// The cooperative quests of src/game/CooperativeQuests.cpp as a transition system.
module QuestModel {
  import opened Words
  import opened Roster

  datatype QuestState = NotStarted | Available | InProgress | Completed | Failed | Abandoned

  datatype Objective = Objective(objectiveId: uint32, kind: string, target: string,
                                 requiredCount: uint32, currentCount: uint32,
                                 isCompleted: bool, isOptional: bool)

  datatype Quest = Quest(state: QuestState, objectives: seq<Objective>, requiredQuests: seq<uint32>,
                         location: string, isCooperative: bool, maxParticipants: uint32,
                         participants: seq<uint32>, syncOwner: uint32)

  datatype World = World(initialized: bool, quests: map<uint32, Quest>, playerQuests: Lists)

  // What the five On... handlers are told.
  datatype Trigger =
    | EnterArea(areaId: string)
    | KillMonster(monsterId: string)
    | CollectItem(itemId: uint32)
    | TalkToNpc(npcId: string)
    | UseObject(objectId: string)

  datatype Op =
    | Start(questId: uint32, playerId: uint32)
    | Complete(questId: uint32, playerId: uint32)
    | Abandon(questId: uint32, playerId: uint32)
    | Join(questId: uint32, playerId: uint32)
    | Leave(questId: uint32, playerId: uint32)
    | Update(questId: uint32, objectiveId: uint32, progress: uint32)
    | Fire(trigger: Trigger)

  // ---------- Objectives ----------

  function Min(a: int, b: int): int {
    if b < a then b else a
  }

  // One update of a counter. The sum is formed in 32 bits before it is capped.
  function Bumped(o: Objective, progress: uint32): Objective {
    var count := Min(Add32(o.currentCount, progress), o.requiredCount);
    o.(currentCount := count, isCompleted := count >= o.requiredCount)
  }

  // The first objective with the id, or the number of objectives.
  function FirstWith(objectives: seq<Objective>, id: uint32): (k: nat)
    ensures k <= |objectives| && (k < |objectives| ==> objectives[k].objectiveId == id)
    ensures forall i :: 0 <= i < k ==> objectives[i].objectiveId != id
  {
    if objectives == [] || objectives[0].objectiveId == id then 0
    else 1 + FirstWith(objectives[1..], id)
  }

  function UpdateFirst(objectives: seq<Objective>, id: uint32, progress: uint32): seq<Objective> {
    var k := FirstWith(objectives, id);
    if k < |objectives| then objectives[k := Bumped(objectives[k], progress)] else objectives
  }

  // std::to_string of an unsigned number.
  function Decimal(n: nat): string {
    var digit := ['0' + (n % 10) as char];
    if n < 10 then digit else Decimal(n / 10) + digit
  }

  predicate Matches(quest: Quest, o: Objective, t: Trigger) {
    match t
    case EnterArea(areaId) => quest.location == areaId && o.kind == "enter_area"
    case KillMonster(monsterId) => o.kind == "kill" && o.target == monsterId
    case CollectItem(itemId) => o.kind == "collect" && o.target == Decimal(itemId)
    case TalkToNpc(npcId) => o.kind == "talk" && o.target == npcId
    case UseObject(objectId) => o.kind == "use" && o.target == objectId
  }

  // What never changes in an objective, and in a quest.
  predicate SameObjective(o: Objective, o': Objective) {
    o' == o.(currentCount := o'.currentCount, isCompleted := o'.isCompleted)
  }

  ghost predicate SameObjectives(a: seq<Objective>, b: seq<Objective>) {
    |a| == |b| && forall k :: 0 <= k < |a| ==> SameObjective(a[k], b[k])
  }

  ghost predicate SameQuest(a: Quest, b: Quest) {
    && a.requiredQuests == b.requiredQuests && a.location == b.location
    && a.isCooperative == b.isCooperative && a.maxParticipants == b.maxParticipants
    && SameObjectives(a.objectives, b.objectives)
  }

  ghost predicate SameWorld(w: World, d: World) {
    && d.initialized == w.initialized && d.quests.Keys == w.quests.Keys
    && forall q :: q in w.quests ==> SameQuest(w.quests[q], d.quests[q])
  }

  lemma MatchesKept(a: Quest, b: Quest, j: nat, t: Trigger)
    requires SameQuest(a, b) && j < |a.objectives|
    ensures Matches(a, a.objectives[j], t) <==> Matches(b, b.objectives[j], t)
  {
    assert SameObjective(a.objectives[j], b.objectives[j]);
  }

  // A trigger's loop over the first n objectives: each match updates by its id.
  function Triggered(quest: Quest, t: Trigger, n: nat): (r: seq<Objective>)
    requires n <= |quest.objectives|
    ensures SameObjectives(quest.objectives, r)
  {
    if n == 0 then quest.objectives else
    var before := Triggered(quest, t, n - 1);
    var o := quest.objectives[n - 1];
    if Matches(quest, o, t) then UpdateFirst(before, o.objectiveId, 1) else before
  }

  // ---------- Steps ----------

  predicate PrerequisitesMet(w: World, quest: Quest) {
    forall r :: r in quest.requiredQuests ==> r in w.quests && w.quests[r].state == Completed
  }

  predicate HasSpace(quest: Quest) {
    |quest.participants| < quest.maxParticipants
  }

  predicate MandatoryDone(objectives: seq<Objective>) {
    forall k :: 0 <= k < |objectives| ==> objectives[k].isOptional || objectives[k].isCompleted
  }

  // The return value of the call.
  predicate Succeeds(w: World, op: Op) {
    if op.Fire? then true else
    op.questId in w.quests &&
    var quest := w.quests[op.questId];
    match op
    case Start(_, _) =>
      w.initialized && quest.state == Available && PrerequisitesMet(w, quest) && (quest.isCooperative ==> HasSpace(quest))
    case Complete(_, _) => quest.state == InProgress && MandatoryDone(quest.objectives)
    case Abandon(_, _) => quest.state == InProgress
    case Join(_, _) => quest.isCooperative && HasSpace(quest)
    case Leave(_, _) => true
    case Update(_, id, _) => quest.state == InProgress && FirstWith(quest.objectives, id) < |quest.objectives|
  }

  // What a successful call makes of the quest it names.
  function Changed(quest: Quest, op: Op): Quest {
    match op
    case Start(_, p) => quest.(state := InProgress, participants := quest.participants + [p], syncOwner := p)
    case Complete(_, _) => quest.(state := Completed)
    case Abandon(_, p) => quest.(state := Abandoned, participants := RemoveFirst(quest.participants, p))
    case Join(_, p) => quest.(participants := quest.participants + [p])
    case Leave(_, p) => quest.(participants := RemoveFirst(quest.participants, p))
    case Update(_, id, progress) => quest.(objectives := UpdateFirst(quest.objectives, id, progress))
    case Fire(t) =>
      if quest.state == InProgress then quest.(objectives := Triggered(quest, t, |quest.objectives|)) else quest
  }

  function StepQuest(w: World, op: Op, q: uint32): (r: Quest)
    requires q in w.quests
    ensures SameQuest(w.quests[q], r)
  {
    if Succeeds(w, op) && (op.Fire? || op.questId == q) then Changed(w.quests[q], op) else w.quests[q]
  }

  function StepPlayers(w: World, op: Op): Lists {
    if !Succeeds(w, op) then w.playerQuests else
    match op
    case Start(q, p) => w.playerQuests[p := Of(w.playerQuests, p) + [q]]
    case Join(q, p) => w.playerQuests[p := Of(w.playerQuests, p) + [q]]
    case Abandon(q, p) => w.playerQuests[p := RemoveFirst(Of(w.playerQuests, p), q)]
    case Leave(q, p) => w.playerQuests[p := RemoveFirst(Of(w.playerQuests, p), q)]
    case _ => w.playerQuests
  }

  function Step(w: World, op: Op): (d: World)
    ensures SameWorld(w, d)
  {
    World(w.initialized, map q | q in w.quests :: StepQuest(w, op, q), StepPlayers(w, op))
  }

  // The world after a run of calls.
  function After(w: World, ops: seq<Op>): (d: World)
    ensures SameWorld(w, d)
  {
    if ops == [] then w else
    var before := After(w, ops[..|ops| - 1]);
    var d := Step(before, ops[|ops| - 1]);
    SameWorldTransitive(w, before, d);
    d
  }

  lemma SameWorldTransitive(w: World, d: World, e: World)
    requires SameWorld(w, d) && SameWorld(d, e)
    ensures SameWorld(w, e)
  {
    forall q | q in w.quests ensures SameQuest(w.quests[q], e.quests[q]) {
      assert SameQuest(w.quests[q], d.quests[q]) && SameQuest(d.quests[q], e.quests[q]);
    }
  }

  predicate Started(quest: Quest) {
    quest.state == InProgress || quest.state == Completed || quest.state == Abandoned
  }

  predicate FreshObjective(o: Objective) {
    o.currentCount == 0 && !o.isCompleted
  }

  predicate FreshQuest(quest: Quest) {
    && !Started(quest) && quest.participants == []
    && forall k :: 0 <= k < |quest.objectives| ==> FreshObjective(quest.objectives[k])
  }

  // No quest has been started and nobody takes part in any.
  ghost predicate Initial(w: World) {
    && (forall q :: q in w.quests ==> FreshQuest(w.quests[q]))
    && (forall p: uint32 :: Of(w.playerQuests, p) == [])
  }

  // ---------- The default quests ----------

  // What the constructors and the factories set: the id is left at 0.
  function NewObjective(kind: string, target: string, count: uint32): Objective {
    Objective(0, kind, target, count, 0, false, false)
  }

  function NewQuest(maxParticipants: uint32, objectives: seq<Objective>): Quest {
    Quest(Available, objectives, [], "", true, maxParticipants, [], 0)
  }

  const MAIN_QUEST: Quest :=
    NewQuest(4, [NewObjective("kill", "griffin", 1), NewObjective("collect", "griffin_feather", 3)])

  const SIDE_QUEST: Quest :=
    NewQuest(3, [NewObjective("kill", "bandit", 10), NewObjective("reach", "bandit_camp", 1)])
}
