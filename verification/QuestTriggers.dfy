// What the five handlers advance, kind by kind, and what becomes of a quest's life.
//
//   KillAdvances, EnterAreaAdvances, CollectAdvances, TalkAdvances, UseAdvances
//                       which objectives of a quest with distinct ids each handler moves, and how
//   DecimalExactly      the target of a collected item is its decimal numeral
//   NoHandlerMoves      objectives of any other kind, and collections by name, never move
//   BanditsCounted      ten bandits complete the first default objective of the side quest
//   DefaultsNeedUpdates even with distinct ids no handler completes a default quest
//   AbandonIsFinal, CompleteIsFinal
//                       after which the quest refuses every further start, end and update
//   JoinsFill           a quest takes joins up to its places, in order
module QuestTriggers {
  import opened Words
  import opened Seqs
  import opened Roster
  import opened QuestModel
  import opened QuestLaws
  import opened QuestProgress

  // ---------- One event ----------

  // One event for an objective: the count goes up by one until the cap is reached.
  predicate Advanced(o: Objective, o': Objective) {
    o' == if o.currentCount < o.requiredCount
          then o.(currentCount := o.currentCount + 1, isCompleted := o.currentCount + 1 == o.requiredCount)
          else o.(currentCount := o.requiredCount, isCompleted := true)
  }

  // Exactly the objectives in hit advance. At 2^32 - 1 the sum wraps, which is left to BumpIsExact.
  ghost predicate Advances(a: seq<Objective>, b: seq<Objective>, hit: int -> bool) {
    && |b| == |a|
    && forall k :: 0 <= k < |a| ==>
      if hit(k) then a[k].currentCount < WORD - 1 ==> Advanced(a[k], b[k]) else b[k] == a[k]
  }

  lemma OneEvent(o: Objective)
    ensures o.currentCount < WORD - 1 ==> Advanced(o, Bumped(o, 1))
  {
  }

  lemma FiredQuest(w: World, t: Trigger, q: uint32)
    requires q in w.quests && w.quests[q].state == InProgress && DistinctIds(w.quests[q].objectives)
    ensures var a, d := w.quests[q].objectives, Step(w, Fire(t)).quests[q];
      && d == w.quests[q].(objectives := d.objectives)
      && Advances(a, d.objectives, (k: int) => 0 <= k < |a| && Matches(w.quests[q], a[k], t))
  {
    hide Matches, Hits, Bumped, Advanced, BumpAll, Ones;
    var quest := w.quests[q];
    var a, b := quest.objectives, Step(w, Fire(t)).quests[q].objectives;
    forall k | 0 <= k < |a|
      ensures if Matches(quest, a[k], t) then a[k].currentCount < WORD - 1 ==> Advanced(a[k], b[k]) else b[k] == a[k]
    {
      TriggeredHits(quest, t, k, |a|);
      DistinctHits(quest, t, k, |a|);
      OnesNone();
      assert Ones(1) == [1] by { OnesAppend(0); }
      SingleBump(a[k], 1);
      OneEvent(a[k]);
    }
  }

  lemma SameHits(a: seq<Objective>, b: seq<Objective>, f: int -> bool, g: int -> bool)
    requires Advances(a, b, f) && forall k :: 0 <= k < |a| ==> f(k) == g(k)
    ensures Advances(a, b, g)
  {
  }

  lemma KillAdvances(w: World, q: uint32, monster: string)
    requires q in w.quests && w.quests[q].state == InProgress && DistinctIds(w.quests[q].objectives)
    ensures var a, d := w.quests[q].objectives, Step(w, Fire(KillMonster(monster))).quests[q];
      && d == w.quests[q].(objectives := d.objectives)
      && Advances(a, d.objectives, (k: int) => 0 <= k < |a| && a[k].kind == "kill" && a[k].target == monster)
  {
    hide Step, Advances;
    var a := w.quests[q].objectives;
    FiredQuest(w, KillMonster(monster), q);
    SameHits(a, Step(w, Fire(KillMonster(monster))).quests[q].objectives,
             (k: int) => 0 <= k < |a| && Matches(w.quests[q], a[k], KillMonster(monster)),
             (k: int) => 0 <= k < |a| && a[k].kind == "kill" && a[k].target == monster);
  }

  lemma EnterAreaAdvances(w: World, q: uint32, area: string)
    requires q in w.quests && w.quests[q].state == InProgress && DistinctIds(w.quests[q].objectives)
    ensures var a, d := w.quests[q].objectives, Step(w, Fire(EnterArea(area))).quests[q];
      && d == w.quests[q].(objectives := d.objectives)
      && Advances(a, d.objectives, (k: int) => 0 <= k < |a| && a[k].kind == "enter_area" && w.quests[q].location == area)
  {
    hide Step, Advances;
    var a := w.quests[q].objectives;
    FiredQuest(w, EnterArea(area), q);
    SameHits(a, Step(w, Fire(EnterArea(area))).quests[q].objectives,
             (k: int) => 0 <= k < |a| && Matches(w.quests[q], a[k], EnterArea(area)),
             (k: int) => 0 <= k < |a| && a[k].kind == "enter_area" && w.quests[q].location == area);
  }

  lemma TalkAdvances(w: World, q: uint32, npc: string)
    requires q in w.quests && w.quests[q].state == InProgress && DistinctIds(w.quests[q].objectives)
    ensures var a, d := w.quests[q].objectives, Step(w, Fire(TalkToNpc(npc))).quests[q];
      && d == w.quests[q].(objectives := d.objectives)
      && Advances(a, d.objectives, (k: int) => 0 <= k < |a| && a[k].kind == "talk" && a[k].target == npc)
  {
    hide Step, Advances;
    var a := w.quests[q].objectives;
    FiredQuest(w, TalkToNpc(npc), q);
    SameHits(a, Step(w, Fire(TalkToNpc(npc))).quests[q].objectives,
             (k: int) => 0 <= k < |a| && Matches(w.quests[q], a[k], TalkToNpc(npc)),
             (k: int) => 0 <= k < |a| && a[k].kind == "talk" && a[k].target == npc);
  }

  lemma UseAdvances(w: World, q: uint32, thing: string)
    requires q in w.quests && w.quests[q].state == InProgress && DistinctIds(w.quests[q].objectives)
    ensures var a, d := w.quests[q].objectives, Step(w, Fire(UseObject(thing))).quests[q];
      && d == w.quests[q].(objectives := d.objectives)
      && Advances(a, d.objectives, (k: int) => 0 <= k < |a| && a[k].kind == "use" && a[k].target == thing)
  {
    hide Step, Advances;
    var a := w.quests[q].objectives;
    FiredQuest(w, UseObject(thing), q);
    SameHits(a, Step(w, Fire(UseObject(thing))).quests[q].objectives,
             (k: int) => 0 <= k < |a| && Matches(w.quests[q], a[k], UseObject(thing)),
             (k: int) => 0 <= k < |a| && a[k].kind == "use" && a[k].target == thing);
  }

  // A numeral of n: digits with the value n, the first of several not 0.
  predicate Numeral(s: string, n: nat) {
    && s != [] && (forall k :: 0 <= k < |s| ==> '0' <= s[k] <= '9')
    && (|s| > 1 ==> s[0] != '0') && Value(s) == n
  }

  function Value(s: string): int {
    if s == [] then 0 else 10 * Value(s[..|s| - 1]) + (s[|s| - 1] as int - '0' as int)
  }

  lemma {:induction false} DecimalIsNumeral(n: nat)
    ensures Numeral(Decimal(n), n) && (n > 0 ==> Decimal(n)[0] != '0')
  {
    var s := Decimal(n);
    if n < 10 {
      assert s[..0] == [];
    } else {
      DecimalIsNumeral(n / 10);
      assert s[..|s| - 1] == Decimal(n / 10);
    }
  }

  lemma {:induction false} ValuePositive(s: string)
    requires s != [] && (forall k :: 0 <= k < |s| ==> '0' <= s[k] <= '9') && s[0] != '0'
    ensures Value(s) > 0
  {
    if |s| > 1 {
      ValuePositive(s[..|s| - 1]);
    } else {
      assert s[..0] == [];
    }
  }

  lemma {:induction false} OneNumeral(s: string, n: nat)
    requires Numeral(s, n)
    ensures s == Decimal(n)
  {
    var front, last := s[..|s| - 1], s[|s| - 1];
    DigitChar(last);
    if |s| == 1 {
      assert front == [];
      assert Value(front) == 0;
    } else {
      ValuePositive(front);
      OneNumeral(front, Value(front));
      assert n / 10 == Value(front) && n % 10 == last as int - '0' as int;
      assert s == front + [last];
    }
  }

  lemma DigitChar(c: char)
    requires '0' <= c <= '9'
    ensures '0' + (c as int - '0' as int) as char == c
  {
  }

  lemma DecimalExactly(s: string, n: nat)
    ensures s == Decimal(n) <==> Numeral(s, n)
  {
    DecimalIsNumeral(n);
    if Numeral(s, n) {
      OneNumeral(s, n);
    }
  }

  lemma CollectAdvances(w: World, q: uint32, item: uint32)
    requires q in w.quests && w.quests[q].state == InProgress && DistinctIds(w.quests[q].objectives)
    ensures var a, d := w.quests[q].objectives, Step(w, Fire(CollectItem(item))).quests[q];
      && d == w.quests[q].(objectives := d.objectives)
      && Advances(a, d.objectives, (k: int) => 0 <= k < |a| && a[k].kind == "collect" && Numeral(a[k].target, item))
  {
    hide Step, Advances, Numeral, Decimal;
    var a := w.quests[q].objectives;
    FiredQuest(w, CollectItem(item), q);
    forall k | 0 <= k < |a| ensures a[k].target == Decimal(item) <==> Numeral(a[k].target, item) {
      DecimalExactly(a[k].target, item);
    }
    SameHits(a, Step(w, Fire(CollectItem(item))).quests[q].objectives,
             (k: int) => 0 <= k < |a| && Matches(w.quests[q], a[k], CollectItem(item)),
             (k: int) => 0 <= k < |a| && a[k].kind == "collect" && Numeral(a[k].target, item));
  }

  // Quests that are not in progress stay as they are.
  lemma OthersUnmoved(w: World, t: Trigger, q: uint32)
    requires q in w.quests && w.quests[q].state != InProgress
    ensures Step(w, Fire(t)).quests[q] == w.quests[q]
  {
    hide Triggered;
  }

  // ---------- Objectives without a handler ----------

  // No handler is for this kind, or the collected item is not named by a number.
  ghost predicate Unhandled(o: Objective) {
    || (o.kind != "enter_area" && o.kind != "kill" && o.kind != "collect" && o.kind != "talk" && o.kind != "use")
    || (o.kind == "collect" && forall n: uint32 :: !Numeral(o.target, n))
  }

  lemma UnhandledNeverMatches(quest: Quest, o: Objective, t: Trigger)
    requires Unhandled(o)
    ensures !Matches(quest, o, t)
  {
    hide Numeral, Decimal;
    if t.CollectItem? {
      DecimalIsNumeral(t.itemId);
    }
  }

  lemma {:induction false} NoEvents(w: World, ops: seq<Op>, q: uint32, j: nat)
    requires q in w.quests && j < |w.quests[q].objectives| && Unhandled(w.quests[q].objectives[j])
    ensures MatchingEvents(w, ops, q, j) == 0
  {
    hide Matches, Unhandled, After;
    if ops != [] {
      NoEvents(w, ops[..|ops| - 1], q, j);
      var op := ops[|ops| - 1];
      if op.Fire? {
        UnhandledNeverMatches(w.quests[q], w.quests[q].objectives[j], op.trigger);
      }
    }
  }

  // Such an objective stays as it is over every run that does not update it directly.
  lemma NoHandlerMoves(w: World, ops: seq<Op>, q: uint32, j: nat)
    requires q in w.quests && DistinctIds(w.quests[q].objectives) && j < |w.quests[q].objectives|
    requires Unhandled(w.quests[q].objectives[j]) && OnlyTriggers(ops, q, w.quests[q].objectives[j])
    ensures j < |After(w, ops).quests[q].objectives|
    ensures After(w, ops).quests[q].objectives[j] == w.quests[q].objectives[j]
  {
    hide After, History, MatchingEvents, OnlyTriggers, DistinctIds, Unhandled, BumpAll;
    NoEvents(w, ops, q, j);
    HistoryIsEvents(w, ops, q, j);
    OnesNone();
    RunGains(w, ops, q, j);
    SingleBump(w.quests[q].objectives[j], 0);
    ObjectiveStays(w, After(w, ops), q);
  }

  // And, if it is mandatory and not complete, its quest is never completed.
  lemma {:induction false} UnhandledBlocks(w: World, ops: seq<Op>, q: uint32, j: nat)
    requires q in w.quests && DistinctIds(w.quests[q].objectives) && j < |w.quests[q].objectives|
    requires Unhandled(w.quests[q].objectives[j]) && OnlyTriggers(ops, q, w.quests[q].objectives[j])
    requires !w.quests[q].objectives[j].isOptional && !w.quests[q].objectives[j].isCompleted
    requires w.quests[q].state != Completed
    ensures After(w, ops).quests[q].state != Completed
  {
    hide Step, DistinctIds, Unhandled;
    if ops != [] {
      var front, op := ops[..|ops| - 1], ops[|ops| - 1];
      UnhandledBlocks(w, front, q, j);
      NoHandlerMoves(w, front, q, j);
      NotCompletable(After(w, front), op, q, j);
    }
  }

  // ---------- The default quests, had they distinct ids ----------

  // The objectives of the two default quests under ids of their own.
  function MainObjectives(a: uint32, b: uint32): seq<Objective> {
    [Objective(a, "kill", "griffin", 1, 0, false, false), Objective(b, "collect", "griffin_feather", 3, 0, false, false)]
  }

  function SideObjectives(a: uint32, b: uint32): seq<Objective> {
    [Objective(a, "kill", "bandit", 10, 0, false, false), Objective(b, "reach", "bandit_camp", 1, 0, false, false)]
  }

  lemma DefaultObjectives()
    ensures MAIN_QUEST.objectives == MainObjectives(0, 0) && SIDE_QUEST.objectives == SideObjectives(0, 0)
  {
  }

  function Bandits(n: nat): seq<Op> {
    seq(n, _ => Fire(KillMonster("bandit")))
  }

  function Counted(o: Objective, n: nat): Objective {
    o.(currentCount := if n < 10 then n else 10, isCompleted := n >= 10)
  }

  // The side quest in progress after n bandits.
  ghost predicate AfterBandits(w: World, q: uint32, a: uint32, b: uint32, n: nat) {
    && q in w.quests && w.quests[q].state == InProgress
    && w.quests[q].objectives == [Counted(SideObjectives(a, b)[0], n), SideObjectives(a, b)[1]]
  }

  lemma NextBandit(w: World, q: uint32, a: uint32, b: uint32, n: nat)
    requires a != b && AfterBandits(w, q, a, b, n)
    ensures AfterBandits(Step(w, Fire(KillMonster("bandit"))), q, a, b, n + 1)
  {
    hide Step;
    KillAdvances(w, q, "bandit");
  }

  lemma BanditsLast(w: World, n: nat)
    ensures After(w, Bandits(0)) == w
    ensures After(w, Bandits(n + 1)) == Step(After(w, Bandits(n)), Fire(KillMonster("bandit")))
  {
    hide Step;
    assert Bandits(n + 1) == Bandits(n) + [Fire(KillMonster("bandit"))];
    AfterOne(w, Bandits(n), Fire(KillMonster("bandit")));
  }

  lemma {:induction false} BanditsFrom(w: World, q: uint32, a: uint32, b: uint32, n: nat)
    requires a != b && AfterBandits(w, q, a, b, 0)
    ensures AfterBandits(After(w, Bandits(n)), q, a, b, n)
  {
    hide Step, After, Bandits, AfterBandits;
    if n == 0 {
      BanditsLast(w, 0);
    } else {
      BanditsFrom(w, q, a, b, n - 1);
      BanditsLast(w, n - 1);
      NextBandit(After(w, Bandits(n - 1)), q, a, b, n - 1);
    }
  }

  lemma NoBanditYet(a: uint32, b: uint32)
    ensures SideObjectives(a, b) == [Counted(SideObjectives(a, b)[0], 0), SideObjectives(a, b)[1]]
  {
  }

  // The first objective of the side quest counts bandits and is complete from the tenth on; the
  // second one stays where it is.
  lemma BanditsCounted(w: World, q: uint32, a: uint32, b: uint32, n: nat)
    requires a != b && q in w.quests && w.quests[q].state == InProgress
    requires w.quests[q].objectives == SideObjectives(a, b)
    ensures AfterBandits(After(w, Bandits(n)), q, a, b, n)
  {
    hide After, Bandits, SideObjectives, Counted;
    NoBanditYet(a, b);
    BanditsFrom(w, q, a, b, n);
  }

  lemma NameIsNoNumeral(n: nat)
    ensures !Numeral("griffin_feather", n)
  {
    assert "griffin_feather"[0] == 'g';
  }

  // Distinct ids alone would not make them completable by what players do: no handler is for
  // reaching a place, and feathers are collected by number.
  lemma DefaultsNeedUpdates(w: World, ops: seq<Op>, q: uint32, a: uint32, b: uint32)
    requires q in w.quests && w.quests[q].state != Completed && a != b
    requires w.quests[q].objectives == MainObjectives(a, b) || w.quests[q].objectives == SideObjectives(a, b)
    requires forall k :: 0 <= k < |ops| && ops[k].Update? ==> ops[k].questId != q
    ensures After(w, ops).quests[q].state != Completed
  {
    hide After, Numeral;
    forall n: uint32 ensures !Numeral("griffin_feather", n) {
      NameIsNoNumeral(n);
    }
    assert Unhandled(w.quests[q].objectives[1]);
    UnhandledBlocks(w, ops, q, 1);
  }

  // ---------- The life of a quest ----------

  // Nothing that could change its state or objectives is accepted any more.
  ghost predicate Closed(w: World, q: uint32) {
    forall op: Op :: (op.Start? || op.Complete? || op.Abandon? || op.Update?) && op.questId == q ==> !Succeeds(w, op)
  }

  lemma TerminalIsClosed(w: World, q: uint32)
    requires q in w.quests && (w.quests[q].state == Completed || w.quests[q].state == Abandoned)
    ensures Closed(w, q)
  {
  }

  lemma AbandonIsFinal(w: World, q: uint32, p: uint32, ops: seq<Op>)
    requires Succeeds(w, Abandon(q, p))
    ensures var d := After(Step(w, Abandon(q, p)), ops);
      && q in d.quests && d.quests[q].state == Abandoned && d.quests[q].objectives == w.quests[q].objectives
      && Closed(d, q)
  {
    hide Closed, After;
    var d := Step(w, Abandon(q, p));
    NothingYet(d, ops);
    TerminalForever(d, ops, 0, q);
    TerminalIsClosed(After(d, ops), q);
  }

  lemma CompleteIsFinal(w: World, q: uint32, p: uint32, ops: seq<Op>)
    requires Succeeds(w, Complete(q, p))
    ensures var d := After(Step(w, Complete(q, p)), ops);
      && q in d.quests && d.quests[q].state == Completed && d.quests[q].objectives == w.quests[q].objectives
      && Closed(d, q)
  {
    hide Closed, After;
    var d := Step(w, Complete(q, p));
    NothingYet(d, ops);
    TerminalForever(d, ops, 0, q);
    TerminalIsClosed(After(d, ops), q);
  }

  lemma NothingYet(w: World, ops: seq<Op>)
    ensures After(w, ops[..0]) == w
  {
  }

  // ---------- Joining ----------

  function Joins(q: uint32, players: seq<uint32>): seq<Op> {
    seq(|players|, k requires 0 <= k < |players| => Join(q, players[k]))
  }

  lemma JoinStep(w: World, q: uint32, p: uint32)
    requires q in w.quests
    ensures var quest := w.quests[q];
      Step(w, Join(q, p)).quests[q] == if quest.isCooperative && |quest.participants| < quest.maxParticipants
        then quest.(participants := quest.participants + [p]) else quest
  {
  }

  lemma QuestThere(w: World, ops: seq<Op>, q: uint32)
    requires q in w.quests
    ensures q in After(w, ops).quests
  {
  }

  lemma JoinsLast(w: World, q: uint32, front: seq<uint32>, last: uint32)
    ensures After(w, Joins(q, front + [last])) == Step(After(w, Joins(q, front)), Join(q, last))
  {
    hide Step, After;
    assert Joins(q, front + [last]) == Joins(q, front) + [Join(q, last)];
    AfterOne(w, Joins(q, front), Join(q, last));
  }

  lemma NoJoins(w: World, q: uint32)
    ensures After(w, Joins(q, [])) == w
  {
  }

  lemma {:induction false} JoinsAppend(w: World, q: uint32, players: seq<uint32>)
    requires q in w.quests && w.quests[q].isCooperative && |w.quests[q].participants| <= w.quests[q].maxParticipants
    ensures var quest := w.quests[q];
      After(w, Joins(q, players)).quests[q]
      == quest.(participants := Taken(quest.participants + players, quest.maxParticipants))
    decreases |players|
  {
    hide Step, After, Joins, SameWorld, Taken;
    var quest := w.quests[q];
    QuestThere(w, Joins(q, players), q);
    if players == [] {
      NoJoins(w, q);
      DropNone(quest.participants);
      TakesAll(quest.participants, quest.maxParticipants);
    } else {
      var front, last := players[..|players| - 1], players[|players| - 1];
      JoinsAppend(w, q, front);
      QuestThere(w, Joins(q, front), q);
      assert front + [last] == players;
      JoinsLast(w, q, front, last);
      JoinStep(After(w, Joins(q, front)), q, last);
      Assoc(quest.participants, front, [last]);
      TakenNext(quest.participants + front, last, quest.maxParticipants);
    }
  }

  // Started by one player, a cooperative quest takes the others in order until it is full, the
  // same one twice if need be; any other quest takes nobody.
  lemma JoinsFill(w: World, q: uint32, p: uint32, players: seq<uint32>)
    requires q in w.quests && w.quests[q].participants == [] && Succeeds(w, Start(q, p))
    ensures var quest := w.quests[q];
      After(Step(w, Start(q, p)), Joins(q, players)).quests[q]
      == quest.(state := InProgress, syncOwner := p,
                participants := if quest.isCooperative then Taken([p] + players, quest.maxParticipants) else [p])
  {
    hide Step, Succeeds, After;
    StartStepIs(w, q, p);
    JoinsLeave(Step(w, Start(q, p)), q, players);
    if w.quests[q].isCooperative {
      JoinsAppend(Step(w, Start(q, p)), q, players);
    }
  }

  // A quest that is not cooperative, whatever its places.
  lemma {:induction false} JoinsLeave(w: World, q: uint32, players: seq<uint32>)
    requires q in w.quests
    ensures !w.quests[q].isCooperative ==> After(w, Joins(q, players)).quests[q] == w.quests[q]
    decreases |players|
  {
    hide Step, SameWorld;
    if players != [] {
      var front, last := players[..|players| - 1], players[|players| - 1];
      JoinsLeave(w, q, front);
      QuestThere(w, Joins(q, front), q);
      assert Joins(q, players)[..|players| - 1] == Joins(q, front);
      JoinStep(After(w, Joins(q, front)), q, last);
    }
  }

  lemma StartStepIs(w: World, q: uint32, p: uint32)
    requires q in w.quests && w.quests[q].participants == [] && Succeeds(w, Start(q, p))
    ensures q in Step(w, Start(q, p)).quests
    ensures Step(w, Start(q, p)).quests[q] == w.quests[q].(state := InProgress, syncOwner := p, participants := [p])
    ensures w.quests[q].isCooperative ==> w.quests[q].maxParticipants >= 1
  {
    hide PrerequisitesMet;
    assert [] + [p] == [p];
  }
}
