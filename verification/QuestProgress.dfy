// Objective counters as functions of the event history.
module QuestProgress {
  import opened Words
  import opened QuestModel
  import opened Seqs

  // ---------- One counter ----------

  // A counter after a history of updates.
  function BumpAll(o: Objective, history: seq<uint32>): (r: Objective)
    ensures SameObjective(o, r)
  {
    if history == [] then o else Bumped(BumpAll(o, history[..|history| - 1]), history[|history| - 1])
  }

  lemma {:induction false} BumpAllAppend(o: Objective, a: seq<uint32>, b: seq<uint32>)
    ensures BumpAll(o, a + b) == BumpAll(BumpAll(o, a), b)
  {
    hide Bumped;
    if b == [] {
      DropNone(a);
    } else {
      var front, last := b[..|b| - 1], b[|b| - 1];
      BumpAllAppend(o, a, front);
      assert (a + b)[..|a + b| - 1] == a + front;
    }
  }

  function Sum(s: seq<uint32>): nat {
    if s == [] then 0 else Sum(s[..|s| - 1]) + s[|s| - 1]
  }

  // The 32-bit sum is exact for a count that is not above its cap if and only if it does not
  // wrap; past that the counter falls back below the cap.
  lemma BumpIsExact(o: Objective, progress: uint32)
    requires o.currentCount <= o.requiredCount
    ensures Bumped(o, progress).currentCount == Min(o.currentCount + progress, o.requiredCount)
      <==> o.currentCount + progress < WORD
    ensures Bumped(o, progress).isCompleted <==>
      o.currentCount + progress < WORD && o.currentCount + progress >= o.requiredCount
  {
    if o.currentCount + progress >= WORD {
      assert Add32(o.currentCount, progress) == o.currentCount + progress - WORD;
    }
  }

  // An update of this size cannot wrap a counter with this cap.
  predicate Fits(o: Objective, progress: uint32) {
    progress + o.requiredCount < WORD
  }

  // The bound is the best one: past it a completed objective is undone by its next update.
  lemma BeyondFitsUndone(o: Objective, progress: uint32)
    requires FreshObjective(o) && !Fits(o, progress)
    ensures BumpAll(o, [o.requiredCount]).currentCount == o.requiredCount
    ensures BumpAll(o, [o.requiredCount]).isCompleted
    ensures BumpAll(o, [o.requiredCount, progress]).currentCount < o.requiredCount
    ensures !BumpAll(o, [o.requiredCount, progress]).isCompleted
  {
    hide Bumped;
    assert [o.requiredCount, progress][..1] == [o.requiredCount];
    SingleBump(o, o.requiredCount);
    BumpIsExact(o, o.requiredCount);
    BumpIsExact(Bumped(o, o.requiredCount), progress);
    BumpCapped(Bumped(o, o.requiredCount), progress);
  }

  lemma BumpCapped(o: Objective, progress: uint32)
    ensures Bumped(o, progress).currentCount <= o.requiredCount
    ensures Bumped(o, progress).isCompleted <==> Bumped(o, progress).currentCount == o.requiredCount
  {
  }

  // An objective asked for n is completed by a history.
  predicate Enough(history: seq<uint32>, n: uint32) {
    history != [] && Sum(history) >= n
  }

  // No update of the history meets a count with which its 32-bit sum wraps.
  predicate NeverWraps(o: Objective, history: seq<uint32>) {
    history == [] || (
      var front, last := history[..|history| - 1], history[|history| - 1];
      NeverWraps(o, front) && Min(Sum(front), o.requiredCount) + last < WORD)
  }

  // After every prefix of the history the counter is the sum so far, up to the cap.
  predicate CountsExactly(o: Objective, history: seq<uint32>) {
    && BumpAll(o, history).currentCount == Min(Sum(history), o.requiredCount)
    && (history == [] || CountsExactly(o, history[..|history| - 1]))
  }

  lemma {:induction false} ExactIfNeverWraps(o: Objective, history: seq<uint32>)
    requires FreshObjective(o)
    ensures CountsExactly(o, history) <==> NeverWraps(o, history)
    ensures NeverWraps(o, history) ==> (BumpAll(o, history).isCompleted <==> Enough(history, o.requiredCount))
  {
    hide Bumped;
    if history != [] {
      var front := history[..|history| - 1];
      ExactIfNeverWraps(o, front);
      if NeverWraps(o, front) {
        BumpIsExact(BumpAll(o, front), history[|history| - 1]);
      }
    }
  }

  lemma {:induction false} FitsNeverWraps(o: Objective, history: seq<uint32>)
    requires forall d :: d in history ==> Fits(o, d)
    ensures NeverWraps(o, history)
  {
    if history != [] {
      FitsNeverWraps(o, history[..|history| - 1]);
      assert history[|history| - 1] in history;
    }
  }

  // ---------- The updates a trigger makes ----------

  function Ones(n: nat): seq<uint32> {
    seq(n, _ => 1)
  }

  // How often a trigger's loop over the first n objectives updates the j-th one: once for each
  // match whose id leads to j.
  function Hits(quest: Quest, t: Trigger, j: nat, n: nat): (h: nat)
    requires n <= |quest.objectives|
    ensures h <= n
  {
    if n == 0 then 0 else
    Hits(quest, t, j, n - 1) +
      if Matches(quest, quest.objectives[n - 1], t) && FirstWith(quest.objectives, quest.objectives[n - 1].objectiveId) == j
      then 1 else 0
  }

  lemma {:induction false} FirstWithKept(a: seq<Objective>, b: seq<Objective>, id: uint32)
    requires SameObjectives(a, b)
    ensures FirstWith(a, id) == FirstWith(b, id)
  {
    var k, l := FirstWith(a, id), FirstWith(b, id);
    assert k < |a| ==> SameObjective(a[k], b[k]);
    assert l < |b| ==> SameObjective(a[l], b[l]);
  }

  lemma {:induction false} TriggeredHits(quest: Quest, t: Trigger, j: nat, n: nat)
    requires n <= |quest.objectives| && j < |quest.objectives|
    ensures Triggered(quest, t, n)[j] == BumpAll(quest.objectives[j], Ones(Hits(quest, t, j, n)))
    decreases n
  {
    hide Matches, Bumped, FirstWith, UpdateFirst, BumpAll, Ones, SameObjective;
    if n == 0 {
      OnesNone();
      SingleBump(quest.objectives[j], 0);
    } else {
      TriggeredHits(quest, t, j, n - 1);
      var before := Triggered(quest, t, n - 1);
      FirstWithKept(quest.objectives, before, quest.objectives[n - 1].objectiveId);
      UpdatedAt(before, quest.objectives[n - 1].objectiveId, j);
      OneMore(quest.objectives[j], Hits(quest, t, j, n - 1));
    }
  }

  lemma UpdatedAt(objectives: seq<Objective>, id: uint32, j: nat)
    requires j < |objectives|
    ensures |UpdateFirst(objectives, id, 1)| == |objectives|
    ensures UpdateFirst(objectives, id, 1)[j] ==
      if FirstWith(objectives, id) == j then Bumped(objectives[j], 1) else objectives[j]
  {
  }

  lemma OnesAppend(n: nat)
    ensures Ones(n + 1) == Ones(n) + [1]
  {
  }

  lemma OneMore(o: Objective, n: nat)
    ensures BumpAll(o, Ones(n + 1)) == Bumped(BumpAll(o, Ones(n)), 1)
  {
    assert Ones(n + 1)[..n] == Ones(n);
  }

  // ---------- Over a run ----------

  // The updates one call gives to the j-th objective of quest q.
  function Gains(w: World, op: Op, q: uint32, j: nat): seq<uint32>
    requires q in w.quests && j < |w.quests[q].objectives|
  {
    var quest := w.quests[q];
    if quest.state != InProgress then [] else
    match op
    case Update(q', id, progress) =>
      if q' == q && FirstWith(quest.objectives, id) == j then [progress] else []
    case Fire(t) => Ones(Hits(quest, t, j, |quest.objectives|))
    case _ => []
  }

  lemma StepGains(w: World, op: Op, q: uint32, j: nat)
    requires q in w.quests && j < |w.quests[q].objectives|
    ensures Step(w, op).quests[q].objectives[j] == BumpAll(w.quests[q].objectives[j], Gains(w, op, q, j))
  {
    hide Matches, FirstWith, Hits, Ones, Triggered, Bumped, MandatoryDone;
    var quest := w.quests[q];
    if op.Fire? && quest.state == InProgress {
      TriggeredHits(quest, op.trigger, j, |quest.objectives|);
    } else if op.Update? {
      SingleBump(quest.objectives[j], op.progress);
    }
  }

  lemma SingleBump(o: Objective, progress: uint32)
    ensures BumpAll(o, [progress]) == Bumped(o, progress) && BumpAll(o, []) == o
  {
    assert [progress][..0] == [];
  }

  // All updates given to it in a run.
  function History(w: World, ops: seq<Op>, q: uint32, j: nat): seq<uint32>
    requires q in w.quests && j < |w.quests[q].objectives|
  {
    if ops == [] then [] else
    var before := After(w, ops[..|ops| - 1]);
    ObjectiveStays(w, before, q);
    History(w, ops[..|ops| - 1], q, j) + Gains(before, ops[|ops| - 1], q, j)
  }

  lemma ObjectiveStays(w: World, d: World, q: uint32)
    requires SameWorld(w, d) && q in w.quests
    ensures SameQuest(w.quests[q], d.quests[q])
  {
  }

  lemma {:induction false} RunGains(w: World, ops: seq<Op>, q: uint32, j: nat)
    requires q in w.quests && j < |w.quests[q].objectives|
    ensures SameQuest(w.quests[q], After(w, ops).quests[q])
    ensures After(w, ops).quests[q].objectives[j] == BumpAll(w.quests[q].objectives[j], History(w, ops, q, j))
  {
    hide Step, Gains, BumpAll;
    ObjectiveStays(w, After(w, ops), q);
    if ops == [] {
      SingleBump(w.quests[q].objectives[j], 0);
    } else {
      var front, last := ops[..|ops| - 1], ops[|ops| - 1];
      RunGains(w, front, q, j);
      StepGains(After(w, front), last, q, j);
      BumpAllAppend(w.quests[q].objectives[j], History(w, front, q, j), Gains(After(w, front), last, q, j));
    }
  }

  // Every update addressed to the objective fits its counter. Triggers give progress 1.
  ghost predicate UpdatesFit(ops: seq<Op>, q: uint32, o: Objective) {
    && Fits(o, 1)
    && forall k :: 0 <= k < |ops| && ops[k].Update? && ops[k].questId == q && ops[k].objectiveId == o.objectiveId ==>
         Fits(o, ops[k].progress)
  }

  // Which can be told from the calls alone.
  lemma {:induction false} FittingUpdates(w: World, ops: seq<Op>, q: uint32, j: nat)
    requires q in w.quests && j < |w.quests[q].objectives|
    requires UpdatesFit(ops, q, w.quests[q].objectives[j])
    ensures forall d :: d in History(w, ops, q, j) ==> Fits(w.quests[q].objectives[j], d)
    ensures NeverWraps(w.quests[q].objectives[j], History(w, ops, q, j))
  {
    hide Fits, After, NeverWraps, Gains, FirstWith;
    if ops != [] {
      var front, op := ops[..|ops| - 1], ops[|ops| - 1];
      FittingUpdates(w, front, q, j);
      ObjectiveStays(w, After(w, front), q);
      FittingGains(After(w, front), op, q, j, w.quests[q].objectives[j]);
    }
    FitsNeverWraps(w.quests[q].objectives[j], History(w, ops, q, j));
  }

  lemma FittingGains(w: World, op: Op, q: uint32, j: nat, o: Objective)
    requires q in w.quests && j < |w.quests[q].objectives| && SameObjective(o, w.quests[q].objectives[j])
    requires Fits(o, 1)
    requires op.Update? && op.questId == q && op.objectiveId == o.objectiveId ==> Fits(o, op.progress)
    ensures forall d :: d in Gains(w, op, q, j) ==> Fits(o, d)
  {
    hide Fits, Hits;
  }

  // After every prefix of its history the counter is the sum of the updates, up to the cap, if
  // and only if none of them wraps; and then the flag says whether they were enough. Nothing
  // else the run does matters.
  lemma CountedExactly(w: World, ops: seq<Op>, q: uint32, j: nat)
    requires q in w.quests && j < |w.quests[q].objectives| && FreshObjective(w.quests[q].objectives[j])
    ensures j < |After(w, ops).quests[q].objectives|
    ensures var before, now, h := w.quests[q].objectives[j], After(w, ops).quests[q].objectives[j], History(w, ops, q, j);
      && now == BumpAll(before, h)
      && (CountsExactly(before, h) <==> NeverWraps(before, h))
      && (NeverWraps(before, h) ==>
            && now.currentCount == Min(Sum(h), before.requiredCount)
            && (now.isCompleted <==> Enough(h, before.requiredCount)))
  {
    hide After, History, NeverWraps, BumpAll, Enough;
    RunGains(w, ops, q, j);
    ExactIfNeverWraps(w.quests[q].objectives[j], History(w, ops, q, j));
  }

  // CompleteQuest succeeds on a quest in progress exactly when every mandatory objective has
  // had its updates, provided none of those wrapped.
  lemma CompletionDecided(w: World, ops: seq<Op>, q: uint32, p: uint32)
    requires q in w.quests && FreshQuest(w.quests[q])
    requires forall j :: 0 <= j < |w.quests[q].objectives| && !w.quests[q].objectives[j].isOptional ==>
      NeverWraps(w.quests[q].objectives[j], History(w, ops, q, j))
    requires After(w, ops).quests[q].state == InProgress
    ensures Succeeds(After(w, ops), Complete(q, p)) <==>
      forall j :: 0 <= j < |w.quests[q].objectives| ==>
        w.quests[q].objectives[j].isOptional
        || Enough(History(w, ops, q, j), w.quests[q].objectives[j].requiredCount)
  {
    hide After, History, NeverWraps, Enough, CountsExactly, BumpAll;
    var objectives := w.quests[q].objectives;
    ObjectiveStays(w, After(w, ops), q);
    forall j | 0 <= j < |objectives|
      ensures SameObjective(objectives[j], After(w, ops).quests[q].objectives[j])
      ensures !objectives[j].isOptional ==>
        (After(w, ops).quests[q].objectives[j].isCompleted <==> Enough(History(w, ops, q, j), objectives[j].requiredCount))
    {
      CountedExactly(w, ops, q, j);
    }
  }

  // ---------- Triggers only, distinct ids ----------

  ghost predicate DistinctIds(objectives: seq<Objective>) {
    forall i, j :: 0 <= i < j < |objectives| ==> objectives[i].objectiveId != objectives[j].objectiveId
  }

  // The events of the run that match the objective while its quest is in progress.
  function MatchingEvents(w: World, ops: seq<Op>, q: uint32, j: nat): nat
    requires q in w.quests && j < |w.quests[q].objectives|
  {
    if ops == [] then 0 else
    var before, op := After(w, ops[..|ops| - 1]), ops[|ops| - 1];
    MatchingEvents(w, ops[..|ops| - 1], q, j) +
      if op.Fire? && before.quests[q].state == InProgress && Matches(w.quests[q], w.quests[q].objectives[j], op.trigger)
      then 1 else 0
  }

  lemma {:induction false} DistinctHits(quest: Quest, t: Trigger, j: nat, n: nat)
    requires n <= |quest.objectives| && j < |quest.objectives| && DistinctIds(quest.objectives)
    ensures Hits(quest, t, j, n) == if j < n && Matches(quest, quest.objectives[j], t) then 1 else 0
    decreases n
  {
    hide Matches;
    if n > 0 {
      DistinctHits(quest, t, j, n - 1);
      DistinctFirst(quest.objectives, n - 1);
    }
  }

  lemma DistinctFirst(objectives: seq<Objective>, i: nat)
    requires DistinctIds(objectives) && i < |objectives|
    ensures FirstWith(objectives, objectives[i].objectiveId) == i
  {
  }

  lemma DistinctKept(a: seq<Objective>, b: seq<Objective>)
    requires SameObjectives(a, b) && DistinctIds(a)
    ensures DistinctIds(b)
  {
    forall i, j | 0 <= i < j < |b| ensures b[i].objectiveId != b[j].objectiveId {
      assert SameObjective(a[i], b[i]) && SameObjective(a[j], b[j]);
    }
  }

  // The objective gets its progress from triggers alone.
  ghost predicate OnlyTriggers(ops: seq<Op>, q: uint32, o: Objective) {
    forall k :: 0 <= k < |ops| && ops[k].Update? ==> ops[k].questId != q || ops[k].objectiveId != o.objectiveId
  }

  lemma NoDirectGains(w: World, op: Op, q: uint32, j: nat, o: Objective)
    requires q in w.quests && j < |w.quests[q].objectives| && SameObjective(o, w.quests[q].objectives[j])
    requires op.Update? ==> op.questId != q || op.objectiveId != o.objectiveId
    ensures !op.Fire? ==> Gains(w, op, q, j) == []
  {
  }

  lemma {:induction false} HistoryIsEvents(w: World, ops: seq<Op>, q: uint32, j: nat)
    requires q in w.quests && j < |w.quests[q].objectives| && DistinctIds(w.quests[q].objectives)
    requires OnlyTriggers(ops, q, w.quests[q].objectives[j])
    ensures History(w, ops, q, j) == Ones(MatchingEvents(w, ops, q, j))
  {
    hide Matches, After, Ones, Hits, DistinctIds;
    if ops == [] {
      OnesNone();
    } else {
      var front, op := ops[..|ops| - 1], ops[|ops| - 1];
      HistoryIsEvents(w, front, q, j);
      var before := After(w, front);
      var quest := before.quests[q];
      ObjectiveStays(w, before, q);
      DistinctKept(w.quests[q].objectives, quest.objectives);
      OnesNone();
      OnesAppend(MatchingEvents(w, front, q, j));
      DropNone(History(w, front, q, j));
      NoDirectGains(before, op, q, j, w.quests[q].objectives[j]);
      if op.Fire? {
        DistinctHits(quest, op.trigger, j, |quest.objectives|);
        MatchesKept(w.quests[q], quest, j, op.trigger);
      }
    }
  }

  lemma OnesNone()
    ensures Ones(0) == [] && Ones(1) == [1]
  {
  }

  lemma {:induction false} SumOnes(n: nat)
    ensures Sum(Ones(n)) == n
  {
    if n > 0 {
      SumOnes(n - 1);
      assert Ones(n)[..n - 1] == Ones(n - 1);
    }
  }

  lemma {:induction false} OnesNeverWrap(o: Objective, n: nat)
    ensures NeverWraps(o, Ones(n)) <==> o.requiredCount < WORD - 1 || n < WORD
  {
    if n > 0 {
      OnesNeverWrap(o, n - 1);
      SumOnes(n - 1);
      assert Ones(n)[..n - 1] == Ones(n - 1);
    }
  }

  // Among calls of any kind on any number of quests: the count is the number of matching events
  // up to the cap. Only a cap of 2^32 - 1 can be passed, by as many events and one more.
  lemma EventsCounted(w: World, ops: seq<Op>, q: uint32, j: nat)
    requires q in w.quests && FreshQuest(w.quests[q]) && DistinctIds(w.quests[q].objectives)
    requires j < |w.quests[q].objectives| && OnlyTriggers(ops, q, w.quests[q].objectives[j])
    requires w.quests[q].objectives[j].requiredCount < WORD - 1 || MatchingEvents(w, ops, q, j) < WORD
    ensures j < |After(w, ops).quests[q].objectives|
    ensures var o, n, cap := After(w, ops).quests[q].objectives[j], MatchingEvents(w, ops, q, j),
        w.quests[q].objectives[j].requiredCount;
      o.currentCount == Min(n, cap) && (o.isCompleted <==> n >= 1 && n >= cap)
  {
    hide After, History, MatchingEvents, OnlyTriggers, NeverWraps, BumpAll, CountsExactly, DistinctIds;
    var n := MatchingEvents(w, ops, q, j);
    HistoryIsEvents(w, ops, q, j);
    SumOnes(n);
    OnesNeverWrap(w.quests[q].objectives[j], n);
    CountedExactly(w, ops, q, j);
  }

  lemma CompletedByEvents(w: World, ops: seq<Op>, q: uint32, p: uint32)
    requires q in w.quests && FreshQuest(w.quests[q]) && DistinctIds(w.quests[q].objectives)
    requires forall j :: 0 <= j < |w.quests[q].objectives| && !w.quests[q].objectives[j].isOptional ==>
      && OnlyTriggers(ops, q, w.quests[q].objectives[j])
      && (w.quests[q].objectives[j].requiredCount < WORD - 1 || MatchingEvents(w, ops, q, j) < WORD)
    requires After(w, ops).quests[q].state == InProgress
    ensures Succeeds(After(w, ops), Complete(q, p)) <==>
      forall j :: 0 <= j < |w.quests[q].objectives| ==>
        w.quests[q].objectives[j].isOptional
        || (MatchingEvents(w, ops, q, j) >= 1 && MatchingEvents(w, ops, q, j) >= w.quests[q].objectives[j].requiredCount)
  {
    hide After, MatchingEvents, OnlyTriggers, DistinctIds;
    var objectives := w.quests[q].objectives;
    ObjectiveStays(w, After(w, ops), q);
    forall j | 0 <= j < |objectives|
      ensures SameObjective(objectives[j], After(w, ops).quests[q].objectives[j])
      ensures !objectives[j].isOptional ==>
        (After(w, ops).quests[q].objectives[j].isCompleted
         <==> MatchingEvents(w, ops, q, j) >= 1 && MatchingEvents(w, ops, q, j) >= objectives[j].requiredCount)
    {
      RunGains(w, ops, q, j);
      if !objectives[j].isOptional {
        EventsCounted(w, ops, q, j);
      }
    }
  }

  // ---------- Repeated ids ----------

  // Updates go to the first objective with the id. A mandatory objective behind it never gets
  // one, and its quest is never completed.
  lemma {:induction false} RepeatedIdBlocks(w: World, ops: seq<Op>, q: uint32, i: nat, j: nat)
    requires q in w.quests && w.quests[q].state != Completed
    requires i < j < |w.quests[q].objectives| && !w.quests[q].objectives[j].isOptional
    requires FreshObjective(w.quests[q].objectives[j])
    requires w.quests[q].objectives[i].objectiveId == w.quests[q].objectives[j].objectiveId
    ensures History(w, ops, q, j) == []
    ensures After(w, ops).quests[q].state != Completed
  {
    hide Step, Gains;
    if ops != [] {
      var front, op := ops[..|ops| - 1], ops[|ops| - 1];
      RepeatedIdBlocks(w, front, q, i, j);
      var before := After(w, front);
      ObjectiveStays(w, before, q);
      RunGains(w, front, q, j);
      SingleBump(w.quests[q].objectives[j], 0);
      assert SameObjective(w.quests[q].objectives[i], before.quests[q].objectives[i]);
      NoGains(before, op, q, i, j);
      NotCompletable(before, op, q, j);
    }
  }

  lemma NoGains(w: World, op: Op, q: uint32, i: nat, j: nat)
    requires q in w.quests && i < j < |w.quests[q].objectives|
    requires w.quests[q].objectives[i].objectiveId == w.quests[q].objectives[j].objectiveId
    ensures Gains(w, op, q, j) == []
  {
    if op.Fire? {
      NoHits(w.quests[q], op.trigger, i, j, |w.quests[q].objectives|);
      OnesNone();
    }
  }

  lemma {:induction false} NoHits(quest: Quest, t: Trigger, i: nat, j: nat, n: nat)
    requires i < j < |quest.objectives| && n <= |quest.objectives|
    requires quest.objectives[i].objectiveId == quest.objectives[j].objectiveId
    ensures Hits(quest, t, j, n) == 0
    decreases n
  {
    hide Matches;
    if n > 0 {
      NoHits(quest, t, i, j, n - 1);
    }
  }

  lemma NotCompletable(w: World, op: Op, q: uint32, j: nat)
    requires q in w.quests && w.quests[q].state != Completed && j < |w.quests[q].objectives|
    requires !w.quests[q].objectives[j].isOptional && !w.quests[q].objectives[j].isCompleted
    ensures Step(w, op).quests[q].state != Completed
  {
  }

  // ---------- Which quests can be completed ----------

  // No mandatory objective stands behind another one with its id.
  ghost predicate MandatoryReachable(objectives: seq<Objective>) {
    forall i, j :: 0 <= i < j < |objectives| && objectives[i].objectiveId == objectives[j].objectiveId ==>
      objectives[j].isOptional
  }

  lemma ReachableIsFirst(objectives: seq<Objective>, j: nat)
    requires MandatoryReachable(objectives) && j < |objectives| && !objectives[j].isOptional
    ensures FirstWith(objectives, objectives[j].objectiveId) == j
  {
  }

  ghost predicate AllFresh(objectives: seq<Objective>) {
    forall j :: 0 <= j < |objectives| ==> FreshObjective(objectives[j])
  }

  // One update for each mandatory objective among the first n, by all that it asks for.
  function Finishing(objectives: seq<Objective>, q: uint32, n: nat): seq<Op>
    requires n <= |objectives|
  {
    if n == 0 then [] else
    var o := objectives[n - 1];
    Finishing(objectives, q, n - 1) + if o.isOptional then [] else [Update(q, o.objectiveId, o.requiredCount)]
  }

  // The first n objectives are done, as far as mandatory, and the others untouched.
  ghost predicate DoneUpTo(before: seq<Objective>, now: seq<Objective>, n: nat) {
    && |now| == |before|
    && (forall j :: 0 <= j < n && j < |now| && !now[j].isOptional ==> now[j].isCompleted)
    && (forall j :: n <= j < |now| ==> now[j] == before[j])
  }

  lemma FullUpdate(o: Objective)
    requires FreshObjective(o)
    ensures Bumped(o, o.requiredCount).isCompleted
  {
    BumpIsExact(o, o.requiredCount);
  }

  lemma UpdateStep(w: World, q: uint32, id: uint32, progress: uint32)
    requires q in w.quests && w.quests[q].state == InProgress
    ensures var d := Step(w, Update(q, id, progress));
      d.quests[q] == w.quests[q].(objectives := UpdateFirst(w.quests[q].objectives, id, progress))
  {
    hide Bumped;
  }

  lemma NextFinished(w: World, q: uint32, before: seq<Objective>, n: nat)
    requires q in w.quests && w.quests[q].state == InProgress
    requires SameObjectives(before, w.quests[q].objectives) && DoneUpTo(before, w.quests[q].objectives, n)
    requires AllFresh(before) && MandatoryReachable(before) && n < |before| && !before[n].isOptional
    ensures var d := Step(w, Update(q, before[n].objectiveId, before[n].requiredCount));
      d.quests[q].state == InProgress && DoneUpTo(before, d.quests[q].objectives, n + 1)
  {
    hide Bumped, FirstWith, Step;
    UpdateStep(w, q, before[n].objectiveId, before[n].requiredCount);
    ReachableIsFirst(before, n);
    FirstWithKept(before, w.quests[q].objectives, before[n].objectiveId);
    FullUpdate(before[n]);
    StillOptional(before[n], before[n].requiredCount);
  }

  lemma StillOptional(o: Objective, progress: uint32)
    ensures Bumped(o, progress).isOptional == o.isOptional
  {
  }

  // d has the first n objectives of q done.
  ghost predicate Reached(w: World, d: World, q: uint32, n: nat) {
    && q in w.quests && q in d.quests && SameWorld(w, d) && d.quests[q].state == InProgress
    && DoneUpTo(w.quests[q].objectives, d.quests[q].objectives, n)
  }

  lemma ReachNext(w: World, d: World, q: uint32, n: nat)
    requires Reached(w, d, q, n) && n < |w.quests[q].objectives|
    requires AllFresh(w.quests[q].objectives) && MandatoryReachable(w.quests[q].objectives)
    ensures var o := w.quests[q].objectives[n];
      if o.isOptional then Reached(w, d, q, n + 1)
      else Reached(w, Step(d, Update(q, o.objectiveId, o.requiredCount)), q, n + 1)
  {
    hide Step, AllFresh, MandatoryReachable, DoneUpTo, SameWorld;
    var before, now := w.quests[q].objectives, d.quests[q].objectives;
    QuestStays(w, d, q);
    if before[n].isOptional {
      SkipOptional(before, now, n);
    } else {
      var op := Update(q, before[n].objectiveId, before[n].requiredCount);
      NextFinished(d, q, before, n);
      SameWorldTransitive(w, d, Step(d, op));
      QuestStays(w, Step(d, op), q);
    }
  }

  lemma {:induction false} FinishingWorks(w: World, q: uint32, n: nat)
    requires q in w.quests && w.quests[q].state == InProgress && n <= |w.quests[q].objectives|
    requires AllFresh(w.quests[q].objectives) && MandatoryReachable(w.quests[q].objectives)
    ensures Reached(w, After(w, Finishing(w.quests[q].objectives, q, n)), q, n)
    decreases n
  {
    hide Step, AllFresh, MandatoryReachable, Reached, SameWorld;
    var objectives := w.quests[q].objectives;
    if n == 0 {
      NoneDone(w, q);
    } else {
      var front, o := Finishing(objectives, q, n - 1), objectives[n - 1];
      FinishingWorks(w, q, n - 1);
      ReachNext(w, After(w, front), q, n - 1);
      DropNone(front);
      AfterOne(w, front, Update(q, o.objectiveId, o.requiredCount));
    }
  }

  lemma NoneDone(w: World, q: uint32)
    requires q in w.quests && w.quests[q].state == InProgress
    ensures Reached(w, w, q, 0)
  {
  }

  lemma QuestStays(w: World, d: World, q: uint32)
    requires SameWorld(w, d) && q in w.quests
    ensures q in d.quests && SameObjectives(w.quests[q].objectives, d.quests[q].objectives)
    ensures |w.quests[q].objectives| == |d.quests[q].objectives|
  {
  }

  lemma SkipOptional(before: seq<Objective>, now: seq<Objective>, n: nat)
    requires DoneUpTo(before, now, n) && n < |before| && before[n].isOptional
    ensures DoneUpTo(before, now, n + 1)
  {
  }

  lemma AfterOne(w: World, ops: seq<Op>, op: Op)
    ensures After(w, ops + [op]) == Step(After(w, ops), op)
  {
    hide Step;
    assert (ops + [op])[..|ops + [op]| - 1] == ops;
  }

  lemma CompleteStep(w: World, q: uint32, p: uint32, before: seq<Objective>)
    requires q in w.quests && w.quests[q].state == InProgress
    requires DoneUpTo(before, w.quests[q].objectives, |before|)
    ensures Step(w, Complete(q, p)).quests[q].state == Completed
  {
  }

  // Every call of the run is about q.
  ghost predicate OnlyAbout(ops: seq<Op>, q: uint32) {
    forall k :: 0 <= k < |ops| ==> !ops[k].Fire? && ops[k].questId == q
  }

  lemma {:induction false} FinishingNames(objectives: seq<Objective>, q: uint32, n: nat)
    requires n <= |objectives|
    ensures OnlyAbout(Finishing(objectives, q, n), q)
  {
    if n > 0 {
      FinishingNames(objectives, q, n - 1);
    }
  }

  // The run that completes a quest in progress.
  lemma CompletingRun(w: World, q: uint32, p: uint32) returns (ops: seq<Op>)
    requires q in w.quests && w.quests[q].state == InProgress
    requires AllFresh(w.quests[q].objectives) && MandatoryReachable(w.quests[q].objectives)
    ensures After(w, ops).quests[q].state == Completed && OnlyAbout(ops, q)
  {
    hide Step, AllFresh, MandatoryReachable, DoneUpTo, Finishing;
    var objectives := w.quests[q].objectives;
    var updates := Finishing(objectives, q, |objectives|);
    FinishingNames(objectives, q, |objectives|);
    FinishingWorks(w, q, |objectives|);
    CompleteStep(After(w, updates), q, p, objectives);
    AfterOne(w, updates, Complete(q, p));
    ops := updates + [Complete(q, p)];
  }

  // A quest in progress with counters at 0 is completed by some run if and only if no mandatory
  // objective stands behind another one with its id.
  lemma CompletableExactly(w: World, q: uint32)
    requires q in w.quests && w.quests[q].state == InProgress && AllFresh(w.quests[q].objectives)
    ensures (exists ops :: After(w, ops).quests[q].state == Completed)
      <==> MandatoryReachable(w.quests[q].objectives)
  {
    hide After, Step, MandatoryReachable;
    var objectives := w.quests[q].objectives;
    if MandatoryReachable(objectives) {
      var ops := CompletingRun(w, q, 0);
      assert After(w, ops).quests[q].state == Completed;
    } else {
      var i, j := Unreachable(objectives);
      forall ops ensures After(w, ops).quests[q].state != Completed {
        RepeatedIdBlocks(w, ops, q, i, j);
      }
    }
  }

  // The same from before its start, if it can be started.
  lemma StartableCompletable(w: World, q: uint32, p: uint32)
    requires q in w.quests && FreshQuest(w.quests[q]) && Succeeds(w, Start(q, p))
    ensures (exists ops :: After(w, ops).quests[q].state == Completed)
      <==> MandatoryReachable(w.quests[q].objectives)
  {
    hide Step, After, MandatoryReachable;
    var objectives := w.quests[q].objectives;
    if MandatoryReachable(objectives) {
      var d := Step(w, Start(q, p));
      StartStep(w, q, p);
      var rest := CompletingRun(d, q, p);
      AfterFirst(w, Start(q, p), rest);
      assert After(w, [Start(q, p)] + rest).quests[q].state == Completed;
    } else {
      var i, j := Unreachable(objectives);
      forall ops ensures After(w, ops).quests[q].state != Completed {
        RepeatedIdBlocks(w, ops, q, i, j);
      }
    }
  }

  lemma Unreachable(objectives: seq<Objective>) returns (i: nat, j: nat)
    requires !MandatoryReachable(objectives)
    ensures i < j < |objectives| && !objectives[j].isOptional
    ensures objectives[i].objectiveId == objectives[j].objectiveId
  {
    i, j :| i < j < |objectives| && objectives[i].objectiveId == objectives[j].objectiveId && !objectives[j].isOptional;
  }

  lemma StartStep(w: World, q: uint32, p: uint32)
    requires q in w.quests && FreshQuest(w.quests[q]) && Succeeds(w, Start(q, p))
    ensures var d := Step(w, Start(q, p));
      d.quests[q].state == InProgress && d.quests[q].objectives == w.quests[q].objectives && AllFresh(d.quests[q].objectives)
  {
  }

  lemma AfterFirst(w: World, op: Op, rest: seq<Op>)
    ensures After(w, [op] + rest) == After(Step(w, op), rest)
  {
    hide Step;
    AfterAppend(w, [op], rest);
    assert [op][..0] == [];
  }

  lemma {:induction false} AfterAppend(w: World, a: seq<Op>, b: seq<Op>)
    ensures After(w, a + b) == After(After(w, a), b)
    decreases |b|
  {
    hide Step;
    if b == [] {
      DropNone(a);
    } else {
      AfterAppend(w, a, b[..|b| - 1]);
      assert (a + b)[..|a + b| - 1] == a + b[..|b| - 1];
    }
  }

  // Both default quests are of the kind that no run completes.
  lemma DefaultQuestsBlocked(w: World, ops: seq<Op>, q: uint32)
    requires q in w.quests && (w.quests[q] == MAIN_QUEST || w.quests[q] == SIDE_QUEST)
    ensures FreshQuest(w.quests[q]) && !MandatoryReachable(w.quests[q].objectives)
    ensures After(w, ops).quests[q].state != Completed
  {
    hide After;
    assert w.quests[q].objectives[0].objectiveId == w.quests[q].objectives[1].objectiveId;
    RepeatedIdBlocks(w, ops, q, 0, 1);
  }
}
