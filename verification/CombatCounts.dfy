// The scheduler's own counters over a run.
//
//   RunCounts   of accepted actions that were not marked processed before, as many are dispatched
//               as leave their queue by being served
module CombatCounts {
  import opened Words
  import opened CombatModel
  import opened CombatSystem

  // ---------- Unmarked actions ----------

  ghost predicate UnmarkedLane(lane: Lane) {
    forall k :: 0 <= k < |lane.accepted| ==> !lane.accepted[k].processed
  }

  ghost predicate Unmarked(s: System) {
    forall p :: UnmarkedLane(LaneOf(s, p))
  }

  // The actions added by the run are not marked processed.
  predicate FreshOp(op: Op) {
    op.AddOp? ==> !op.a.processed
  }

  lemma {:induction false} UnmarkedCount(q: seq<Action>)
    requires forall k :: 0 <= k < |q| ==> !q[k].processed
    ensures Unprocessed(q) == |q|
  {
    if q != [] {
      UnmarkedCount(q[..|q| - 1]);
    }
  }

  lemma StepUnmarked(s: System, op: Op)
    requires SystemOk(s) && Unmarked(s) && FreshOp(op)
    ensures Unmarked(Step(s, op))
  {
    hide SystemOk, Step, Keep, Accepts;
    forall p ensures UnmarkedLane(LaneOf(Step(s, op), p)) {
      LaneStep(s, op, p);
      assert UnmarkedLane(LaneOf(s, p));
    }
  }

  // ---------- Served and dispatched ----------

  function ServedCount(s: System): nat {
    |s.critical.served| + |s.high.served| + |s.medium.served| + |s.low.served|
  }

  function ExpiredCount(s: System): nat {
    |s.critical.expired| + |s.high.expired| + |s.medium.expired| + |s.low.expired|
  }

  lemma RoundServes(lane: Lane, batchSize: nat, now: int)
    requires TicketsKnown(lane) && UnmarkedLane(lane)
    ensures TicketsKnown(Serve(lane, batchSize))
    ensures |Round(lane, batchSize, now).served| == |lane.served| + DispatchedFrom(lane, batchSize)
  {
    hide Keep;
    var q := Contents(lane);
    ServeContents(lane, batchSize);
    UnmarkedCount(q[..Front(q, batchSize)]);
  }

  // What a call adds to the counter of processed actions.
  ghost function DispatchedBy(s: System, op: Op): nat
    requires SystemOk(s)
  {
    OkIsKnown(s);
    if op.ProcessOp? then Dispatched(s) else 0
  }

  lemma UnmarkedLanes(s: System)
    requires Unmarked(s)
    ensures UnmarkedLane(s.critical) && UnmarkedLane(s.high) && UnmarkedLane(s.medium) && UnmarkedLane(s.low)
  {
    assert LaneOf(s, Critical) == s.critical && LaneOf(s, High) == s.high;
    assert LaneOf(s, Medium) == s.medium && LaneOf(s, Low) == s.low;
  }

  lemma StepServes(s: System, op: Op)
    requires SystemOk(s) && Unmarked(s)
    ensures ServedCount(Step(s, op)) == ServedCount(s) + DispatchedBy(s, op)
  {
    hide SystemOk, Unmarked, Accepts, Round, DispatchedFrom, UnmarkedLane, TicketsKnown;
    OkIsKnown(s);
    KnownLanes(s);
    UnmarkedLanes(s);
    if op.ProcessOp? {
      RoundServes(s.critical, s.batchSize, op.now);
      RoundServes(s.high, s.batchSize, op.now);
      RoundServes(s.medium, s.batchSize, op.now);
      RoundServes(s.low, s.batchSize, op.now);
    }
  }

  // What a run adds to it.
  ghost function DispatchedIn(s: System, ops: seq<Op>): nat
    requires SystemOk(s)
    decreases |ops|
  {
    if ops == [] then 0 else
    StepOk(s, ops[0]);
    DispatchedBy(s, ops[0]) + DispatchedIn(Step(s, ops[0]), ops[1..])
  }

  lemma {:induction false} RunServes(s: System, ops: seq<Op>)
    requires SystemOk(s) && Unmarked(s) && forall k :: 0 <= k < |ops| ==> FreshOp(ops[k])
    ensures ServedCount(Run(s, ops)) == ServedCount(s) + DispatchedIn(s, ops)
    decreases |ops|
  {
    hide SystemOk, Step, Unmarked, ServedCount, DispatchedBy, FreshOp;
    if ops != [] {
      StepOk(s, ops[0]);
      StepServes(s, ops[0]);
      assert FreshOp(ops[0]);
      StepUnmarked(s, ops[0]);
      forall k | 0 <= k < |ops[1..]| ensures FreshOp(ops[1..][k]) {
        assert ops[1..][k] == ops[k + 1];
      }
      RunServes(Step(s, ops[0]), ops[1..]);
    }
  }

  lemma LanesPartition(s: System)
    requires SystemOk(s)
    ensures AcceptedCount(s) == ServedCount(s) + ExpiredCount(s) + TotalQueued(s)
  {
    hide LaneOk;
    forall p ensures |LaneOf(s, p).accepted| == |LaneOf(s, p).served| + |LaneOf(s, p).expired| + |LaneOf(s, p).queued| {
      assert LaneOk(LaneOf(s, p));
      LaneCounts(LaneOf(s, p));
    }
    assert LaneOf(s, Critical) == s.critical && LaneOf(s, High) == s.high;
    assert LaneOf(s, Medium) == s.medium && LaneOf(s, Low) == s.low;
  }

  // Over every run from the initial state: the accepted actions counted in totalActions are those
  // dispatched, those expired and those still queued.
  lemma RunCounts(maxQueueSize: uint32, batchSize: uint32, ops: seq<Op>)
    requires forall k :: 0 <= k < |ops| ==> FreshOp(ops[k])
    ensures SystemOk(Initial(maxQueueSize, batchSize))
    ensures var s := Initial(maxQueueSize, batchSize);
      var t := Run(s, ops);
      AcceptedCount(t) == DispatchedIn(s, ops) + ExpiredCount(t) + TotalQueued(t)
  {
    hide SystemOk, Run, DispatchedIn, AcceptedCount, ExpiredCount, TotalQueued;
    var s := Initial(maxQueueSize, batchSize);
    InitialOk(maxQueueSize, batchSize);
    InitialUnmarked(maxQueueSize, batchSize);
    RunServes(s, ops);
    RunOk(s, ops);
    LanesPartition(Run(s, ops));
  }

  lemma InitialUnmarked(maxQueueSize: uint32, batchSize: uint32)
    ensures Unmarked(Initial(maxQueueSize, batchSize)) && ServedCount(Initial(maxQueueSize, batchSize)) == 0
  {
  }
}
