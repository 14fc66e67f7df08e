// The scheduler object of src/optimization/CombatOptimizer.cpp: four vectors and its counters.
// The ghost field `model` is the history the vectors came from.
module CombatSystem {
  import opened Words
  import opened Seqs
  import opened CombatModel

  // The queue of a lane as actions.
  function Contents(lane: Lane): seq<Action>
    requires TicketsKnown(lane)
  {
    seq(|lane.queued|, k requires 0 <= k < |lane.queued| => lane.accepted[lane.queued[k]])
  }

  // The number of accepted actions over all lanes.
  function AcceptedCount(s: System): nat {
    |s.critical.accepted| + |s.high.accepted| + |s.medium.accepted| + |s.low.accepted|
  }

  // Actions handed to ProcessAction: those not marked processed when they were added.
  function Unprocessed(actions: seq<Action>): nat {
    if actions == [] then 0 else Unprocessed(actions[..|actions| - 1]) + if actions[|actions| - 1].processed then 0 else 1
  }

  function Fresh(actions: seq<Action>, now: int): seq<Action> {
    if actions == [] then [] else
    Fresh(actions[..|actions| - 1], now) + if TooOld(actions[|actions| - 1], now) then [] else [actions[|actions| - 1]]
  }

  lemma EnqueueContents(lane: Lane, a: Action)
    requires TicketsKnown(lane)
    ensures TicketsKnown(Enqueue(lane, a)) && Contents(Enqueue(lane, a)) == Contents(lane) + [a]
  {
  }

  lemma ContentsLength(lane: Lane)
    requires TicketsKnown(lane)
    ensures |Contents(lane)| == |lane.queued|
  {
  }

  lemma AddStep(s: System, a: Action)
    requires SystemOk(s)
    ensures var t := Add(s, a); SystemOk(t) && AllKnown(t) && t.maxQueueSize == s.maxQueueSize && t.batchSize == s.batchSize
  {
    hide SystemOk, Add, AllKnown;
    StepOk(s, AddOp(a));
    OkIsKnown(Step(s, AddOp(a)));
  }

  lemma ProcessStep(s: System, now: int)
    requires SystemOk(s) && AllKnown(s)
    ensures var t := Process(s, now);
      && SystemOk(t) && AllKnown(t) && t.maxQueueSize == s.maxQueueSize && t.batchSize == s.batchSize
      && AcceptedCount(t) == AcceptedCount(s) && t.dropped == s.dropped
      && t.critical == Round(s.critical, s.batchSize, now) && t.high == Round(s.high, s.batchSize, now)
      && t.medium == Round(s.medium, s.batchSize, now) && t.low == Round(s.low, s.batchSize, now)
  {
    hide SystemOk, AllKnown, Keep;
    StepOk(s, ProcessOp(now));
    OkIsKnown(Step(s, ProcessOp(now)));
  }

  // Adding appends to the queue of the action's priority, if anywhere.
  lemma AddContents(s: System, a: Action)
    requires AllKnown(s)
    ensures var t, p, ok := Add(s, a), a.priority, Accepts(s, a);
      && AllKnown(t)
      && Contents(t.critical) == Contents(s.critical) + (if ok && p == Critical then [a] else [])
      && Contents(t.high) == Contents(s.high) + (if ok && p == High then [a] else [])
      && Contents(t.medium) == Contents(s.medium) + (if ok && p == Medium then [a] else [])
      && Contents(t.low) == Contents(s.low) + (if ok && p == Low then [a] else [])
      && AcceptedCount(t) == AcceptedCount(s) + (if ok then 1 else 0)
      && t.dropped == s.dropped + (if ok then 0 else 1)
  {
    hide Accepts, Contents;
    EnqueueContents(LaneOf(s, a.priority), a);
    DropNone(Contents(s.critical));
    DropNone(Contents(s.high));
    DropNone(Contents(s.medium));
    DropNone(Contents(s.low));
  }

  lemma ServeContents(lane: Lane, batchSize: nat)
    requires TicketsKnown(lane)
    ensures TicketsKnown(Serve(lane, batchSize))
    ensures Contents(Serve(lane, batchSize)) == Contents(lane)[Batch(lane, batchSize)..]
  {
  }

  lemma {:induction false} FreshConcat(a: seq<Action>, b: seq<Action>, now: int)
    ensures Fresh(a + b, now) == Fresh(a, now) + Fresh(b, now)
    decreases |b|
  {
    if b == [] {
      DropNone(a);
      DropNone(Fresh(a, now));
    } else {
      var rest, last := b[..|b| - 1], b[|b| - 1];
      assert (a + b)[..|a + b| - 1] == a + rest;
      FreshConcat(a, rest, now);
      Assoc(Fresh(a, now), Fresh(rest, now), if TooOld(last, now) then [] else [last]);
    }
  }

  function ActionsAt(accepted: seq<Action>, q: seq<nat>): seq<Action>
    requires forall k :: 0 <= k < |q| ==> q[k] < |accepted|
  {
    seq(|q|, k requires 0 <= k < |q| => accepted[q[k]])
  }

  lemma FreshOne(a: Action, now: int)
    ensures Fresh([a], now) == if TooOld(a, now) then [] else [a]
  {
    hide TooOld;
    assert [a][..0] == [];
  }

  lemma FreshCons(a: Action, rest: seq<Action>, now: int)
    ensures Fresh([a] + rest, now) == (if TooOld(a, now) then [] else [a]) + Fresh(rest, now)
  {
    hide Fresh, TooOld;
    FreshConcat([a], rest, now);
    FreshOne(a, now);
  }

  lemma ActionsCons(accepted: seq<Action>, t: nat, q: seq<nat>)
    requires t < |accepted| && forall k :: 0 <= k < |q| ==> q[k] < |accepted|
    ensures ActionsAt(accepted, [t] + q) == [accepted[t]] + ActionsAt(accepted, q)
  {
  }

  lemma KeepKnown(q: seq<nat>, accepted: seq<Action>, now: int)
    requires forall k :: 0 <= k < |q| ==> q[k] < |accepted|
    ensures forall k :: 0 <= k < |Keep(q, accepted, now)| ==> Keep(q, accepted, now)[k] < |accepted|
  {
    hide TooOld;
    if q != [] {
      KeepKnown(q[1..], accepted, now);
    }
  }

  lemma {:induction false} KeepIsFresh(q: seq<nat>, accepted: seq<Action>, now: int)
    requires forall k :: 0 <= k < |q| ==> q[k] < |accepted|
    ensures forall k :: 0 <= k < |Keep(q, accepted, now)| ==> Keep(q, accepted, now)[k] < |accepted|
    ensures ActionsAt(accepted, Keep(q, accepted, now)) == Fresh(ActionsAt(accepted, q), now)
  {
    KeepKnown(q, accepted, now);
    if q == [] {
      assert ActionsAt(accepted, q) == [];
    } else {
      hide Keep, Fresh, TooOld, ActionsAt;
      var rest := Keep(q[1..], accepted, now);
      KeepIsFresh(q[1..], accepted, now);
      KeepStep(q, accepted, now);
      assert q == [q[0]] + q[1..];
      ActionsCons(accepted, q[0], q[1..]);
      ActionsCons(accepted, q[0], rest);
      FreshCons(accepted[q[0]], ActionsAt(accepted, q[1..]), now);
      DropNone(rest);
      DropNone(ActionsAt(accepted, rest));
    }
  }

  lemma ExpireContents(lane: Lane, now: int)
    requires TicketsKnown(lane)
    ensures TicketsKnown(Expire(lane, now)) && Contents(Expire(lane, now)) == Fresh(Contents(lane), now)
  {
    hide Keep, Fresh;
    KeepIsFresh(lane.queued, lane.accepted, now);
    assert Contents(lane) == ActionsAt(lane.accepted, lane.queued);
    assert Contents(Expire(lane, now)) == ActionsAt(lane.accepted, Keep(lane.queued, lane.accepted, now));
  }

  // The length of a batch.
  function Front(queue: seq<Action>, batchSize: nat): (n: nat)
    ensures n <= |queue|
  {
    if |queue| < batchSize then |queue| else batchSize
  }

  // Actions one round hands to ProcessAction.
  function Dispatched(s: System): nat
    requires AllKnown(s)
  {
    DispatchedFrom(s.critical, s.batchSize) + DispatchedFrom(s.high, s.batchSize)
      + DispatchedFrom(s.medium, s.batchSize) + DispatchedFrom(s.low, s.batchSize)
  }

  function DispatchedFrom(lane: Lane, batchSize: nat): nat
    requires TicketsKnown(lane)
  {
    Unprocessed(Contents(lane)[..Front(Contents(lane), batchSize)])
  }

  lemma RoundContents(lane: Lane, batchSize: nat, now: int)
    requires TicketsKnown(lane)
    ensures TicketsKnown(Round(lane, batchSize, now))
    ensures Contents(Round(lane, batchSize, now)) == Fresh(Contents(lane)[Front(Contents(lane), batchSize)..], now)
  {
    hide Keep, Fresh;
    ServeContents(lane, batchSize);
    ExpireContents(Serve(lane, batchSize), now);
  }

  lemma KnownLanes(s: System)
    requires AllKnown(s)
    ensures TicketsKnown(s.critical) && TicketsKnown(s.high) && TicketsKnown(s.medium) && TicketsKnown(s.low)
  {
  }

  lemma ProcessContents(s: System, now: int)
    requires SystemOk(s) && AllKnown(s)
    ensures var t, n := Process(s, now), s.batchSize;
      && AllKnown(t)
      && Contents(t.critical) == Fresh(Contents(s.critical)[Front(Contents(s.critical), n)..], now)
      && Contents(t.high) == Fresh(Contents(s.high)[Front(Contents(s.high), n)..], now)
      && Contents(t.medium) == Fresh(Contents(s.medium)[Front(Contents(s.medium), n)..], now)
      && Contents(t.low) == Fresh(Contents(s.low)[Front(Contents(s.low), n)..], now)
  {
    hide SystemOk, Fresh, Contents, Round, AcceptedCount, Process, TicketsKnown, Front;
    ProcessStep(s, now);
    RoundContents(s.critical, s.batchSize, now);
    RoundContents(s.high, s.batchSize, now);
    RoundContents(s.medium, s.batchSize, now);
    RoundContents(s.low, s.batchSize, now);
  }

  lemma DispatchedIs(s: System)
    requires AllKnown(s)
    ensures Dispatched(s) ==
      Unprocessed(Contents(s.critical)[..Front(Contents(s.critical), s.batchSize)])
      + Unprocessed(Contents(s.high)[..Front(Contents(s.high), s.batchSize)])
      + Unprocessed(Contents(s.medium)[..Front(Contents(s.medium), s.batchSize)])
      + Unprocessed(Contents(s.low)[..Front(Contents(s.low), s.batchSize)])
  {
    hide Unprocessed, Contents, Front;
  }

  class CombatOptimizer {
    var criticalQueue: seq<Action>
    var highQueue: seq<Action>
    var mediumQueue: seq<Action>
    var lowQueue: seq<Action>
    var initialized: bool
    var maxQueueSize: uint32
    var batchSize: uint32
    var totalActions: nat
    var processedActions: nat
    var droppedActions: nat
    ghost var model: System

    ghost predicate Valid()
      reads this
    {
      && SystemOk(model) && AllKnown(model)
      && criticalQueue == Contents(model.critical)
      && highQueue == Contents(model.high)
      && mediumQueue == Contents(model.medium)
      && lowQueue == Contents(model.low)
      && maxQueueSize == model.maxQueueSize && batchSize == model.batchSize
      && totalActions == AcceptedCount(model) && droppedActions == model.dropped
      && (!initialized ==> model == Initial(maxQueueSize, batchSize))
    }

    constructor ()
      ensures Valid() && !initialized && processedActions == 0
    {
      criticalQueue, highQueue, mediumQueue, lowQueue := [], [], [], [];
      initialized := false;
      maxQueueSize, batchSize := 1000, 50;
      totalActions, processedActions, droppedActions := 0, 0, 0;
      model := Initial(1000, 50);
      new;
      InitialOk(1000, 50);
    }

    // A second call changes nothing.
    method Initialize(maxQueueSize: uint32, batchSize: uint32) returns (ok: bool)
      requires Valid()
      modifies this
      ensures Valid() && ok && initialized && processedActions == old(processedActions)
      ensures model == if old(initialized) then old(model) else Initial(maxQueueSize, batchSize)
    {
      hide SystemOk;
      if initialized {
        return true;
      }
      this.maxQueueSize := maxQueueSize;
      this.batchSize := batchSize;
      initialized := true;
      model := Initial(maxQueueSize, batchSize);
      InitialOk(maxQueueSize, batchSize);
      return true;
    }

    function GetTotalQueueSize(): nat
      reads this
    {
      |criticalQueue| + |highQueue| + |mediumQueue| + |lowQueue|
    }

    method ShouldDropAction(priority: Priority) returns (drop: bool)
      requires Valid()
      ensures drop <==> ShouldDrop(model, priority)
    {
      var totalSize := GetTotalQueueSize();
      if priority == Low && 5 * totalSize > 4 * maxQueueSize {
        return true;
      }
      if priority == Medium && 10 * totalSize > 9 * maxQueueSize {
        return true;
      }
      return false;
    }

    method AddAction(action: Action) returns (ok: bool)
      requires Valid()
      modifies this
      ensures Valid() && initialized == old(initialized) && processedActions == old(processedActions)
      ensures !initialized ==> !ok && model == old(model)
      ensures initialized ==> model == Add(old(model), action) && (ok <==> Accepts(old(model), action))
    {
      hide SystemOk, Contents, AcceptedCount, Add, TicketsKnown, Initial;
      if !initialized {
        return false;
      }
      AddStep(model, action);
      AddContents(model, action);
      ContentsLength(model.critical);
      ContentsLength(model.high);
      ContentsLength(model.medium);
      ContentsLength(model.low);
      var drop := ShouldDropAction(action.priority);
      ok := !drop;
      if ok {
        match action.priority
        case Critical =>
          ok := |criticalQueue| < maxQueueSize / 4;
          if ok { criticalQueue := criticalQueue + [action]; }
        case High =>
          ok := |highQueue| < maxQueueSize / 4;
          if ok { highQueue := highQueue + [action]; }
        case Medium =>
          ok := |mediumQueue| < maxQueueSize / 2;
          if ok { mediumQueue := mediumQueue + [action]; }
        case Low =>
          ok := |lowQueue| < maxQueueSize / 4;
          if ok { lowQueue := lowQueue + [action]; }
      }
      if ok {
        totalActions := totalActions + 1;
      } else {
        droppedActions := droppedActions + 1;
      }
      model := Add(model, action);
    }

    // One queue's batch; `count` is the counter of processed actions before it.
    method ProcessActionQueue(queue: seq<Action>, count: nat) returns (rest: seq<Action>, processed: nat)
      ensures var n := Front(queue, batchSize);
        rest == queue[n..] && processed == count + Unprocessed(queue[..n])
    {
      if queue == [] {
        return queue, count;
      }
      var size := if batchSize < |queue| then batchSize else |queue|;
      processed := count;
      for i := 0 to size
        invariant processed == count + Unprocessed(queue[..i])
      {
        assert queue[..i + 1][..i] == queue[..i];
        if !queue[i].processed {
          processed := processed + 1;
        }
      }
      rest := queue[size..];
    }

    method CleanupQueue(queue: seq<Action>, now: int) returns (kept: seq<Action>)
      ensures kept == Fresh(queue, now)
    {
      kept := [];
      for i := 0 to |queue|
        invariant kept == Fresh(queue[..i], now)
      {
        assert queue[..i + 1][..i] == queue[..i];
        if !(now - queue[i].timestamp > MAX_AGE) {
          kept := kept + [queue[i]];
        }
      }
      assert queue[..|queue|] == queue;
    }

    method ProcessActions(now: int) returns (ok: bool)
      requires Valid()
      modifies this
      ensures Valid() && initialized == old(initialized)
      ensures ok <==> old(initialized)
      ensures !ok ==> model == old(model) && processedActions == old(processedActions)
      ensures ok ==> model == Process(old(model), now)
      ensures ok ==> processedActions == old(processedActions) + Dispatched(old(model))
    {
      hide SystemOk, AllKnown, Fresh, Unprocessed, Contents, AcceptedCount, Process, Dispatched, TicketsKnown, Front,
           Round, Initial;
      if !initialized {
        return false;
      }
      KnownLanes(model);
      ProcessStep(model, now);
      KnownLanes(Process(model, now));
      ProcessContents(model, now);
      DispatchedIs(model);
      var critical, high, medium, low;
      var processed := processedActions;
      critical, processed := ProcessActionQueue(criticalQueue, processed);
      high, processed := ProcessActionQueue(highQueue, processed);
      medium, processed := ProcessActionQueue(mediumQueue, processed);
      low, processed := ProcessActionQueue(lowQueue, processed);
      critical := CleanupQueue(critical, now);
      high := CleanupQueue(high, now);
      medium := CleanupQueue(medium, now);
      low := CleanupQueue(low, now);
      ghost var next := Process(model, now);
      criticalQueue, highQueue, mediumQueue, lowQueue := critical, high, medium, low;
      processedActions := processed;
      model := next;
      ok := true;
    }
  }
}
