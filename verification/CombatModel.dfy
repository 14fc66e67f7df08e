// The combat action scheduler of src/optimization/CombatOptimizer.cpp as a transition system.
//
// Each priority has a lane. A lane numbers the actions it accepted 0, 1, 2, ..; its queue, what
// it served and what it let expire are given by those numbers (tickets).
//
//   RunKeepsLanes       served, expired and queued tickets partition the accepted ones; tickets
//                       are served in increasing order and before everything still queued;
//                       the queue bounds hold
//   WaitBound           an action at index k is out of its queue after k / batchSize + 1
//                       rounds, whatever is added in between
//   RunKeepsSuffix      with non-decreasing timestamps a queue is a suffix of its history
module CombatModel {
  import opened Words
  import opened Seqs
  import opened Arith

  datatype Priority = Critical | High | Medium | Low

  datatype ActionType = Attack | Defense | Sign | Movement | Animation

  // timestamp in ticks of the steady clock; the payload of the action is not part of this model.
  datatype Action = Action(id: uint32, playerId: uint32, kind: ActionType, priority: Priority,
                           timestamp: int, processed: bool)

  // Five seconds in ticks of a nanosecond.
  const MAX_AGE: int := 5_000_000_000

  datatype Lane = Lane(accepted: seq<Action>, queued: seq<nat>, served: seq<nat>, expired: set<nat>)

  datatype System = System(critical: Lane, high: Lane, medium: Lane, low: Lane,
                           maxQueueSize: uint32, batchSize: uint32, offered: nat, dropped: nat)

  function LaneOf(s: System, p: Priority): Lane {
    match p
    case Critical => s.critical
    case High => s.high
    case Medium => s.medium
    case Low => s.low
  }

  function SetLane(s: System, p: Priority, lane: Lane): System {
    match p
    case Critical => s.(critical := lane)
    case High => s.(high := lane)
    case Medium => s.(medium := lane)
    case Low => s.(low := lane)
  }

  // ---------- Adding ----------

  function Cap(p: Priority, maxQueueSize: uint32): nat {
    if p == Medium then maxQueueSize / 2 else maxQueueSize / 4
  }

  function TotalQueued(s: System): nat {
    |s.critical.queued| + |s.high.queued| + |s.medium.queued| + |s.low.queued|
  }

  // total > 0.8 max and total > 0.9 max, over the integers.
  predicate ShouldDrop(s: System, p: Priority) {
    || (p == Low && 5 * TotalQueued(s) > 4 * s.maxQueueSize)
    || (p == Medium && 10 * TotalQueued(s) > 9 * s.maxQueueSize)
  }

  predicate Accepts(s: System, a: Action) {
    !ShouldDrop(s, a.priority) && |LaneOf(s, a.priority).queued| < Cap(a.priority, s.maxQueueSize)
  }

  function Enqueue(lane: Lane, a: Action): Lane {
    lane.(accepted := lane.accepted + [a], queued := lane.queued + [|lane.accepted|])
  }

  function Add(s: System, a: Action): System {
    if Accepts(s, a)
    then SetLane(s, a.priority, Enqueue(LaneOf(s, a.priority), a)).(offered := s.offered + 1)
    else s.(offered := s.offered + 1, dropped := s.dropped + 1)
  }

  // ---------- Processing ----------

  predicate TooOld(a: Action, now: int) {
    now - a.timestamp > MAX_AGE
  }

  function Batch(lane: Lane, batchSize: nat): nat {
    if |lane.queued| < batchSize then |lane.queued| else batchSize
  }

  function Serve(lane: Lane, batchSize: nat): Lane {
    var n := Batch(lane, batchSize);
    lane.(queued := lane.queued[n..], served := lane.served + lane.queued[..n])
  }

  // The tickets among q whose actions are not too old.
  function Keep(q: seq<nat>, accepted: seq<Action>, now: int): seq<nat>
    requires forall k :: 0 <= k < |q| ==> q[k] < |accepted|
  {
    if q == [] then [] else
    (if TooOld(accepted[q[0]], now) then [] else [q[0]]) + Keep(q[1..], accepted, now)
  }

  predicate TicketsKnown(lane: Lane) {
    forall k :: 0 <= k < |lane.queued| ==> lane.queued[k] < |lane.accepted|
  }

  function Expire(lane: Lane, now: int): Lane
    requires TicketsKnown(lane)
  {
    var kept := Keep(lane.queued, lane.accepted, now);
    lane.(queued := kept, expired := lane.expired + (set t | t in lane.queued && t !in kept))
  }

  function Round(lane: Lane, batchSize: nat, now: int): Lane
    requires TicketsKnown(lane)
  {
    Expire(Serve(lane, batchSize), now)
  }

  predicate AllKnown(s: System) {
    TicketsKnown(s.critical) && TicketsKnown(s.high) && TicketsKnown(s.medium) && TicketsKnown(s.low)
  }

  function Process(s: System, now: int): System
    requires AllKnown(s)
  {
    s.(critical := Round(s.critical, s.batchSize, now), high := Round(s.high, s.batchSize, now),
       medium := Round(s.medium, s.batchSize, now), low := Round(s.low, s.batchSize, now))
  }

  // ---------- What a lane keeps ----------

  ghost predicate Increasing(q: seq<nat>) {
    forall a, b :: 0 <= a < b < |q| ==> q[a] < q[b]
  }

  // Served and queued tickets are in order, all served before all queued; served, expired and
  // queued tickets are disjoint and together exactly those given out.
  ghost predicate LaneOk(lane: Lane) {
    && Increasing(lane.served) && Increasing(lane.queued)
    && (forall a, b :: 0 <= a < |lane.served| && 0 <= b < |lane.queued| ==> lane.served[a] < lane.queued[b])
    && (forall t: nat :: t < |lane.accepted| <==> t in lane.served || t in lane.queued || t in lane.expired)
    && (forall t :: t in lane.expired ==> t !in lane.served && t !in lane.queued)
  }

  lemma EnqueueOk(lane: Lane, a: Action)
    requires LaneOk(lane)
    ensures LaneOk(Enqueue(lane, a))
  {
    var next := Enqueue(lane, a);
    var n := |lane.accepted|;
    assert forall k :: 0 <= k < |lane.queued| ==> lane.queued[k] in lane.queued;
    assert forall k :: 0 <= k < |lane.served| ==> lane.served[k] in lane.served;
    assert next.queued[|lane.queued|] == n;
    forall t: nat
      ensures t < n + 1 <==> t in next.served || t in next.queued || t in next.expired
    {
      assert t in next.queued <==> t in lane.queued || t == n;
    }
  }

  lemma ServeOk(lane: Lane, batchSize: nat)
    requires LaneOk(lane)
    ensures LaneOk(Serve(lane, batchSize))
  {
    var n := Batch(lane, batchSize);
    var next := Serve(lane, batchSize);
    SplitAt(lane.queued, n);
    forall t: nat
      ensures t in next.served || t in next.queued <==> t in lane.served || t in lane.queued
    {
      assert t in lane.queued <==> t in lane.queued[..n] || t in lane.queued[n..];
    }
  }

  // t stands in q at index k or before.
  ghost predicate AtMost(q: seq<nat>, t: nat, k: int) {
    exists j :: 0 <= j <= k && j < |q| && q[j] == t
  }

  // Keep picks a subsequence: exactly the tickets that are not too old, none later than it was.
  lemma {:induction false} KeepPicks(q: seq<nat>, accepted: seq<Action>, now: int)
    requires forall k :: 0 <= k < |q| ==> q[k] < |accepted|
    ensures var r := Keep(q, accepted, now);
      && |r| <= |q|
      && (forall t :: t in r <==> t in q && !TooOld(accepted[t], now))
      && (forall k :: 0 <= k < |q| && !TooOld(accepted[q[k]], now) ==> AtMost(r, q[k], k))
  {
    var r := Keep(q, accepted, now);
    if q != [] {
      KeepPicks(q[1..], accepted, now);
      var rest := Keep(q[1..], accepted, now);
      var head := r[..|r| - |rest|];
      assert r == head + rest;
      forall k | 0 <= k < |q| && !TooOld(accepted[q[k]], now)
        ensures AtMost(r, q[k], k)
      {
        if k == 0 {
          assert r[0] == q[0];
        } else {
          assert q[1..][k - 1] == q[k];
          assert AtMost(rest, q[k], k - 1);
          var j :| 0 <= j <= k - 1 && j < |rest| && rest[j] == q[k];
          assert r[|head| + j] == rest[j];
        }
      }
    }
  }

  lemma {:induction false} KeepIncreasing(q: seq<nat>, accepted: seq<Action>, now: int)
    requires forall k :: 0 <= k < |q| ==> q[k] < |accepted|
    requires Increasing(q)
    ensures Increasing(Keep(q, accepted, now))
  {
    if q != [] {
      KeepIncreasing(q[1..], accepted, now);
      KeepPicks(q[1..], accepted, now);
      var rest := Keep(q[1..], accepted, now);
      forall j | 0 <= j < |rest| ensures q[0] < rest[j] {
        assert rest[j] in q[1..];
      }
    }
  }

  lemma ExpireOk(lane: Lane, now: int)
    requires LaneOk(lane) && TicketsKnown(lane)
    ensures LaneOk(Expire(lane, now))
  {
    hide Keep;
    var kept := Keep(lane.queued, lane.accepted, now);
    var next := Expire(lane, now);
    KeepPicks(lane.queued, lane.accepted, now);
    KeepIncreasing(lane.queued, lane.accepted, now);
    forall a, b | 0 <= a < |lane.served| && 0 <= b < |kept| ensures lane.served[a] < kept[b] {
      assert kept[b] in lane.queued;
    }
  }

  lemma KnownTickets(lane: Lane)
    requires LaneOk(lane)
    ensures TicketsKnown(lane)
  {
    forall k | 0 <= k < |lane.queued| ensures lane.queued[k] < |lane.accepted| {
      assert lane.queued[k] in lane.queued;
    }
  }

  lemma RoundOk(lane: Lane, batchSize: nat, now: int)
    requires LaneOk(lane)
    ensures TicketsKnown(lane) && LaneOk(Round(lane, batchSize, now))
    ensures |Round(lane, batchSize, now).queued| <= |lane.queued|
    ensures Round(lane, batchSize, now).accepted == lane.accepted
  {
    hide LaneOk, Keep;
    KnownTickets(lane);
    ServeOk(lane, batchSize);
    var served := Serve(lane, batchSize);
    KnownTickets(served);
    ExpireOk(served, now);
    KeepPicks(served.queued, served.accepted, now);
  }

  // Distinct tickets below a bound can be counted: nothing is lost or served twice.
  lemma LaneCounts(lane: Lane)
    requires LaneOk(lane)
    ensures |lane.accepted| == |lane.served| + |lane.expired| + |lane.queued|
  {
    IncreasingCount(lane.served);
    IncreasingCount(lane.queued);
    BelowCount(|lane.accepted|);
    LaneSets(lane);
  }

  lemma LaneSets(lane: Lane)
    requires LaneOk(lane)
    ensures Below(|lane.accepted|) == Elements(lane.served) + lane.expired + Elements(lane.queued)
    ensures Elements(lane.served) !! lane.expired && Elements(lane.served) + lane.expired !! Elements(lane.queued)
  {
    hide Below, Elements;
    BelowCount(|lane.accepted|);
    ElementsAre(lane.served);
    ElementsAre(lane.queued);
    forall t | t in lane.served ensures t !in lane.queued {
      var a :| 0 <= a < |lane.served| && lane.served[a] == t;
      assert forall b :: 0 <= b < |lane.queued| ==> lane.served[a] < lane.queued[b];
    }
  }

  // The elements of a sequence and the numbers below n, as sets.
  function Elements(q: seq<nat>): set<nat> {
    if q == [] then {} else Elements(q[..|q| - 1]) + {q[|q| - 1]}
  }

  function Below(n: nat): set<nat> {
    if n == 0 then {} else Below(n - 1) + {n - 1}
  }

  lemma {:induction false} ElementsAre(q: seq<nat>)
    ensures forall t: nat :: t in Elements(q) <==> t in q
  {
    if q != [] {
      ElementsAre(q[..|q| - 1]);
      SplitAt(q, |q| - 1);
    }
  }

  lemma {:induction false} IncreasingCount(q: seq<nat>)
    requires Increasing(q)
    ensures |Elements(q)| == |q|
  {
    if q != [] {
      var rest := q[..|q| - 1];
      IncreasingCount(rest);
      ElementsAre(rest);
      assert q[|q| - 1] !in Elements(rest);
    }
  }

  lemma {:induction false} BelowCount(n: nat)
    ensures |Below(n)| == n && forall t: nat :: t in Below(n) <==> t < n
  {
    if n > 0 {
      BelowCount(n - 1);
    }
  }

  // ---------- Runs ----------

  datatype Op = AddOp(a: Action) | ProcessOp(now: int)

  ghost predicate SystemOk(s: System) {
    && (forall p :: LaneOk(LaneOf(s, p)))
    && (forall p :: |LaneOf(s, p).queued| <= Cap(p, s.maxQueueSize))
    && s.offered == |s.critical.accepted| + |s.high.accepted| + |s.medium.accepted| + |s.low.accepted| + s.dropped
  }

  lemma OkIsKnown(s: System)
    requires SystemOk(s)
    ensures AllKnown(s)
  {
    hide LaneOk;
    assert LaneOf(s, Critical) == s.critical && LaneOf(s, High) == s.high;
    assert LaneOf(s, Medium) == s.medium && LaneOf(s, Low) == s.low;
    KnownTickets(s.critical);
    KnownTickets(s.high);
    KnownTickets(s.medium);
    KnownTickets(s.low);
  }

  ghost function Step(s: System, op: Op): System
    requires SystemOk(s)
  {
    OkIsKnown(s);
    match op
    case AddOp(a) => Add(s, a)
    case ProcessOp(now) => Process(s, now)
  }

  // Each step acts on a lane as an enqueue, a round, or not at all.
  lemma LaneStep(s: System, op: Op, p: Priority)
    requires SystemOk(s)
    ensures var lane, next := LaneOf(s, p), LaneOf(Step(s, op), p);
      && TicketsKnown(lane)
      && (op.ProcessOp? ==> next == Round(lane, s.batchSize, op.now))
      && (op.AddOp? && (op.a.priority != p || !Accepts(s, op.a)) ==> next == lane)
      && (op.AddOp? && op.a.priority == p && Accepts(s, op.a) ==> next == Enqueue(lane, op.a))
  {
    hide LaneOk, Round, Accepts;
    OkIsKnown(s);
    assert LaneOk(LaneOf(s, p));
    KnownTickets(LaneOf(s, p));
  }

  lemma StepOk(s: System, op: Op)
    requires SystemOk(s)
    ensures SystemOk(Step(s, op))
    ensures Step(s, op).maxQueueSize == s.maxQueueSize && Step(s, op).batchSize == s.batchSize
  {
    hide LaneOk, Round, ShouldDrop;
    var t := Step(s, op);
    forall p ensures LaneOk(LaneOf(t, p)) && |LaneOf(t, p).queued| <= Cap(p, s.maxQueueSize) {
      LaneStep(s, op, p);
      var lane := LaneOf(s, p);
      assert LaneOk(lane) && |lane.queued| <= Cap(p, s.maxQueueSize);
      match op
      case AddOp(a) => EnqueueOk(lane, a);
      case ProcessOp(now) => RoundOk(lane, s.batchSize, now);
    }
    StepCounts(s, op);
  }

  lemma StepCounts(s: System, op: Op)
    requires SystemOk(s)
    ensures var t := Step(s, op);
      t.offered == |t.critical.accepted| + |t.high.accepted| + |t.medium.accepted| + |t.low.accepted| + t.dropped
  {
    hide LaneOk, Round, ShouldDrop;
    OkIsKnown(s);
    assert LaneOf(s, Critical) == s.critical && LaneOf(s, High) == s.high;
    assert LaneOf(s, Medium) == s.medium && LaneOf(s, Low) == s.low;
    if op.ProcessOp? {
      RoundOk(s.critical, s.batchSize, op.now);
      RoundOk(s.high, s.batchSize, op.now);
      RoundOk(s.medium, s.batchSize, op.now);
      RoundOk(s.low, s.batchSize, op.now);
    }
  }

  ghost function Run(s: System, ops: seq<Op>): System
    requires SystemOk(s)
    decreases |ops|
  {
    if ops == [] then s else
    StepOk(s, ops[0]);
    Run(Step(s, ops[0]), ops[1..])
  }

  lemma {:induction false} RunOk(s: System, ops: seq<Op>)
    requires SystemOk(s)
    ensures SystemOk(Run(s, ops))
    ensures Run(s, ops).maxQueueSize == s.maxQueueSize && Run(s, ops).batchSize == s.batchSize
    decreases |ops|
  {
    hide SystemOk, Step;
    if ops != [] {
      StepOk(s, ops[0]);
      RunOk(Step(s, ops[0]), ops[1..]);
    }
  }

  function Initial(maxQueueSize: uint32, batchSize: uint32): System {
    var empty := Lane([], [], [], {});
    System(empty, empty, empty, empty, maxQueueSize, batchSize, 0, 0)
  }

  lemma InitialOk(maxQueueSize: uint32, batchSize: uint32)
    ensures SystemOk(Initial(maxQueueSize, batchSize))
  {
    forall p ensures LaneOk(LaneOf(Initial(maxQueueSize, batchSize), p)) {
    }
  }

  // Conservation, single service and order, from the initial or any other sound state on.
  lemma RunKeepsLanes(s: System, ops: seq<Op>, p: Priority)
    requires SystemOk(s)
    ensures var t := Run(s, ops);
      var lane := LaneOf(t, p);
      && LaneOk(lane)
      && |lane.accepted| == |lane.served| + |lane.expired| + |lane.queued|
      && |lane.queued| <= Cap(p, s.maxQueueSize)
      && t.offered == |t.critical.accepted| + |t.high.accepted| + |t.medium.accepted| + |t.low.accepted| + t.dropped
  {
    hide Run, LaneOk;
    var t := Run(s, ops);
    RunOk(s, ops);
    assert LaneOk(LaneOf(t, p)) && |LaneOf(t, p).queued| <= Cap(p, t.maxQueueSize);
    LaneCounts(LaneOf(t, p));
  }

  // ---------- Waiting ----------

  ghost predicate Waiting(lane: Lane, t: nat) {
    t in lane.queued
  }

  ghost predicate WaitsAt(lane: Lane, t: nat, k: nat) {
    AtMost(lane.queued, t, k)
  }

  lemma ServeAdvances(q: seq<nat>, n: nat, t: nat, k: nat)
    requires n <= |q| && Increasing(q) && AtMost(q, t, k)
    ensures t in q[n..] ==> k >= n && AtMost(q[n..], t, k - n)
  {
    var j :| 0 <= j <= k && j < |q| && q[j] == t;
    assert j >= n ==> q[n..][j - n] == t;
  }

  lemma KeepAdvances(q: seq<nat>, accepted: seq<Action>, now: int, t: nat, k: nat)
    requires forall i :: 0 <= i < |q| ==> q[i] < |accepted|
    requires AtMost(q, t, k)
    ensures t in Keep(q, accepted, now) ==> AtMost(Keep(q, accepted, now), t, k)
  {
    hide Keep;
    KeepPicks(q, accepted, now);
    var j :| 0 <= j <= k && j < |q| && q[j] == t;
  }

  // A round moves a ticket up by the batch size, or out.
  lemma RoundAdvances(lane: Lane, batchSize: nat, now: int, t: nat, k: nat)
    requires LaneOk(lane) && TicketsKnown(lane) && WaitsAt(lane, t, k)
    ensures var next := Round(lane, batchSize, now);
      !Waiting(next, t) || (k >= batchSize && WaitsAt(next, t, k - batchSize))
  {
    hide Keep, AtMost;
    var n, served := Batch(lane, batchSize), Serve(lane, batchSize);
    ServeAdvances(lane.queued, n, t, k);
    KeepPicks(served.queued, served.accepted, now);
    if t in served.queued {
      KeepAdvances(served.queued, served.accepted, now, t, k - n);
    }
  }

  lemma OnceOut(s: System, op: Op, p: Priority, t: nat)
    requires SystemOk(s) && t < |LaneOf(s, p).accepted| && !Waiting(LaneOf(s, p), t)
    ensures t < |LaneOf(Step(s, op), p).accepted| && !Waiting(LaneOf(Step(s, op), p), t)
  {
    hide LaneOk, Keep;
    LaneStep(s, op, p);
    if op.ProcessOp? {
      var served := Serve(LaneOf(s, p), s.batchSize);
      KeepPicks(served.queued, served.accepted, op.now);
    }
  }

  function Rounds(ops: seq<Op>): nat {
    if ops == [] then 0 else (if ops[0].ProcessOp? then 1 else 0) + Rounds(ops[1..])
  }

  lemma {:induction false} StaysOut(s: System, ops: seq<Op>, p: Priority, t: nat)
    requires SystemOk(s) && t < |LaneOf(s, p).accepted| && !Waiting(LaneOf(s, p), t)
    ensures t < |LaneOf(Run(s, ops), p).accepted| && !Waiting(LaneOf(Run(s, ops), p), t)
    decreases |ops|
  {
    hide SystemOk, Step;
    if ops != [] {
      StepOk(s, ops[0]);
      OnceOut(s, ops[0], p, t);
      StaysOut(Step(s, ops[0]), ops[1..], p, t);
    }
  }

  // One step, seen from a waiting ticket.
  lemma StepWaits(s: System, op: Op, p: Priority, t: nat, k: nat)
    requires SystemOk(s) && WaitsAt(LaneOf(s, p), t, k)
    ensures var next := LaneOf(Step(s, op), p);
      && t < |next.accepted|
      && (op.AddOp? ==> WaitsAt(next, t, k))
      && (op.ProcessOp? ==> !Waiting(next, t) || (k >= s.batchSize && WaitsAt(next, t, k - s.batchSize)))
  {
    hide Round, Step, ShouldDrop;
    var lane := LaneOf(s, p);
    LaneStep(s, op, p);
    assert LaneOk(lane);
    var j :| 0 <= j <= k && j < |lane.queued| && lane.queued[j] == t;
    assert lane.queued[j] in lane.queued;
    if op.ProcessOp? {
      RoundOk(lane, s.batchSize, op.now);
      RoundAdvances(lane, s.batchSize, op.now, t, k);
    } else {
      assert LaneOf(Step(s, op), p).queued[j] == t;
    }
  }

  // The rounds after which index k has been reached.
  function Turns(k: nat, n: nat): nat
    requires n > 0
  {
    k / n + 1
  }

  lemma TurnsStep(k: nat, n: nat)
    requires n > 0
    ensures Turns(k, n) >= 1
    ensures k >= n ==> Turns(k, n) == Turns(k - n, n) + 1
  {
    if k >= n {
      DivideStep(k, n);
    }
  }

  lemma {:induction false} LeavesQueue(s: System, ops: seq<Op>, p: Priority, t: nat, k: nat)
    requires SystemOk(s) && s.batchSize > 0 && WaitsAt(LaneOf(s, p), t, k)
    requires Rounds(ops) >= Turns(k, s.batchSize)
    ensures t < |LaneOf(Run(s, ops), p).accepted| && !Waiting(LaneOf(Run(s, ops), p), t)
    decreases |ops|
  {
    hide SystemOk, Step, WaitsAt, Waiting, Turns;
    TurnsStep(k, s.batchSize);
    var op, rest := ops[0], ops[1..];
    var s' := Step(s, op);
    StepOk(s, op);
    StepWaits(s, op, p, t, k);
    if op.AddOp? {
      LeavesQueue(s', rest, p, t, k);
    } else if Waiting(LaneOf(s', p), t) {
      LeavesQueue(s', rest, p, t, k - s.batchSize);
    } else {
      StaysOut(s', rest, p, t);
    }
  }

  lemma DivideStep(k: nat, n: nat)
    requires 0 < n <= k
    ensures (k - n) / n == k / n - 1
  {
    var q, r := k / n, k % n;
    assert k - n == n * (q - 1) + r;
    DivMod(k - n, n, q - 1, r);
  }

  // The action at index k of a queue has been served or has expired after k / batchSize + 1
  // rounds, whatever else is offered before, between or after them.
  lemma WaitBound(s: System, ops: seq<Op>, p: Priority, k: nat)
    requires SystemOk(s) && s.batchSize > 0 && k < |LaneOf(s, p).queued|
    requires Rounds(ops) >= Turns(k, s.batchSize)
    ensures var t, lane := LaneOf(s, p).queued[k], LaneOf(Run(s, ops), p);
      t !in lane.queued && (t in lane.served || t in lane.expired)
  {
    hide Run, Step;
    var t := LaneOf(s, p).queued[k];
    LeavesQueue(s, ops, p, t, k);
    RunOk(s, ops);
    assert LaneOk(LaneOf(Run(s, ops), p));
  }

  // From any reachable state, every queued action is out within ceil(cap / batchSize) rounds.
  lemma EveryQueueDrains(s: System, ops: seq<Op>, p: Priority, k: nat)
    requires SystemOk(s) && s.batchSize > 0 && k < |LaneOf(s, p).queued|
    requires Rounds(ops) >= (Cap(p, s.maxQueueSize) + s.batchSize - 1) / s.batchSize
    ensures LaneOf(s, p).queued[k] !in LaneOf(Run(s, ops), p).queued
  {
    hide LaneOk, Run;
    assert |LaneOf(s, p).queued| <= Cap(p, s.maxQueueSize);
    var n, cap := s.batchSize, Cap(p, s.maxQueueSize);
    DivideStep(cap + n - 1, n);
    DivideMonotone(k, cap - 1, n);
    WaitBound(s, ops, p, k);
  }

  lemma DivideMonotone(a: nat, b: nat, n: nat)
    requires a <= b && n > 0
    ensures a / n <= b / n
  {
    var d := b / n - a / n;
    assert n * d == (b - b % n) - (a - a % n);
    MultipleIsFar(n, d);
    MultipleSign(n, d);
  }

  lemma MultipleSign(n: int, d: int)
    requires n > 0 && n * d > -n
    ensures d >= 0
  {
  }

  // ---------- Non-decreasing timestamps ----------

  ghost predicate Timed(accepted: seq<Action>) {
    forall a, b :: 0 <= a < b < |accepted| ==> accepted[a].timestamp <= accepted[b].timestamp
  }

  // The queue is a contiguous suffix of the history.
  ghost predicate IsSuffix(lane: Lane) {
    |lane.queued| <= |lane.accepted| &&
    forall k :: 0 <= k < |lane.queued| ==> lane.queued[k] == |lane.accepted| - |lane.queued| + k
  }

  lemma KeepStep(q: seq<nat>, accepted: seq<Action>, now: int)
    requires q != [] && forall k :: 0 <= k < |q| ==> q[k] < |accepted|
    ensures Keep(q, accepted, now) == (if TooOld(accepted[q[0]], now) then [] else [q[0]]) + Keep(q[1..], accepted, now)
  {
  }

  // Expiry then removes from the front only.
  lemma {:induction false} KeepSuffix(q: seq<nat>, accepted: seq<Action>, now: int) returns (m: nat)
    requires forall k :: 0 <= k < |q| ==> q[k] < |accepted|
    requires Timed(accepted) && Increasing(q)
    ensures m <= |q| && Keep(q, accepted, now) == q[m..]
  {
    hide Keep, TooOld, Timed;
    if q == [] {
      m := 0;
      KeepNone(accepted, now);
    } else if TooOld(accepted[q[0]], now) {
      var n := KeepSuffix(q[1..], accepted, now);
      m := n + 1;
      KeepStep(q, accepted, now);
      DropNone(q[1..][n..]);
      DropDrop(q, 1, n);
    } else {
      m := 0;
      NoneTooOld(q, accepted, now);
      DropNone(q);
    }
  }

  lemma KeepNone(accepted: seq<Action>, now: int)
    ensures Keep([], accepted, now) == []
  {
  }

  // Nothing accepted later than an action is older than it.
  lemma LaterIsYounger(accepted: seq<Action>, a: nat, b: nat, now: int)
    requires Timed(accepted) && a < b < |accepted| && !TooOld(accepted[a], now)
    ensures !TooOld(accepted[b], now)
  {
    assert accepted[a].timestamp <= accepted[b].timestamp;
  }

  lemma {:induction false} NoneTooOld(q: seq<nat>, accepted: seq<Action>, now: int)
    requires forall k :: 0 <= k < |q| ==> q[k] < |accepted|
    requires Timed(accepted) && Increasing(q)
    requires q != [] ==> !TooOld(accepted[q[0]], now)
    ensures Keep(q, accepted, now) == q
  {
    hide Keep, TooOld, Timed;
    if q == [] {
      KeepNone(accepted, now);
    } else {
      if |q| > 1 {
        LaterIsYounger(accepted, q[0], q[1], now);
      }
      NoneTooOld(q[1..], accepted, now);
      KeepStep(q, accepted, now);
    }
  }

  lemma DropIsSuffix(lane: Lane, next: Lane, m: nat)
    requires IsSuffix(lane) && m <= |lane.queued|
    requires next.accepted == lane.accepted && next.queued == lane.queued[m..]
    ensures IsSuffix(next)
  {
  }

  lemma RoundSuffix(lane: Lane, batchSize: nat, now: int)
    requires LaneOk(lane) && TicketsKnown(lane) && IsSuffix(lane) && Timed(lane.accepted)
    ensures IsSuffix(Round(lane, batchSize, now)) && Timed(Round(lane, batchSize, now).accepted)
  {
    hide Keep, IsSuffix, Timed;
    var served := Serve(lane, batchSize);
    ServeOk(lane, batchSize);
    DropIsSuffix(lane, served, Batch(lane, batchSize));
    var m := KeepSuffix(served.queued, served.accepted, now);
    DropIsSuffix(served, Round(lane, batchSize, now), m);
  }

  // Each added action is at least as late as everything its lane accepted before.
  ghost predicate InTime(s: System, op: Op) {
    op.AddOp? ==> var lane := LaneOf(s, op.a.priority);
      forall k :: 0 <= k < |lane.accepted| ==> lane.accepted[k].timestamp <= op.a.timestamp
  }

  ghost predicate RunInTime(s: System, ops: seq<Op>)
    requires SystemOk(s)
    decreases |ops|
  {
    ops == [] || (InTime(s, ops[0]) && (StepOk(s, ops[0]); RunInTime(Step(s, ops[0]), ops[1..])))
  }

  ghost predicate Suffixes(s: System) {
    forall p :: IsSuffix(LaneOf(s, p)) && Timed(LaneOf(s, p).accepted)
  }

  lemma StepSuffixes(s: System, op: Op)
    requires SystemOk(s) && Suffixes(s) && InTime(s, op)
    ensures Suffixes(Step(s, op))
  {
    hide Step, Round, ShouldDrop;
    forall p ensures IsSuffix(LaneOf(Step(s, op), p)) && Timed(LaneOf(Step(s, op), p).accepted) {
      var lane := LaneOf(s, p);
      LaneStep(s, op, p);
      assert LaneOk(lane) && IsSuffix(lane) && Timed(lane.accepted);
      if op.ProcessOp? {
        RoundSuffix(lane, s.batchSize, op.now);
      }
    }
  }

  lemma {:induction false} RunKeepsSuffix(s: System, ops: seq<Op>)
    requires SystemOk(s) && Suffixes(s) && RunInTime(s, ops)
    ensures Suffixes(Run(s, ops))
    decreases |ops|
  {
    hide SystemOk, Step, Suffixes, InTime;
    if ops != [] {
      StepOk(s, ops[0]);
      StepSuffixes(s, ops[0]);
      RunKeepsSuffix(Step(s, ops[0]), ops[1..]);
    }
  }

  lemma InitialSuffixes(maxQueueSize: uint32, batchSize: uint32)
    ensures Suffixes(Initial(maxQueueSize, batchSize))
  {
  }

  // From the start, which is sound, with actions added in the order of their timestamps in each
  // lane.
  lemma QueuesAreSuffixes(maxQueueSize: uint32, batchSize: uint32, ops: seq<Op>)
    requires SystemOk(Initial(maxQueueSize, batchSize)) && RunInTime(Initial(maxQueueSize, batchSize), ops)
    ensures Suffixes(Run(Initial(maxQueueSize, batchSize), ops))
  {
    hide SystemOk, Suffixes, Run, RunInTime;
    InitialSuffixes(maxQueueSize, batchSize);
    RunKeepsSuffix(Initial(maxQueueSize, batchSize), ops);
  }
}
