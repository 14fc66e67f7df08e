// Which actions are shed, and what one round does, in numbers.
//
//   CriticalDropped, HighDropped, MediumDropped, LowDropped
//                      an action is dropped if and only if its queue is full or its priority is
//                      shed at this load
//   RunSheds           over every run: the load right after a Low or Medium action was accepted
//   LoadBounded        the load of every run is at most max / 2 + 3 * (max / 4), up to a quarter more
//                      than the maximum; LoadReached: and that much in some run
//   MildRunsBounded    without Critical and High actions it is at most one above 0.9 max
//   RoundExactly       a round serves the first batchSize actions, in order, and lets exactly those
//                      of the others expire that are more than five seconds old
//   ServedExactly      the action at index k is served in round k / batchSize + 1, no earlier and no
//                      later, where nothing expires before it
module CombatShedding {
  import opened Words
  import opened Seqs
  import opened Arith
  import opened CombatModel

  // ---------- Adding ----------

  function Load(s: System): nat {
    |s.critical.queued| + |s.high.queued| + |s.medium.queued| + |s.low.queued|
  }

  // The call is counted as dropped and changes nothing else.
  predicate Drops(s: System, a: Action) {
    Add(s, a) == s.(offered := s.offered + 1, dropped := s.dropped + 1)
  }

  // One more action accepted, at the end of its queue.
  predicate Takes(lane: Lane, next: Lane, a: Action) {
    next == lane.(accepted := lane.accepted + [a], queued := lane.queued + [|lane.accepted|])
  }

  lemma CriticalDropped(s: System, a: Action)
    requires a.priority == Critical
    ensures Drops(s, a) <==> |s.critical.queued| >= s.maxQueueSize / 4
    ensures !Drops(s, a) ==> var t := Add(s, a);
      Takes(s.critical, t.critical, a) && t == s.(critical := t.critical, offered := s.offered + 1)
  {
  }

  lemma HighDropped(s: System, a: Action)
    requires a.priority == High
    ensures Drops(s, a) <==> |s.high.queued| >= s.maxQueueSize / 4
    ensures !Drops(s, a) ==> var t := Add(s, a);
      Takes(s.high, t.high, a) && t == s.(high := t.high, offered := s.offered + 1)
  {
  }

  lemma MediumDropped(s: System, a: Action)
    requires a.priority == Medium
    ensures Drops(s, a) <==> |s.medium.queued| >= s.maxQueueSize / 2 || 10 * Load(s) > 9 * s.maxQueueSize
    ensures !Drops(s, a) ==> var t := Add(s, a);
      Takes(s.medium, t.medium, a) && t == s.(medium := t.medium, offered := s.offered + 1)
  {
  }

  lemma LowDropped(s: System, a: Action)
    requires a.priority == Low
    ensures Drops(s, a) <==> |s.low.queued| >= s.maxQueueSize / 4 || 5 * Load(s) > 4 * s.maxQueueSize
    ensures !Drops(s, a) ==> var t := Add(s, a);
      Takes(s.low, t.low, a) && t == s.(low := t.low, offered := s.offered + 1)
  {
  }

  // ---------- Runs ----------

  lemma {:induction false} RunAppend(s: System, a: seq<Op>, b: seq<Op>)
    requires SystemOk(s)
    ensures SystemOk(Run(s, a)) && Run(s, a + b) == Run(Run(s, a), b)
    decreases |a|
  {
    hide Step, SystemOk;
    if a == [] {
      DropNone(b);
    } else {
      StepOk(s, a[0]);
      RunAppend(Step(s, a[0]), a[1..], b);
      assert (a + b)[0] == a[0] && (a + b)[1..] == a[1..] + b;
    }
  }

  lemma RunOne(s: System, ops: seq<Op>, op: Op)
    requires SystemOk(s)
    ensures SystemOk(Run(s, ops)) && Run(s, ops + [op]) == Step(Run(s, ops), op)
  {
    hide Step, SystemOk;
    RunAppend(s, ops, [op]);
    StepOk(Run(s, ops), op);
    assert [op][1..] == [];
  }

  // At every moment of every run: what the load was when such an action was taken.
  lemma RunSheds(maxQueueSize: uint32, batchSize: uint32, ops: seq<Op>, a: Action)
    requires SystemOk(Initial(maxQueueSize, batchSize))
    ensures var s := Run(Initial(maxQueueSize, batchSize), ops);
      var t := Run(Initial(maxQueueSize, batchSize), ops + [AddOp(a)]);
      && t.offered == s.offered + 1
      && (t.dropped == s.dropped ==> Load(t) == Load(s) + 1)
      && (t.dropped == s.dropped && a.priority == Low ==> 5 * (Load(t) - 1) <= 4 * maxQueueSize)
      && (t.dropped == s.dropped && a.priority == Medium ==> 10 * (Load(t) - 1) <= 9 * maxQueueSize)
  {
    hide SystemOk, Run;
    RunOne(Initial(maxQueueSize, batchSize), ops, AddOp(a));
    RunOk(Initial(maxQueueSize, batchSize), ops);
  }

  lemma RoundsShrink(s: System, now: int)
    requires SystemOk(s)
    ensures Load(Step(s, ProcessOp(now))) <= Load(s)
  {
    hide LaneOk, Round;
    assert LaneOf(s, Critical) == s.critical && LaneOf(s, High) == s.high;
    assert LaneOf(s, Medium) == s.medium && LaneOf(s, Low) == s.low;
    OkIsKnown(s);
    RoundOk(s.critical, s.batchSize, now);
    RoundOk(s.high, s.batchSize, now);
    RoundOk(s.medium, s.batchSize, now);
    RoundOk(s.low, s.batchSize, now);
  }

  lemma LoadBounded(maxQueueSize: uint32, batchSize: uint32, ops: seq<Op>)
    requires SystemOk(Initial(maxQueueSize, batchSize))
    ensures Load(Run(Initial(maxQueueSize, batchSize), ops)) <= maxQueueSize / 2 + 3 * (maxQueueSize / 4)
  {
    hide Run, LaneOk;
    var t := Run(Initial(maxQueueSize, batchSize), ops);
    RunOk(Initial(maxQueueSize, batchSize), ops);
    assert |LaneOf(t, Critical).queued| <= Cap(Critical, maxQueueSize);
    assert |LaneOf(t, High).queued| <= Cap(High, maxQueueSize);
    assert |LaneOf(t, Medium).queued| <= Cap(Medium, maxQueueSize);
    assert |LaneOf(t, Low).queued| <= Cap(Low, maxQueueSize);
  }

  // Additions of one priority.
  function Additions(a: Action, n: nat): seq<Op> {
    seq(n, _ => AddOp(a))
  }

  lemma NextAddition(a: Action, n: nat)
    requires n > 0
    ensures Additions(a, n) == [AddOp(a)] + Additions(a, n - 1)
  {
  }

  // n further actions fit, whatever sheds.
  predicate HasRoom(s: System, p: Priority, n: nat) {
    && |LaneOf(s, p).queued| + n <= (if p == Medium then s.maxQueueSize / 2 else s.maxQueueSize / 4)
    && (p == Medium && n > 0 ==> 10 * (Load(s) + n - 1) <= 9 * s.maxQueueSize)
    && (p == Low && n > 0 ==> 5 * (Load(s) + n - 1) <= 4 * s.maxQueueSize)
  }

  // The same queue lengths but for n more of one priority.
  predicate Grown(s: System, t: System, p: Priority, n: nat) {
    && t.maxQueueSize == s.maxQueueSize
    && |t.critical.queued| == |s.critical.queued| + (if p == Critical then n else 0)
    && |t.high.queued| == |s.high.queued| + (if p == High then n else 0)
    && |t.medium.queued| == |s.medium.queued| + (if p == Medium then n else 0)
    && |t.low.queued| == |s.low.queued| + (if p == Low then n else 0)
  }

  lemma OneGrows(s: System, a: Action, n: nat)
    requires HasRoom(s, a.priority, n) && n > 0
    ensures Grown(s, Add(s, a), a.priority, 1) && HasRoom(Add(s, a), a.priority, n - 1)
  {
  }

  lemma {:induction false} AdditionsGrow(s: System, a: Action, n: nat)
    requires SystemOk(s) && HasRoom(s, a.priority, n)
    ensures SystemOk(Run(s, Additions(a, n))) && Grown(s, Run(s, Additions(a, n)), a.priority, n)
    decreases n
  {
    hide SystemOk, HasRoom, Add;
    if n == 0 {
      assert Additions(a, 0) == [];
    } else {
      NextAddition(a, n);
      assert Additions(a, n)[1..] == Additions(a, n - 1);
      OneGrows(s, a, n);
      StepOk(s, AddOp(a));
      AdditionsGrow(Add(s, a), a, n - 1);
    }
  }

  function Some(p: Priority): Action {
    Action(0, 0, Attack, p, 0, false)
  }

  // Medium first, then Low, then the priorities that are never shed.
  function Filling(maxQueueSize: uint32): seq<Op> {
    Additions(Some(Medium), maxQueueSize / 2) + Additions(Some(Low), maxQueueSize / 4)
    + Additions(Some(High), maxQueueSize / 4) + Additions(Some(Critical), maxQueueSize / 4)
  }

  lemma Quarters(n: nat)
    ensures 4 * (n / 4) <= n && 2 * (n / 2) <= n
  {
  }

  lemma LoadReached(maxQueueSize: uint32, batchSize: uint32)
    requires SystemOk(Initial(maxQueueSize, batchSize))
    ensures Load(Run(Initial(maxQueueSize, batchSize), Filling(maxQueueSize))) == maxQueueSize / 2 + 3 * (maxQueueSize / 4)
  {
    hide SystemOk, Run, Additions, Add;
    var s0, n := Initial(maxQueueSize, batchSize), maxQueueSize;
    var a, b := Additions(Some(Medium), n / 2), Additions(Some(Low), n / 4);
    var c, d := Additions(Some(High), n / 4), Additions(Some(Critical), n / 4);
    Quarters(n);
    AdditionsGrow(s0, Some(Medium), n / 2);
    var s1 := Run(s0, a);
    AdditionsGrow(s1, Some(Low), n / 4);
    var s2 := Run(s1, b);
    AdditionsGrow(s2, Some(High), n / 4);
    var s3 := Run(s2, c);
    AdditionsGrow(s3, Some(Critical), n / 4);
    RunAppend(s0, a, b);
    RunAppend(s0, a + b, c);
    RunAppend(s0, a + b + c, d);
  }

  ghost predicate Mild(ops: seq<Op>) {
    forall k :: 0 <= k < |ops| && ops[k].AddOp? ==> ops[k].a.priority == Medium || ops[k].a.priority == Low
  }

  lemma MildStep(s: System, op: Op)
    requires SystemOk(s) && 10 * (Load(s) - 1) <= 9 * s.maxQueueSize
    requires op.AddOp? ==> op.a.priority == Medium || op.a.priority == Low
    ensures 10 * (Load(Step(s, op)) - 1) <= 9 * s.maxQueueSize
  {
    hide SystemOk;
    if op.ProcessOp? {
      RoundsShrink(s, op.now);
    } else if op.a.priority == Medium {
      MediumDropped(s, op.a);
    } else {
      LowDropped(s, op.a);
    }
  }

  // As long as nothing Critical or High is offered.
  lemma {:induction false} MildRunsBounded(s: System, ops: seq<Op>)
    requires SystemOk(s) && 10 * (Load(s) - 1) <= 9 * s.maxQueueSize && Mild(ops)
    ensures 10 * (Load(Run(s, ops)) - 1) <= 9 * s.maxQueueSize
    decreases |ops|
  {
    hide SystemOk, Step, Load;
    if ops != [] {
      MildStep(s, ops[0]);
      StepOk(s, ops[0]);
      MildRunsBounded(Step(s, ops[0]), ops[1..]);
    }
  }

  // ---------- One round ----------

  function FirstOf(q: seq<nat>, n: nat): seq<nat> {
    if n < |q| then q[..n] else q
  }

  function RestOf(q: seq<nat>, n: nat): seq<nat> {
    if n < |q| then q[n..] else []
  }

  // A queue with distinct tickets in order is determined by its elements.
  lemma RoundExactly(s: System, now: int, p: Priority)
    requires SystemOk(s)
    ensures var lane, next := LaneOf(s, p), LaneOf(Step(s, ProcessOp(now)), p);
      var rest := RestOf(lane.queued, s.batchSize);
      && next.accepted == lane.accepted
      && next.served == lane.served + FirstOf(lane.queued, s.batchSize)
      && Increasing(next.queued)
      && (forall t :: t in rest ==> t < |lane.accepted|)
      && (forall t :: t in next.queued <==> t in rest && now - lane.accepted[t].timestamp <= 5_000_000_000)
      && (forall t :: t in next.expired <==> t in lane.expired || (t in rest && t !in next.queued))
  {
    hide LaneOk, Keep, Increasing;
    var lane := LaneOf(s, p);
    LaneStep(s, ProcessOp(now), p);
    assert LaneOk(lane);
    ServeOk(lane, s.batchSize);
    var served := Serve(lane, s.batchSize);
    KnownTickets(served);
    ExpireOk(served, now);
    KeepPicks(served.queued, served.accepted, now);
    InOrder(Round(lane, s.batchSize, now));
    TicketsIn(served);
    assert served.queued == RestOf(lane.queued, s.batchSize);
  }

  lemma InOrder(lane: Lane)
    requires LaneOk(lane)
    ensures Increasing(lane.queued)
  {
  }

  lemma TicketsIn(lane: Lane)
    requires TicketsKnown(lane)
    ensures forall t :: t in lane.queued ==> t < |lane.accepted|
  {
  }

  // ---------- When an action is served ----------

  // In no round of the run is one of the first k + 1 actions of the queue more than five seconds old.
  ghost predicate YoungUpTo(lane: Lane, k: nat, ops: seq<Op>)
    requires TicketsKnown(lane) && k < |lane.queued|
  {
    forall i, j :: 0 <= i < |ops| && ops[i].ProcessOp? && 0 <= j <= k ==>
      ops[i].now - lane.accepted[lane.queued[j]].timestamp <= 5_000_000_000
  }

  lemma {:induction false} KeepPrefix(q: seq<nat>, accepted: seq<Action>, now: int, m: nat)
    requires (forall k :: 0 <= k < |q| ==> q[k] < |accepted|) && m <= |q|
    requires forall j :: 0 <= j < m ==> !TooOld(accepted[q[j]], now)
    ensures m <= |Keep(q, accepted, now)| && Keep(q, accepted, now)[..m] == q[..m]
  {
    hide TooOld;
    if m > 0 {
      KeepPrefix(q[1..], accepted, now, m - 1);
      assert [q[0]] + q[1..][..m - 1] == q[..m];
    }
  }

  // A round moves the action at index k to the served ones or, with all before it, batchSize up.
  lemma RoundMovesUp(lane: Lane, batchSize: nat, now: int, k: nat)
    requires LaneOk(lane) && TicketsKnown(lane) && k < |lane.queued|
    requires forall j :: 0 <= j <= k ==> !TooOld(lane.accepted[lane.queued[j]], now)
    ensures var next := Round(lane, batchSize, now);
      && TicketsKnown(next) && next.accepted == lane.accepted
      && (k < batchSize ==> lane.queued[k] in next.served)
      && (k >= batchSize ==> k - batchSize < |next.queued|)
      && (k >= batchSize ==> next.queued[..k - batchSize + 1] == lane.queued[batchSize..k + 1])
  {
    hide Keep, TooOld, LaneOk;
    RoundOk(lane, batchSize, now);
    KnownTickets(Round(lane, batchSize, now));
    if k < batchSize {
      var n := Batch(lane, batchSize);
      assert lane.queued[..n][k] == lane.queued[k];
    } else {
      var rest := lane.queued[batchSize..];
      KeepPrefix(rest, lane.accepted, now, k - batchSize + 1);
      assert rest[..k - batchSize + 1] == lane.queued[batchSize..k + 1];
    }
  }

  lemma StaysServed(s: System, op: Op, p: Priority)
    requires SystemOk(s)
    ensures forall t :: t in LaneOf(s, p).served ==> t in LaneOf(Step(s, op), p).served
  {
    hide LaneOk, Keep, Accepts;
    LaneStep(s, op, p);
  }

  lemma {:induction false} ServedForGood(s: System, ops: seq<Op>, p: Priority, t: nat)
    requires SystemOk(s) && t in LaneOf(s, p).served
    ensures t in LaneOf(Run(s, ops), p).served
    decreases |ops|
  {
    hide SystemOk, Step;
    if ops != [] {
      StepOk(s, ops[0]);
      StaysServed(s, ops[0], p);
      ServedForGood(Step(s, ops[0]), ops[1..], p, t);
    }
  }

  lemma AdditionLeaves(s: System, op: Op, p: Priority, k: nat, ops: seq<Op>)
    requires SystemOk(s) && op.AddOp? && TicketsKnown(LaneOf(s, p)) && k < |LaneOf(s, p).queued|
    requires YoungUpTo(LaneOf(s, p), k, ops)
    ensures var next := LaneOf(Step(s, op), p);
      && TicketsKnown(next) && k < |next.queued| && next.queued[k] == LaneOf(s, p).queued[k]
      && YoungUpTo(next, k, ops)
  {
    hide LaneOk, Accepts;
    LaneStep(s, op, p);
    StepOk(s, op);
    assert LaneOk(LaneOf(Step(s, op), p));
    KnownTickets(LaneOf(Step(s, op), p));
  }

  lemma RoundLeavesYoung(lane: Lane, next: Lane, batchSize: nat, k: nat, ops: seq<Op>)
    requires TicketsKnown(lane) && TicketsKnown(next) && next.accepted == lane.accepted
    requires batchSize <= k < |lane.queued| && k - batchSize < |next.queued|
    requires next.queued[..k - batchSize + 1] == lane.queued[batchSize..k + 1]
    requires YoungUpTo(lane, k, ops)
    ensures next.queued[k - batchSize] == lane.queued[k] && YoungUpTo(next, k - batchSize, ops)
  {
    forall j | 0 <= j <= k - batchSize ensures next.queued[j] == lane.queued[batchSize + j] {
      assert next.queued[..k - batchSize + 1][j] == lane.queued[batchSize..k + 1][j];
    }
  }

  lemma YoungRest(lane: Lane, k: nat, ops: seq<Op>)
    requires TicketsKnown(lane) && k < |lane.queued| && YoungUpTo(lane, k, ops) && ops != []
    ensures YoungUpTo(lane, k, ops[1..])
    ensures ops[0].ProcessOp? ==> forall j :: 0 <= j <= k ==> !TooOld(lane.accepted[lane.queued[j]], ops[0].now)
  {
    forall i, j | 0 <= i < |ops[1..]| && ops[1..][i].ProcessOp? && 0 <= j <= k
      ensures ops[1..][i].now - lane.accepted[lane.queued[j]].timestamp <= 5_000_000_000
    {
      assert ops[1..][i] == ops[i + 1];
    }
  }

  lemma QueuedNotServed(lane: Lane, k: nat)
    requires LaneOk(lane) && k < |lane.queued|
    ensures lane.queued[k] !in lane.served
  {
  }

  // Whatever is added before, between or after the rounds.
  lemma {:induction false} ServedExactly(s: System, ops: seq<Op>, p: Priority, k: nat)
    requires SystemOk(s) && s.batchSize > 0
    requires TicketsKnown(LaneOf(s, p)) && k < |LaneOf(s, p).queued| && YoungUpTo(LaneOf(s, p), k, ops)
    ensures LaneOf(s, p).queued[k] in LaneOf(Run(s, ops), p).served <==> Rounds(ops) >= k / s.batchSize + 1
    decreases |ops|
  {
    hide LaneOk, Step, YoungUpTo, Round, TicketsKnown, TooOld;
    var lane, b := LaneOf(s, p), s.batchSize;
    assert LaneOk(lane);
    TurnsStep(k, b);
    if ops == [] {
      QueuedNotServed(lane, k);
    } else {
      var op, rest := ops[0], ops[1..];
      var d := Step(s, op);
      StepOk(s, op);
      YoungRest(lane, k, ops);
      if op.AddOp? {
        AdditionLeaves(s, op, p, k, rest);
        ServedExactly(d, rest, p, k);
      } else {
        LaneStep(s, op, p);
        RoundMovesUp(lane, b, op.now, k);
        if k < b {
          SmallQuotient(k, b);
          ServedForGood(d, rest, p, lane.queued[k]);
        } else {
          RoundLeavesYoung(lane, LaneOf(d, p), b, k, rest);
          ServedExactly(d, rest, p, k - b);
        }
      }
    }
  }

  lemma SmallQuotient(k: nat, n: nat)
    requires k < n
    ensures k / n == 0
  {
  }
}
