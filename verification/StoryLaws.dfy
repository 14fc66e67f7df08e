// What becomes of the decisions, the host and the participants of a story session.
//
//   LateCompleted        processing completes exactly the pending decisions that are late, with
//                        option 0, in active sessions, and touches nothing else
//   FirstAgeDecides      in any state: it is the age of the first one with the same id that decides
//   PresentedTimesOut    so one presented at t0 that is still pending is completed exactly from
//                        t0 + timeout on
//   MakeAllowed          which decisions can be made
//   SkipCompletes        skipping completes the first pending one without an answer or a record
//   HostIsEldest         unless the host is transferred, it is whoever has been in longest
//   OnlyHostIsHost       unless roles are handed out by hand, only the host has the role
//   TransferBack         handing the host over and back restores it, to oneself as well
//   RoleKept             a role handed out stays until something touches it
//   GoneAfterLeave       who leaves or is kicked is gone, and the others stay in order
//   EndedForever, EndIsFinal  an ended session takes nobody and nothing more
//   JoinsFill            a session takes players up to its size, which is between 1 and 8
module StoryLaws {
  import opened Words
  import opened Seqs
  import opened Roster
  import opened StorySessions

  // ---------- Timeouts ----------

  function CompletedWhenLate(d: Decision, now: int, timeout: int): Decision {
    if !d.isCompleted && now - d.timestamp >= timeout then d.(selectedOption := 0, isCompleted := true) else d
  }

  // The session with the late ones among its pending decisions completed.
  ghost predicate LateOnesCompleted(a: Session, b: Session, now: int, timeout: int) {
    && b == a.(decisions := b.decisions) && |b.decisions| == |a.decisions|
    && forall i :: 0 <= i < |a.decisions| ==> b.decisions[i] == CompletedWhenLate(a.decisions[i], now, timeout)
  }

  lemma FirstIsOwn(ds: seq<Decision>, i: nat)
    requires DistinctIds(ds) && i < |ds|
    ensures FirstWithId(ds, ds[i].decisionId) == i
  {
  }

  lemma ExpiredIsLate(ds: seq<Decision>, i: nat, now: int, timeout: int)
    requires DistinctIds(ds) && i < |ds|
    ensures ExpireAll(ds, now, timeout)[i] == CompletedWhenLate(ds[i], now, timeout)
  {
    hide FirstWithId;
    FirstIsOwn(ds, i);
  }

  lemma ProcessedSession(s: Story, id: uint32, now: int)
    requires id in s.sessions && DistinctIds(s.sessions[id].decisions)
    ensures var a, t := s.sessions[id], Step(s, ProcessPending(now));
      && id in t.sessions
      && if a.isActive then LateOnesCompleted(a, t.sessions[id], now, s.decisionTimeout) else t.sessions[id] == a
  {
    hide Expired;
    var ds := s.sessions[id].decisions;
    forall i | 0 <= i < |ds|
      ensures ExpireAll(ds, now, s.decisionTimeout)[i] == CompletedWhenLate(ds[i], now, s.decisionTimeout)
    {
      ExpiredIsLate(ds, i, now, s.decisionTimeout);
    }
  }

  // With no bound on the decisions presented: the first one with the id decides, pending or not.
  lemma FirstAgeDecides(s: Story, id: uint32, k: nat, i: nat, now: int)
    requires id in s.sessions && s.sessions[id].isActive && k <= i < |s.sessions[id].decisions|
    requires s.sessions[id].decisions[k].decisionId == s.sessions[id].decisions[i].decisionId
    requires forall m :: 0 <= m < k ==> s.sessions[id].decisions[m].decisionId != s.sessions[id].decisions[i].decisionId
    ensures var a, t := s.sessions[id].decisions, Step(s, ProcessPending(now));
      && id in t.sessions && |t.sessions[id].decisions| == |a|
      && t.sessions[id].decisions[i] == if !a[i].isCompleted && now - a[k].timestamp >= s.decisionTimeout
         then a[i].(selectedOption := 0, isCompleted := true) else a[i]
  {
    var ds := s.sessions[id].decisions;
    assert FirstWithId(ds, ds[i].decisionId) == k;
  }

  lemma OnlySessionsProcessed(s: Story, now: int)
    ensures var t := Step(s, ProcessPending(now)); t == s.(sessions := t.sessions) && t.sessions.Keys == s.sessions.Keys
  {
    hide ExpireAll;
  }

  // The timeout is never changed.
  lemma {:induction false} TimeoutStays(s: Story, ops: seq<Op>)
    ensures After(s, ops).decisionTimeout == s.decisionTimeout
  {
    hide Changed, ExpireAll, Succeeds;
    if ops != [] {
      TimeoutStays(s, ops[..|ops| - 1]);
    }
  }

  // In every state reached while at most 2^32 decisions have been presented.
  lemma LateCompleted(timeout: int, ops: seq<Op>, now: int)
    requires Issues(Start(timeout), ops) <= WORD
    ensures var s := After(Start(timeout), ops);
      var t := Step(s, ProcessPending(now));
      && t == s.(sessions := t.sessions) && t.sessions.Keys == s.sessions.Keys
      && forall id :: id in s.sessions ==>
           if s.sessions[id].isActive
           then LateOnesCompleted(s.sessions[id], t.sessions[id], now, timeout)
                && forall d :: d in t.sessions[id].decisions && !d.isCompleted ==> now - d.timestamp < timeout
           else t.sessions[id] == s.sessions[id]
  {
    hide Step, After, Issues, DistinctIds;
    var s := After(Start(timeout), ops);
    TimeoutStays(Start(timeout), ops);
    RunIds(timeout, ops);
    OnlySessionsProcessed(s, now);
    forall id | id in s.sessions
      ensures if s.sessions[id].isActive
              then LateOnesCompleted(s.sessions[id], Step(s, ProcessPending(now)).sessions[id], now, timeout)
              else Step(s, ProcessPending(now)).sessions[id] == s.sessions[id]
    {
      ProcessedSession(s, id, now);
    }
  }

  lemma {:induction false} AfterAppend(s: Story, a: seq<Op>, b: seq<Op>)
    ensures After(s, a + b) == After(After(s, a), b)
    decreases |b|
  {
    hide Step;
    if b == [] {
      DropNone(a);
    } else {
      AfterAppend(s, a, b[..|b| - 1]);
      assert (a + b)[..|a + b| - 1] == a + b[..|b| - 1];
    }
  }

  lemma PresentAppends(s: Story, id: uint32, d: Decision, t0: int)
    requires Succeeds(s, Present(id, d, t0))
    ensures id in s.sessions
    ensures var t, ds := Step(s, Present(id, d, t0)), s.sessions[id].decisions;
      && t.sessions.Keys == s.sessions.Keys
      && t.sessions[id].decisions == ds +
         [d.(decisionId := s.nextDecisionId, hostPlayerId := s.sessions[id].hostPlayerId, timestamp := t0)]
  {
  }

  // Whatever happens after it was presented, to this session or others: it keeps the time at
  // which it was presented and, while it is pending, that time alone decides.
  lemma PresentedTimesOut(timeout: int, ops: seq<Op>, id: uint32, d: Decision, t0: int, more: seq<Op>, now: int)
    requires id in After(Start(timeout), ops).sessions && Succeeds(After(Start(timeout), ops), Present(id, d, t0))
    requires NotReused(Step(After(Start(timeout), ops), Present(id, d, t0)), more, id)
    requires Issues(Start(timeout), ops + [Present(id, d, t0)] + more) <= WORD
    ensures var s, t := After(Start(timeout), ops), After(Start(timeout), ops + [Present(id, d, t0)] + more);
      var k := |s.sessions[id].decisions|;
      && id in t.sessions && k < |t.sessions[id].decisions|
      && var e := t.sessions[id].decisions[k];
      && e.decisionId == s.nextDecisionId && e.hostPlayerId == s.sessions[id].hostPlayerId && e.timestamp == t0
      && e.decisionText == d.decisionText && e.options == d.options
      && (t.sessions[id].isActive && !e.isCompleted ==>
            Step(t, ProcessPending(now)).sessions[id].decisions[k]
            == if now - t0 >= timeout then e.(selectedOption := 0, isCompleted := true) else e)
  {
    hide Step, Succeeds, Issues, NotReused, After;
    var op := Present(id, d, t0);
    var s := After(Start(timeout), ops);
    var s1 := Step(s, op);
    PresentAppends(s, id, d, t0);
    var k := |s.sessions[id].decisions|;
    AfterOne(Start(timeout), ops, op);
    AfterAppend(Start(timeout), ops + [op], more);
    var t := After(s1, more);
    CompletedForever(s1, more, id);
    assert DecisionStep(s1.sessions[id].decisions[k], t.sessions[id].decisions[k]);
    LateCompleted(timeout, ops + [op] + more, now);
  }

  lemma AfterOne(s: Story, ops: seq<Op>, op: Op)
    ensures After(s, ops + [op]) == Step(After(s, ops), op)
  {
    hide Step;
    assert (ops + [op])[..|ops + [op]| - 1] == ops;
  }

  // ---------- Making and skipping ----------

  // While at most 2^32 decisions have been presented: exactly those pending in an active session
  // under the host that presented them.
  lemma MakeAllowed(timeout: int, ops: seq<Op>, id: uint32, decisionId: uint32, option: uint32)
    requires Issues(Start(timeout), ops) <= WORD
    ensures var s := After(Start(timeout), ops);
      Succeeds(s, Make(id, decisionId, option)) <==>
        && id in s.sessions && s.sessions[id].isActive
        && exists d :: d in s.sessions[id].decisions && d.decisionId == decisionId && !d.isCompleted
             && d.hostPlayerId == s.sessions[id].hostPlayerId
  {
    hide After, Issues;
    var s := After(Start(timeout), ops);
    RunIds(timeout, ops);
    if id in s.sessions {
      var session := s.sessions[id];
      assert IdsOk(session, Issues(Start(timeout), ops));
      OnePending(session.decisions, decisionId);
    }
  }

  // Ids being distinct, the first pending decision with an id is the only one.
  lemma OnePending(ds: seq<Decision>, id: uint32)
    requires DistinctIds(ds)
    ensures var k := FirstPending(ds, id);
      && (k < |ds| ==> ds[k] in ds)
      && forall d :: d in ds && d.decisionId == id && !d.isCompleted ==> k < |ds| && d == ds[k]
  {
    var k := FirstPending(ds, id);
    forall d | d in ds && d.decisionId == id && !d.isCompleted ensures k < |ds| && d == ds[k] {
      var i :| 0 <= i < |ds| && ds[i] == d;
    }
  }

  lemma SkipCompletes(s: Story, id: uint32, decisionId: uint32) returns (i: nat)
    requires Succeeds(s, Skip(id, decisionId))
    ensures var a, t := s.sessions[id].decisions, Step(s, Skip(id, decisionId));
      && i < |a| && a[i].decisionId == decisionId && !a[i].isCompleted
      && (forall k :: 0 <= k < i ==> a[k].decisionId != decisionId || a[k].isCompleted)
      && t == s.(sessions := s.sessions[id := s.sessions[id].(decisions := a[i := a[i].(isCompleted := true)])])
  {
    hide FirstPending, RemoveFirst;
    i := FirstPending(s.sessions[id].decisions, decisionId);
  }

  // It is refused only where there is nothing to skip.
  lemma SkipRefused(s: Story, id: uint32, decisionId: uint32)
    ensures Succeeds(s, Skip(id, decisionId)) <==>
      && id in s.sessions && s.sessions[id].isActive
      && exists d :: d in s.sessions[id].decisions && d.decisionId == decisionId && !d.isCompleted
  {
    hide RemoveFirst;
    if id in s.sessions {
      var ds := s.sessions[id].decisions;
      var k := FirstPending(ds, decisionId);
      assert k < |ds| ==> ds[k] in ds;
    }
  }

  // ---------- The host ----------

  ghost predicate HostFirst(session: Session) {
    session.participants != [] ==> session.hostPlayerId == session.participants[0]
  }

  ghost predicate HostsFirst(s: Story) {
    forall id :: id in s.sessions ==> HostFirst(s.sessions[id])
  }

  lemma LeftHostFirst(session: Session, p: uint32)
    requires HostFirst(session)
    ensures HostFirst(Left(session, p))
  {
  }

  lemma StepHostsFirst(s: Story, op: Op)
    requires HostsFirst(s) && Good(s) && !op.TransferHost?
    ensures HostsFirst(Step(s, op))
  {
    hide Step, Good, HostFirst;
    forall id | id in Step(s, op).sessions ensures HostFirst(Step(s, op).sessions[id]) {
      ChangedHostFirst(s, op, id);
    }
  }

  lemma ChangedHostFirst(s: Story, op: Op, id: uint32)
    requires HostsFirst(s) && Good(s) && !op.TransferHost? && id in Step(s, op).sessions
    ensures HostFirst(Step(s, op).sessions[id])
  {
    hide FirstPending, ExpireAll, RecordOk, Changed, HostFirst, MembersOk;
    assert id in s.sessions ==> HostFirst(s.sessions[id]) && SessionGood(s, id);
    if NamesSession(op) && Succeeds(s, op) && op.sessionId == id {
      NamedHostFirst(s, op);
    } else if op.Create? {
      CreatedHostFirst(op.hostPlayerId);
    } else if op.ProcessPending? {
      SameHostFirst(s.sessions[id], Step(s, op).sessions[id]);
    }
  }

  lemma SameHostFirst(a: Session, b: Session)
    requires HostFirst(a) && b.hostPlayerId == a.hostPlayerId && b.participants == a.participants
    ensures HostFirst(b)
  {
  }

  lemma CreatedHostFirst(host: uint32)
    ensures HostFirst(Created(host))
  {
  }

  lemma NamedHostFirst(s: Story, op: Op)
    requires NamesSession(op) && Succeeds(s, op) && !op.TransferHost?
    requires HostFirst(s.sessions[op.sessionId]) && MembersOk(s.sessions[op.sessionId])
    ensures HostFirst(Changed(s, s.sessions[op.sessionId], op))
  {
    hide FirstPending, Left, Distinct;
    if op.Leave? || op.Kick? {
      LeftHostFirst(s.sessions[op.sessionId], op.playerId);
    }
  }

  // Participants stand in the order in which they came.
  lemma {:induction false} HostIsEldest(timeout: int, ops: seq<Op>)
    requires forall k :: 0 <= k < |ops| ==> !ops[k].TransferHost?
    ensures HostsFirst(After(Start(timeout), ops))
  {
    hide Step, HostsFirst, Good;
    if ops == [] {
      NoSessions(timeout);
    } else {
      HostIsEldest(timeout, ops[..|ops| - 1]);
      RunGood(timeout, ops[..|ops| - 1]);
      StepHostsFirst(After(Start(timeout), ops[..|ops| - 1]), ops[|ops| - 1]);
    }
  }

  lemma NoSessions(timeout: int)
    ensures HostsFirst(Start(timeout))
  {
  }

  ghost predicate OneHost(session: Session) {
    forall p :: p in session.playerRoles ==> (session.playerRoles[p] == Host <==> p == session.hostPlayerId)
  }

  ghost predicate OneHostEach(s: Story) {
    forall id :: id in s.sessions ==> OneHost(s.sessions[id])
  }

  // No role of a host is handed out but by making somebody the host.
  predicate HandsOutNoRole(op: Op) {
    !op.SetRole? && (op.Join? ==> op.role != Host)
  }

  lemma LeftOneHost(session: Session, p: uint32)
    requires OneHost(session) && MembersOk(session)
    ensures OneHost(Left(session, p))
  {
    hide Distinct, Find;
    var rest := RemoveFirst(session.participants, p);
    DistinctRemove(session.participants, p);
    if rest != [] {
      assert rest[0] in rest;
    }
  }

  lemma ChangedOneHost(s: Story, op: Op, id: uint32)
    requires OneHostEach(s) && Good(s) && HandsOutNoRole(op) && id in Step(s, op).sessions
    ensures OneHost(Step(s, op).sessions[id])
  {
    hide FirstPending, ExpireAll, RecordOk, Changed, OneHost, MembersOk;
    assert id in s.sessions ==> OneHost(s.sessions[id]) && SessionGood(s, id);
    if NamesSession(op) && Succeeds(s, op) && op.sessionId == id {
      NamedOneHost(s, op);
    } else if op.Create? {
      CreatedOneHost(op.hostPlayerId);
    } else if op.ProcessPending? {
      SameRoles(s.sessions[id], Step(s, op).sessions[id]);
    }
  }

  lemma SameRoles(a: Session, b: Session)
    requires OneHost(a) && b.hostPlayerId == a.hostPlayerId && b.playerRoles == a.playerRoles
    ensures OneHost(b)
  {
  }

  lemma CreatedOneHost(host: uint32)
    ensures OneHost(Created(host))
  {
  }

  lemma NamedOneHost(s: Story, op: Op)
    requires NamesSession(op) && Succeeds(s, op) && HandsOutNoRole(op)
    requires OneHost(s.sessions[op.sessionId]) && MembersOk(s.sessions[op.sessionId])
    ensures OneHost(Changed(s, s.sessions[op.sessionId], op))
  {
    hide FirstPending, Left, Distinct;
    if op.Leave? || op.Kick? {
      LeftOneHost(s.sessions[op.sessionId], op.playerId);
    }
  }

  lemma {:induction false} OnlyHostIsHost(timeout: int, ops: seq<Op>)
    requires forall k :: 0 <= k < |ops| ==> HandsOutNoRole(ops[k])
    ensures OneHostEach(After(Start(timeout), ops))
  {
    hide Step, OneHost, Good;
    if ops != [] {
      var front, op := ops[..|ops| - 1], ops[|ops| - 1];
      OnlyHostIsHost(timeout, front);
      RunGood(timeout, front);
      forall id | id in Step(After(Start(timeout), front), op).sessions
        ensures OneHost(Step(After(Start(timeout), front), op).sessions[id])
      {
        ChangedOneHost(After(Start(timeout), front), op, id);
      }
    }
  }

  // ---------- Roles ----------

  // Handing over is for the host of an active session, to any participant; the new host can hand
  // back, after which only the former roles of the two are lost.
  lemma TransferBack(s: Story, id: uint32, from: uint32, to: uint32)
    requires id in s.sessions && s.sessions[id].isActive && from in s.sessions[id].participants
    ensures var a, t := s.sessions[id], Step(s, TransferHost(id, from, to));
      && (Succeeds(s, TransferHost(id, from, to)) <==> a.hostPlayerId == from && to in a.participants)
      && (Succeeds(s, TransferHost(id, from, to)) ==>
            && t.sessions[id].hostPlayerId == to
            && Succeeds(t, TransferHost(id, to, from))
            && Step(t, TransferHost(id, to, from)) == s.(sessions := s.sessions[id :=
                 a.(playerRoles := a.playerRoles[to := Participant][from := Host])]))
  {
    hide RemoveFirst, FirstPending;
    RolesBack(s.sessions[id].playerRoles, from, to, Participant, Host);
  }

  lemma RolesBack<K, V>(roles: map<K, V>, from: K, to: K, guest: V, host: V)
    ensures roles[from := guest][to := host][to := guest][from := host] == roles[to := guest][from := host]
  {
  }

  // No call of the run hands a role to p, takes p out, or changes who the host is.
  predicate LeavesRole(op: Op, id: uint32, p: uint32) {
    match op
    case Join(id', p', _) => id' != id || p' != p
    case SetRole(id', p', _) => id' != id || p' != p
    case TransferHost(id', _, _) => id' != id
    case Leave(id', _) => id' != id
    case Kick(id', _) => id' != id
    case _ => true
  }

  lemma RoleStep(s: Story, op: Op, id: uint32, p: uint32)
    requires id in s.sessions && p in s.sessions[id].playerRoles
    requires LeavesRole(op, id, p) && (op.Create? ==> s.nextSessionId != id)
    ensures id in Step(s, op).sessions && p in Step(s, op).sessions[id].playerRoles
    ensures Step(s, op).sessions[id].playerRoles[p] == s.sessions[id].playerRoles[p]
  {
    hide FirstPending, ExpireAll, Left;
  }

  lemma {:induction false} RoleStays(s: Story, ops: seq<Op>, id: uint32, p: uint32)
    requires id in s.sessions && p in s.sessions[id].playerRoles && NotReused(s, ops, id)
    requires forall k :: 0 <= k < |ops| ==> LeavesRole(ops[k], id, p)
    ensures id in After(s, ops).sessions && p in After(s, ops).sessions[id].playerRoles
    ensures After(s, ops).sessions[id].playerRoles[p] == s.sessions[id].playerRoles[p]
  {
    hide Step, LeavesRole;
    if ops != [] {
      RoleStays(s, ops[..|ops| - 1], id, p);
      RoleStep(After(s, ops[..|ops| - 1]), ops[|ops| - 1], id, p);
    }
  }

  // A role given on joining, or afterwards.
  lemma RoleKept(s: Story, op: Op, ops: seq<Op>)
    requires (op.Join? || op.SetRole?) && op.sessionId in s.sessions && s.sessions[op.sessionId].isActive
    requires var participants := s.sessions[op.sessionId].participants;
      if op.SetRole? then op.playerId in participants
      else |participants| < s.maxSessionSize && op.playerId !in participants
    requires NotReused(Step(s, op), ops, op.sessionId)
    requires forall k :: 0 <= k < |ops| ==> LeavesRole(ops[k], op.sessionId, op.playerId)
    ensures var t := After(Step(s, op), ops);
      && op.sessionId in t.sessions && op.playerId in t.sessions[op.sessionId].playerRoles
      && t.sessions[op.sessionId].playerRoles[op.playerId] == op.role
  {
    hide After, NotReused, LeavesRole, FirstPending, RemoveFirst;
    RoleStays(Step(s, op), ops, op.sessionId, op.playerId);
  }

  // ---------- Leaving and ending ----------

  // What is left of a session without one participant.
  ghost predicate WithoutOne(d: Session, e: Session, p: uint32, rest: seq<uint32>) {
    && e.participants == rest && e.playerRoles.Keys == d.playerRoles.Keys - {p}
    && e.decisions == d.decisions && (e.isActive <==> rest != [])
    && (rest != [] ==> e.hostPlayerId == if d.hostPlayerId == p then rest[0] else d.hostPlayerId)
  }

  lemma LeftExactly(d: Session, p: uint32, a: seq<uint32>, b: seq<uint32>)
    requires MembersOk(d) && d.isActive && d.participants == a + [p] + b
    ensures WithoutOne(d, Left(d, p), p, a + b)
  {
    hide RemoveFirst, Distinct;
    DistinctApart(a, p, b);
    RemovedFrom(a, p, b);
    assert d.participants[|a|] == p;
    if a + b != [] {
      var next := (a + b)[0];
      assert next in a || next in b;
      assert next in d.participants && next != p;
      assert d.playerRoles.Keys - {p} + {next} == d.playerRoles.Keys - {p};
    }
  }

  // In every reachable state: whoever leaves, or is kicked, is gone with his role; the others stay
  // in their order, and a session without participants has ended.
  lemma GoneAfterLeave(timeout: int, ops: seq<Op>, op: Op, a: seq<uint32>, b: seq<uint32>)
    requires op.Leave? || op.Kick?
    requires op.sessionId in After(Start(timeout), ops).sessions
    requires After(Start(timeout), ops).sessions[op.sessionId].isActive
    requires After(Start(timeout), ops).sessions[op.sessionId].participants == a + [op.playerId] + b
    ensures var s := After(Start(timeout), ops);
      var d, t := s.sessions[op.sessionId], Step(s, op);
      && t == s.(sessions := s.sessions[op.sessionId := t.sessions[op.sessionId]])
      && WithoutOne(d, t.sessions[op.sessionId], op.playerId, a + b)
  {
    hide After, RecordOk, MembersOk, Left, WithoutOne;
    var s := After(Start(timeout), ops);
    var d := s.sessions[op.sessionId];
    RunGood(timeout, ops);
    assert SessionGood(s, op.sessionId);
    LeftExactly(d, op.playerId, a, b);
    assert d.participants[|a|] == op.playerId;
  }

  lemma EndedStep(s: Story, op: Op, id: uint32)
    requires id in s.sessions && !s.sessions[id].isActive && (op.Create? ==> s.nextSessionId != id)
    ensures var a, b := s.sessions[id], Step(s, op).sessions;
      && id in b && !b[id].isActive && b[id].decisions == a.decisions
      && (forall p :: p in b[id].participants ==> p in a.participants)
  {
    hide FirstPending, ExpireAll, RemoveFirst;
    if op.Leave? && op.sessionId == id {
      RemovedOnly(s.sessions[id].participants, op.playerId);
    }
  }

  lemma RemovedOnly(s: seq<uint32>, p: uint32)
    ensures forall x :: x in RemoveFirst(s, p) ==> x in s
  {
  }

  // Unless its id is taken over, an ended session never becomes active again, gains no participant
  // and no decision, and none of its decisions changes.
  lemma {:induction false} EndedForever(s: Story, ops: seq<Op>, id: uint32)
    requires id in s.sessions && !s.sessions[id].isActive && NotReused(s, ops, id)
    ensures var a, b := s.sessions[id], After(s, ops).sessions;
      && id in b && !b[id].isActive && b[id].decisions == a.decisions
      && (forall p :: p in b[id].participants ==> p in a.participants)
  {
    hide Step;
    if ops != [] {
      EndedForever(s, ops[..|ops| - 1], id);
      EndedStep(After(s, ops[..|ops| - 1]), ops[|ops| - 1], id);
    }
  }

  // From the call that ends it.
  lemma EndIsFinal(s: Story, id: uint32, ops: seq<Op>)
    requires id in s.sessions && NotReused(Step(s, End(id)), ops, id)
    ensures var a, b := s.sessions[id], After(Step(s, End(id)), ops).sessions;
      && id in b && !b[id].isActive && b[id].decisions == a.decisions
      && (forall p :: p in b[id].participants ==> p in a.participants)
  {
    hide After, NotReused, FirstPending, RemoveFirst;
    EndedForever(Step(s, End(id)), ops, id);
  }

  // ---------- Joining ----------

  function Joins(id: uint32, players: seq<uint32>, role: Role): seq<Op> {
    seq(|players|, k requires 0 <= k < |players| => Join(id, players[k], role))
  }

  lemma JoinStep(s: Story, id: uint32, p: uint32, role: Role)
    requires id in s.sessions && s.sessions[id].isActive
    ensures var a, t := s.sessions[id], Step(s, Join(id, p, role));
      && t.maxSessionSize == s.maxSessionSize && t.sessions.Keys == s.sessions.Keys
      && t.sessions[id].isActive && t.sessions[id].hostPlayerId == a.hostPlayerId
      && t.sessions[id].participants
         == if |a.participants| < s.maxSessionSize && p !in a.participants then a.participants + [p] else a.participants
  {
    hide RemoveFirst;
  }

  lemma JoinsLast(s: Story, id: uint32, front: seq<uint32>, last: uint32, role: Role)
    ensures After(s, Joins(id, front + [last], role)) == Step(After(s, Joins(id, front, role)), Join(id, last, role))
  {
    hide Step, After;
    assert Joins(id, front + [last], role) == Joins(id, front, role) + [Join(id, last, role)];
    AfterOne(s, Joins(id, front, role), Join(id, last, role));
  }

  lemma NoJoins(s: Story, id: uint32, role: Role)
    ensures After(s, Joins(id, [], role)) == s
  {
  }

  lemma {:induction false} JoinsAppend(s: Story, id: uint32, players: seq<uint32>, role: Role)
    requires id in s.sessions && s.sessions[id].isActive && |s.sessions[id].participants| <= s.maxSessionSize
    requires Distinct(s.sessions[id].participants + players)
    ensures var a, t := s.sessions[id], After(s, Joins(id, players, role));
      && id in t.sessions && t.sessions[id].isActive && t.sessions[id].hostPlayerId == a.hostPlayerId
      && t.maxSessionSize == s.maxSessionSize
      && t.sessions[id].participants == Taken(a.participants + players, s.maxSessionSize)
    decreases |players|
  {
    hide Step, After, Joins, Taken, Distinct;
    var present := s.sessions[id].participants;
    if players == [] {
      NoJoins(s, id, role);
      DropNone(present);
      TakesAll(present, s.maxSessionSize);
    } else {
      var front, last := players[..|players| - 1], players[|players| - 1];
      assert front + [last] == players;
      Assoc(present, front, [last]);
      DistinctFront(present + front, last);
      JoinsAppend(s, id, front, role);
      JoinsLast(s, id, front, last, role);
      JoinStep(After(s, Joins(id, front, role)), id, last, role);
      TakenNext(present + front, last, s.maxSessionSize);
    }
  }

  // What SetMaxSessionSize makes of its argument.
  function Size(n: uint32): nat {
    if n == 0 then 1 else if n > 8 then 8 else n
  }

  // A session created under a size takes its host and then different players, in order, until
  // that many are in.
  lemma JoinsFill(s: Story, n: uint32, host: uint32, players: seq<uint32>, role: Role)
    requires s.initialized && Distinct([host] + players)
    ensures var id := s.nextSessionId;
      var t := After(s, [SetMaxSize(n), Create(host)] + Joins(id, players, role));
      && id in t.sessions && t.sessions[id].isActive && t.sessions[id].hostPlayerId == host
      && t.sessions[id].participants == Taken([host] + players, Size(n))
  {
    hide Taken, Distinct;
    var id, first := s.nextSessionId, [SetMaxSize(n), Create(host)];
    assert first[..1] == [SetMaxSize(n)] && first[..1][..0] == [];
    assert After(s, first[..1]) == Step(s, SetMaxSize(n));
    var d := After(s, first);
    assert d == Step(Step(s, SetMaxSize(n)), Create(host));
    assert d.sessions[id].participants == [host];
    AfterAppend(s, first, Joins(id, players, role));
    JoinsAppend(d, id, players, role);
  }
}
