// The story sessions of src/game/SharedStoryMode.cpp.
//
//   RunGood                 every session keeps its participants, roles and host in step, and the
//                           recorded decisions are copies of completed ones
//   CompletedForever        a completed decision never changes again
//   RecordedOnce            no decision is recorded twice while ids do not repeat
module StorySessions {
  import opened Words
  import opened Roster

  datatype Role = Host | Participant | Spectator

  datatype Decision = Decision(decisionId: uint32, questId: string, dialogueId: string, decisionText: string,
                               options: seq<string>, selectedOption: uint32, hostPlayerId: uint32,
                               timestamp: int, isCompleted: bool)

  datatype Session = Session(hostPlayerId: uint32, participants: seq<uint32>, playerRoles: map<uint32, Role>,
                             decisions: seq<Decision>, isActive: bool)

  // progressions holds storyDecisions of each session.
  datatype Story = Story(initialized: bool, sessions: map<uint32, Session>, progressions: map<uint32, seq<Decision>>,
                         nextSessionId: uint32, nextDecisionId: uint32, maxSessionSize: uint32, decisionTimeout: int)

  datatype Op =
    | Create(hostPlayerId: uint32)
    | Join(sessionId: uint32, playerId: uint32, role: Role)
    | Leave(sessionId: uint32, playerId: uint32)
    | End(sessionId: uint32)
    | SetRole(sessionId: uint32, playerId: uint32, role: Role)
    | TransferHost(sessionId: uint32, fromPlayerId: uint32, toPlayerId: uint32)
    | Kick(sessionId: uint32, playerId: uint32)
    | Present(sessionId: uint32, decision: Decision, now: int)
    | Make(sessionId: uint32, decisionId: uint32, optionIndex: uint32)
    | Skip(sessionId: uint32, decisionId: uint32)
    | ProcessPending(now: int)
    | SetMaxSize(maxSize: uint32)

  // ---------- Sessions ----------

  function Created(host: uint32): Session {
    Session(host, [host], map[host := Host], [], true)
  }

  function Left(session: Session, p: uint32): Session {
    var rest := RemoveFirst(session.participants, p);
    var roles := session.playerRoles - {p};
    if rest == [] then session.(participants := rest, playerRoles := roles, isActive := false)
    else if session.hostPlayerId != p then session.(participants := rest, playerRoles := roles)
    else session.(participants := rest, hostPlayerId := rest[0], playerRoles := roles[rest[0] := Host])
  }

  // The first decision with the id that is not completed, or the number of decisions.
  function FirstPending(ds: seq<Decision>, id: uint32): (k: nat)
    ensures k <= |ds| && (k < |ds| ==> ds[k].decisionId == id && !ds[k].isCompleted)
    ensures forall i :: 0 <= i < k ==> ds[i].decisionId != id || ds[i].isCompleted
  {
    if ds == [] || (ds[0].decisionId == id && !ds[0].isCompleted) then 0 else 1 + FirstPending(ds[1..], id)
  }

  function FirstWithId(ds: seq<Decision>, id: uint32): (k: nat)
    ensures k <= |ds| && (k < |ds| ==> ds[k].decisionId == id)
    ensures forall i :: 0 <= i < k ==> ds[i].decisionId != id
  {
    if ds == [] || ds[0].decisionId == id then 0 else 1 + FirstWithId(ds[1..], id)
  }

  // The age of the first decision with the id is looked at.
  predicate TimedOut(ds: seq<Decision>, id: uint32, now: int, timeout: int) {
    var k := FirstWithId(ds, id);
    k < |ds| && now - ds[k].timestamp >= timeout
  }

  function Expired(ds: seq<Decision>, i: nat, now: int, timeout: int): Decision
    requires i < |ds|
  {
    if !ds[i].isCompleted && TimedOut(ds, ds[i].decisionId, now, timeout)
    then ds[i].(selectedOption := 0, isCompleted := true) else ds[i]
  }

  function ExpireAll(ds: seq<Decision>, now: int, timeout: int): seq<Decision> {
    seq(|ds|, i requires 0 <= i < |ds| => Expired(ds, i, now, timeout))
  }

  // ---------- Steps ----------

  predicate NamesSession(op: Op) {
    !op.Create? && !op.ProcessPending? && !op.SetMaxSize?
  }

  predicate Succeeds(s: Story, op: Op) {
    if op.Create? then s.initialized
    else if !NamesSession(op) then true
    else
      op.sessionId in s.sessions &&
      var session := s.sessions[op.sessionId];
      (op.Leave? || op.End? || session.isActive) &&
      match op
      case Join(_, p, _) => |session.participants| < s.maxSessionSize && p !in session.participants
      case SetRole(_, p, _) => p in session.participants
      case TransferHost(_, from, to) => session.hostPlayerId == from && to in session.participants
      case Kick(_, p) => p in session.participants
      case Make(_, id, _) =>
        var k := FirstPending(session.decisions, id);
        k < |session.decisions| && session.decisions[k].hostPlayerId == session.hostPlayerId
      case Skip(_, id) => FirstPending(session.decisions, id) < |session.decisions|
      case _ => true
  }

  // The decision MakeStoryDecision completes, as it is after that.
  function Made(session: Session, id: uint32, option: uint32): Decision
    requires FirstPending(session.decisions, id) < |session.decisions|
  {
    session.decisions[FirstPending(session.decisions, id)].(selectedOption := option, isCompleted := true)
  }

  // The session a successful call names, after it.
  function Changed(s: Story, session: Session, op: Op): Session
    requires NamesSession(op)
    requires op.Make? || op.Skip? ==> FirstPending(session.decisions, op.decisionId) < |session.decisions|
  {
    match op
    case Join(_, p, role) =>
      session.(participants := session.participants + [p], playerRoles := session.playerRoles[p := role])
    case Leave(_, p) => Left(session, p)
    case End(_) => session.(isActive := false)
    case SetRole(_, p, role) => session.(playerRoles := session.playerRoles[p := role])
    case TransferHost(_, from, to) =>
      session.(hostPlayerId := to, playerRoles := session.playerRoles[from := Participant][to := Host])
    case Kick(_, p) => Left(session, p)
    case Present(_, d, now) =>
      session.(decisions := session.decisions +
        [d.(decisionId := s.nextDecisionId, hostPlayerId := session.hostPlayerId, timestamp := now)])
    case Make(_, id, option) =>
      var k := FirstPending(session.decisions, id);
      session.(decisions := session.decisions[k := Made(session, id, option)])
    case Skip(_, id) =>
      var k := FirstPending(session.decisions, id);
      session.(decisions := session.decisions[k := session.decisions[k].(isCompleted := true)])
  }

  function AfterTimeouts(session: Session, now: int, timeout: int): Session {
    if session.isActive then session.(decisions := ExpireAll(session.decisions, now, timeout)) else session
  }

  function StepNamed(s: Story, op: Op): Story
    requires NamesSession(op) && Succeeds(s, op)
  {
    var id := op.sessionId;
    var d := s.(sessions := s.sessions[id := Changed(s, s.sessions[id], op)]);
    if op.Make? then
      d.(progressions := s.progressions[id := Progression(s, id) + [Made(s.sessions[id], op.decisionId, op.optionIndex)]])
    else if op.Present? then d.(nextDecisionId := Add32(s.nextDecisionId, 1))
    else d
  }

  function Step(s: Story, op: Op): Story {
    if !Succeeds(s, op) then s
    else if op.Create? then
      var id := s.nextSessionId;
      s.(sessions := s.sessions[id := Created(op.hostPlayerId)], progressions := s.progressions[id := []],
         nextSessionId := Add32(id, 1))
    else if op.ProcessPending? then
      s.(sessions := map id | id in s.sessions :: AfterTimeouts(s.sessions[id], op.now, s.decisionTimeout))
    else if op.SetMaxSize? then
      s.(maxSessionSize := if op.maxSize < 1 then 1 else if op.maxSize > 8 then 8 else op.maxSize)
    else StepNamed(s, op)
  }

  function Progression(s: Story, id: uint32): seq<Decision> {
    if id in s.progressions then s.progressions[id] else []
  }

  function After(s: Story, ops: seq<Op>): Story {
    if ops == [] then s else Step(After(s, ops[..|ops| - 1]), ops[|ops| - 1])
  }

  function Start(timeout: int): Story {
    Story(true, map[], map[], 1, 1, 4, timeout)
  }

  // ---------- Participants, roles and host ----------

  // Active or not. Only an empty session has no host among its participants.
  ghost predicate MembersOk(session: Session) {
    && Distinct(session.participants) && |session.participants| <= 8
    && (forall p: uint32 :: p in session.playerRoles <==> p in session.participants)
    && (session.participants != [] ==> session.hostPlayerId in session.participants)
    && (session.isActive ==> session.participants != [])
  }

  lemma LeftOk(session: Session, p: uint32)
    requires MembersOk(session)
    ensures MembersOk(Left(session, p))
  {
    hide RemoveFirst, Distinct;
    DistinctRemove(session.participants, p);
    var rest := RemoveFirst(session.participants, p);
    assert rest != [] ==> rest[0] in rest;
  }

  lemma JoinedOk(s: Story, session: Session, op: Op)
    requires op.Join? && session.isActive && MembersOk(session) && op.playerId !in session.participants
    requires |session.participants| < s.maxSessionSize <= 8
    ensures MembersOk(Changed(s, session, op))
  {
    hide Distinct;
    DistinctAdd(session.participants, op.playerId);
  }

  lemma ChangedOk(s: Story, op: Op)
    requires NamesSession(op) && Succeeds(s, op) && s.maxSessionSize <= 8
    requires MembersOk(s.sessions[op.sessionId])
    ensures MembersOk(Changed(s, s.sessions[op.sessionId], op))
  {
    hide Distinct, Left, FirstPending;
    var session := s.sessions[op.sessionId];
    if op.Join? {
      JoinedOk(s, session, op);
    } else if op.Leave? || op.Kick? {
      LeftOk(session, op.playerId);
    }
  }

  // ---------- Decisions ----------

  function CompletedBag(ds: seq<Decision>): multiset<Decision> {
    if ds == [] then multiset{} else
    CompletedBag(ds[..|ds| - 1]) + if ds[|ds| - 1].isCompleted then multiset{ds[|ds| - 1]} else multiset{}
  }

  // What a call may do to a decision: complete it, once, and nothing else.
  predicate DecisionStep(d: Decision, d': Decision) {
    d' == d || (!d.isCompleted && d' == d.(selectedOption := d'.selectedOption, isCompleted := true))
  }

  ghost predicate DecisionsStep(a: seq<Decision>, b: seq<Decision>) {
    |a| <= |b| && forall i :: 0 <= i < |a| ==> DecisionStep(a[i], b[i])
  }

  lemma {:induction false} BagGrows(a: seq<Decision>, b: seq<Decision>)
    requires DecisionsStep(a, b)
    ensures CompletedBag(a) <= CompletedBag(b)
    decreases |b|
  {
    if b != [] {
      var front := b[..|b| - 1];
      if |a| == |b| {
        BagGrows(a[..|a| - 1], front);
        assert DecisionStep(a[|a| - 1], b[|b| - 1]);
      } else {
        BagGrows(a, front);
      }
    }
  }

  lemma {:induction false} BagGains(ds: seq<Decision>, i: nat, d: Decision)
    requires i < |ds| && !ds[i].isCompleted && d.isCompleted
    ensures CompletedBag(ds[i := d]) == CompletedBag(ds) + multiset{d}
  {
    var n := |ds| - 1;
    if i < n {
      BagGains(ds[..n], i, d);
      assert ds[i := d][..n] == ds[..n][i := d];
    } else {
      assert ds[i := d][..n] == ds[..n];
    }
  }

  lemma ChangedDecisions(s: Story, op: Op)
    requires NamesSession(op) && Succeeds(s, op)
    ensures DecisionsStep(s.sessions[op.sessionId].decisions, Changed(s, s.sessions[op.sessionId], op).decisions)
  {
    hide FirstPending, RemoveFirst;
  }

  lemma ExpiredDecisions(ds: seq<Decision>, now: int, timeout: int)
    ensures DecisionsStep(ds, ExpireAll(ds, now, timeout))
  {
    hide TimedOut;
  }

  // Recorded decisions are copies of completed ones, none taken twice.
  ghost predicate RecordOk(session: Session, record: seq<Decision>) {
    multiset(record) <= CompletedBag(session.decisions)
  }

  lemma RecordAppend(record: seq<Decision>, d: Decision)
    ensures multiset(record + [d]) == multiset(record) + multiset{d}
  {
  }

  lemma MadeRecorded(session: Session, record: seq<Decision>, id: uint32, option: uint32)
    requires FirstPending(session.decisions, id) < |session.decisions| && RecordOk(session, record)
    ensures var k, d := FirstPending(session.decisions, id), Made(session, id, option);
      RecordOk(session.(decisions := session.decisions[k := d]), record + [d])
  {
    hide FirstPending, CompletedBag;
    var k, d := FirstPending(session.decisions, id), Made(session, id, option);
    BagGains(session.decisions, k, d);
    RecordAppend(record, d);
  }

  // ---------- Every run ----------

  ghost predicate SessionGood(s: Story, id: uint32) {
    && id in s.sessions && id in s.progressions
    && MembersOk(s.sessions[id]) && RecordOk(s.sessions[id], s.progressions[id])
  }

  ghost predicate Good(s: Story) {
    1 <= s.maxSessionSize <= 8 && forall id :: id in s.sessions ==> SessionGood(s, id)
  }

  lemma CreateGood(s: Story, host: uint32)
    requires Good(s)
    ensures Good(Step(s, Create(host)))
  {
    hide Succeeds, MembersOk;
    CreatedOk(host);
    var d := Step(s, Create(host));
    forall id | id in d.sessions ensures SessionGood(d, id) {
      assert id in s.sessions ==> SessionGood(s, id);
    }
  }

  lemma CreatedOk(host: uint32)
    ensures MembersOk(Created(host))
  {
  }

  lemma TimeoutsGood(s: Story, now: int)
    requires Good(s)
    ensures Good(Step(s, ProcessPending(now)))
  {
    hide ExpireAll, RecordOk;
    var d := Step(s, ProcessPending(now));
    forall id | id in d.sessions ensures SessionGood(d, id) {
      assert SessionGood(s, id);
      ExpiredDecisions(s.sessions[id].decisions, now, s.decisionTimeout);
      RecordKept(s.sessions[id], d.sessions[id], s.progressions[id]);
    }
  }

  lemma RecordKept(session: Session, session': Session, record: seq<Decision>)
    requires RecordOk(session, record)
    requires DecisionsStep(session.decisions, session'.decisions) || session' == session
    ensures RecordOk(session', record)
  {
    if session' != session {
      BagGrows(session.decisions, session'.decisions);
    }
  }

  lemma NamedGood(s: Story, op: Op)
    requires Good(s) && NamesSession(op) && Succeeds(s, op)
    ensures Good(Step(s, op))
  {
    hide MembersOk, RecordOk, DecisionsStep, FirstPending, RemoveFirst;
    var id, d := op.sessionId, Step(s, op);
    var session := s.sessions[id];
    assert SessionGood(s, id);
    ChangedOk(s, op);
    if op.Make? {
      MadeRecorded(session, s.progressions[id], op.decisionId, op.optionIndex);
    } else {
      ChangedDecisions(s, op);
      RecordKept(session, d.sessions[id], s.progressions[id]);
    }
    forall j | j in d.sessions ensures SessionGood(d, j) {
      assert SessionGood(s, j);
    }
  }

  lemma StepGood(s: Story, op: Op)
    requires Good(s)
    ensures Good(Step(s, op))
  {
    hide Succeeds, SessionGood;
    if Succeeds(s, op) {
      if op.Create? {
        CreateGood(s, op.hostPlayerId);
      } else if op.ProcessPending? {
        TimeoutsGood(s, op.now);
      } else if op.SetMaxSize? {
        SizeGood(s, op.maxSize);
      } else {
        NamedGood(s, op);
      }
    }
  }

  lemma SizeGood(s: Story, n: uint32)
    requires Good(s)
    ensures Good(Step(s, SetMaxSize(n)))
  {
    hide MembersOk, RecordOk;
    var d := Step(s, SetMaxSize(n));
    forall id | id in d.sessions ensures SessionGood(d, id) {
      assert SessionGood(s, id);
    }
  }

  lemma {:induction false} RunGood(timeout: int, ops: seq<Op>)
    ensures Good(After(Start(timeout), ops))
  {
    hide Step, SessionGood;
    if ops != [] {
      RunGood(timeout, ops[..|ops| - 1]);
      StepGood(After(Start(timeout), ops[..|ops| - 1]), ops[|ops| - 1]);
    }
  }

  // ---------- Decisions over a run ----------

  // No session created on the way takes over the id.
  ghost predicate NotReused(s: Story, ops: seq<Op>, id: uint32) {
    ops == [] || (
      var front := ops[..|ops| - 1];
      NotReused(s, front, id) && (ops[|ops| - 1].Create? ==> After(s, front).nextSessionId != id))
  }

  lemma StepDecisions(s: Story, op: Op, id: uint32)
    requires id in s.sessions && (op.Create? ==> s.nextSessionId != id)
    ensures id in Step(s, op).sessions
    ensures DecisionsStep(s.sessions[id].decisions, Step(s, op).sessions[id].decisions)
  {
    hide FirstPending, RemoveFirst, ExpireAll, Changed;
    if op.ProcessPending? {
      ExpiredDecisions(s.sessions[id].decisions, op.now, s.decisionTimeout);
    } else if NamesSession(op) && Succeeds(s, op) {
      ChangedDecisions(s, op);
    }
  }

  // Nothing of a decision ever changes but its completion and the option chosen then, and
  // once completed it stays as it is.
  lemma {:induction false} CompletedForever(s: Story, ops: seq<Op>, id: uint32)
    requires id in s.sessions && NotReused(s, ops, id)
    ensures id in After(s, ops).sessions
    ensures var a, b := s.sessions[id].decisions, After(s, ops).sessions[id].decisions;
      DecisionsStep(a, b) && forall i :: 0 <= i < |a| && a[i].isCompleted ==> b[i] == a[i]
  {
    hide Step;
    if ops != [] {
      var front, op := ops[..|ops| - 1], ops[|ops| - 1];
      CompletedForever(s, front, id);
      StepDecisions(After(s, front), op, id);
      DecisionsStepTransitive(s.sessions[id].decisions, After(s, front).sessions[id].decisions,
                              After(s, ops).sessions[id].decisions);
    }
  }

  lemma DecisionsStepTransitive(a: seq<Decision>, b: seq<Decision>, c: seq<Decision>)
    requires DecisionsStep(a, b) && DecisionsStep(b, c)
    ensures DecisionsStep(a, c)
  {
    forall i | 0 <= i < |a| ensures DecisionStep(a[i], c[i]) {
      assert DecisionStep(a[i], b[i]) && DecisionStep(b[i], c[i]);
    }
  }

  // ---------- What is recorded ----------

  // A made decision is completed in its session and recorded, as one and the same copy, and
  // nothing else is touched. No other call records anything in a session that stays.
  lemma MakeRecords(s: Story, id: uint32, decisionId: uint32, option: uint32) returns (i: nat)
    requires Succeeds(s, Make(id, decisionId, option))
    ensures var a, d := s.sessions[id].decisions, Step(s, Make(id, decisionId, option));
      && i < |a| && a[i].decisionId == decisionId && !a[i].isCompleted
      && a[i].hostPlayerId == s.sessions[id].hostPlayerId
      && (forall k :: 0 <= k < i ==> a[k].decisionId != decisionId || a[k].isCompleted)
      && var made := a[i].(selectedOption := option, isCompleted := true);
      && d.sessions == s.sessions[id := s.sessions[id].(decisions := a[i := made])]
      && d.progressions == s.progressions[id := Progression(s, id) + [made]]
      && CompletedBag(d.sessions[id].decisions) == CompletedBag(a) + multiset{made}
  {
    hide FirstPending, RemoveFirst, CompletedBag;
    i := FirstPending(s.sessions[id].decisions, decisionId);
    BagGains(s.sessions[id].decisions, i, Made(s.sessions[id], decisionId, option));
  }

  // The host recorded in a decision is compared with the present one: after a change of host
  // nobody can make what was presented before.
  lemma HostChangeStrands(s: Story, id: uint32, from: uint32, to: uint32, decisionId: uint32, option: uint32)
    requires from != to && Succeeds(s, TransferHost(id, from, to))
    requires Succeeds(s, Make(id, decisionId, option))
    ensures !Succeeds(Step(s, TransferHost(id, from, to)), Make(id, decisionId, option))
  {
    hide FirstPending;
  }

  // Player 1 asks players 1 and 2 a question with one answer.
  const ASKED: Story := Story(true,
    map[1 := Session(1, [1, 2], map[1 := Host, 2 := Participant],
                     [Decision(1, "", "", "", ["yes"], 0, 1, 0, false)], true)],
    map[1 := []], 2, 2, 4, 30)

  lemma AskedPending()
    ensures FirstPending(ASKED.sessions[1].decisions, 1) == 0
  {
  }

  // The eighth answer is taken, and after a change of host none is.
  lemma AnswersUnchecked()
    ensures Succeeds(ASKED, Make(1, 1, 7)) && |ASKED.sessions[1].decisions[0].options| == 1
    ensures var asked := ASKED.sessions[1].decisions[0];
      Step(ASKED, Make(1, 1, 7)).progressions[1] == [asked.(selectedOption := 7, isCompleted := true)]
    ensures Succeeds(ASKED, TransferHost(1, 1, 2)) && !Succeeds(Step(ASKED, TransferHost(1, 1, 2)), Make(1, 1, 0))
  {
    hide FirstPending;
    AskedPending();
    HostChangeStrands(ASKED, 1, 1, 2, 1, 0);
  }

  lemma OthersRecordNothing(s: Story, op: Op, id: uint32)
    requires id in s.sessions && !op.Make? && (op.Create? ==> s.nextSessionId != id)
    ensures Progression(Step(s, op), id) == Progression(s, id)
  {
    hide Changed, ExpireAll, Succeeds;
  }

  ghost predicate DistinctIds(ds: seq<Decision>) {
    forall i, j :: 0 <= i < j < |ds| ==> ds[i].decisionId != ds[j].decisionId
  }

  lemma {:induction false} BagCounts(ds: seq<Decision>, d: Decision)
    ensures d in CompletedBag(ds) ==> d in ds && d.isCompleted
    ensures DistinctIds(ds) ==> CompletedBag(ds)[d] <= 1
  {
    if ds != [] {
      var front, last := ds[..|ds| - 1], ds[|ds| - 1];
      BagCounts(front, d);
      assert DistinctIds(ds) ==> last !in front;
      assert last in ds && forall x :: x in front ==> x in ds;
    }
  }

  lemma TwiceInBag(record: seq<Decision>, i: nat, j: nat)
    requires i < j < |record| && record[i] == record[j]
    ensures multiset(record)[record[i]] >= 2
  {
    assert record == record[..j] + [record[j]] + record[j + 1..];
    assert record[..j][i] == record[i];
    assert record[i] in multiset(record[..j]);
  }

  lemma RecordedIsCompleted(session: Session, record: seq<Decision>, k: nat)
    requires RecordOk(session, record) && k < |record|
    ensures record[k] in session.decisions && record[k].isCompleted
  {
    assert record[k] in multiset(record);
    BagCounts(session.decisions, record[k]);
  }

  lemma RecordedOnce(session: Session, record: seq<Decision>)
    requires RecordOk(session, record) && DistinctIds(session.decisions)
    ensures DistinctIds(record)
  {
    hide CompletedBag;
    forall i, j | 0 <= i < j < |record| ensures record[i].decisionId != record[j].decisionId {
      RecordedIsCompleted(session, record, i);
      RecordedIsCompleted(session, record, j);
      if record[i] == record[j] {
        TwiceInBag(record, i, j);
        BagCounts(session.decisions, record[i]);
      }
    }
  }

  // The decision ids handed out in a run.
  function Issues(s: Story, ops: seq<Op>): nat {
    if ops == [] then 0 else
    var before, op := After(s, ops[..|ops| - 1]), ops[|ops| - 1];
    Issues(s, ops[..|ops| - 1]) + if op.Present? && Succeeds(before, op) then 1 else 0
  }

  // The ids of a session's decisions are distinct and among the first n handed out.
  ghost predicate IdsOk(session: Session, n: nat) {
    && DistinctIds(session.decisions)
    && forall i :: 0 <= i < |session.decisions| ==> Issued(session.decisions[i].decisionId, n)
  }

  lemma SameIds(a: Session, b: Session, n: nat, n': nat)
    requires IdsOk(a, n) && n <= n' && |a.decisions| == |b.decisions| && DecisionsStep(a.decisions, b.decisions)
    ensures IdsOk(b, n')
  {
    forall i | 0 <= i < |b.decisions|
      ensures b.decisions[i].decisionId == a.decisions[i].decisionId && Issued(b.decisions[i].decisionId, n')
    {
      assert DecisionStep(a.decisions[i], b.decisions[i]) && Issued(a.decisions[i].decisionId, n);
    }
  }

  lemma PresentedIds(s: Story, op: Op, n: nat)
    requires op.Present? && Succeeds(s, op) && n < WORD && s.nextDecisionId == (1 + n) % WORD
    requires IdsOk(s.sessions[op.sessionId], n)
    ensures IdsOk(Step(s, op).sessions[op.sessionId], n + 1)
  {
    NextNotIssued(n);
  }

  lemma LengthKept(s: Story, op: Op, id: uint32)
    requires id in s.sessions && id in Step(s, op).sessions
    requires !op.Create? && !(op.Present? && Succeeds(s, op) && op.sessionId == id)
    ensures |Step(s, op).sessions[id].decisions| == |s.sessions[id].decisions|
  {
    hide FirstPending, RemoveFirst;
  }

  lemma StepIds(s: Story, op: Op, n: nat, id: uint32)
    requires s.nextDecisionId == (1 + n) % WORD && (op.Present? && Succeeds(s, op) ==> n < WORD)
    requires id in Step(s, op).sessions && (id in s.sessions ==> IdsOk(s.sessions[id], n))
    ensures IdsOk(Step(s, op).sessions[id], n + if op.Present? && Succeeds(s, op) then 1 else 0)
  {
    hide IdsOk, FirstPending, RemoveFirst, ExpireAll, Changed;
    var d := Step(s, op);
    if op.Create? && Succeeds(s, op) && id == s.nextSessionId {
      NoIds(d.sessions[id], n);
    } else if op.Present? && Succeeds(s, op) && op.sessionId == id {
      PresentedIds(s, op, n);
    } else if op.Create? {
      assert d.sessions[id] == s.sessions[id];
    } else {
      StepDecisions(s, op, id);
      LengthKept(s, op, id);
      SameIds(s.sessions[id], d.sessions[id], n, n + if op.Present? && Succeeds(s, op) then 1 else 0);
    }
  }

  lemma NoIds(session: Session, n: nat)
    requires session.decisions == []
    ensures IdsOk(session, n)
  {
  }

  lemma StepCounter(s: Story, op: Op, n: nat)
    requires s.nextDecisionId == (1 + n) % WORD
    ensures Step(s, op).nextDecisionId == (1 + n + if op.Present? && Succeeds(s, op) then 1 else 0) % WORD
  {
    hide Succeeds, Changed, ExpireAll;
  }

  lemma {:induction false} RunIds(timeout: int, ops: seq<Op>)
    requires Issues(Start(timeout), ops) <= WORD
    ensures var s, n := After(Start(timeout), ops), Issues(Start(timeout), ops);
      s.nextDecisionId == (1 + n) % WORD && forall id :: id in s.sessions ==> IdsOk(s.sessions[id], n)
  {
    hide Step, IdsOk, Succeeds;
    if ops != [] {
      var front, op := ops[..|ops| - 1], ops[|ops| - 1];
      var before, n := After(Start(timeout), front), Issues(Start(timeout), front);
      RunIds(timeout, front);
      StepCounter(before, op, n);
      forall id | id in Step(before, op).sessions
        ensures IdsOk(Step(before, op).sessions[id], n + if op.Present? && Succeeds(before, op) then 1 else 0)
      {
        StepIds(before, op, n, id);
      }
    }
  }

  // Over the first 2^32 decisions: the recorded ones are completed decisions of their session,
  // and none is recorded twice.
  lemma RunRecordsOnce(timeout: int, ops: seq<Op>, id: uint32)
    requires Issues(Start(timeout), ops) <= WORD && id in After(Start(timeout), ops).sessions
    ensures var s := After(Start(timeout), ops);
      && id in s.progressions && DistinctIds(s.progressions[id])
      && forall k :: 0 <= k < |s.progressions[id]| ==>
           s.progressions[id][k] in s.sessions[id].decisions && s.progressions[id][k].isCompleted
  {
    hide After, Issues, MembersOk, RecordOk, DistinctIds;
    var s := After(Start(timeout), ops);
    RunGood(timeout, ops);
    RunIds(timeout, ops);
    assert SessionGood(s, id);
    RecordedOnce(s.sessions[id], s.progressions[id]);
    forall k | 0 <= k < |s.progressions[id]|
      ensures s.progressions[id][k] in s.sessions[id].decisions && s.progressions[id][k].isCompleted
    {
      RecordedIsCompleted(s.sessions[id], s.progressions[id], k);
    }
  }

  // ---------- The class ----------

  class SharedStoryMode {
    var initialized: bool
    var sessions: map<uint32, Session>
    var progressions: map<uint32, seq<Decision>>
    var nextSessionId: uint32
    var nextDecisionId: uint32
    var maxSessionSize: uint32
    const decisionTimeout: int

    ghost function Snapshot(): Story
      reads this
    {
      Story(initialized, sessions, progressions, nextSessionId, nextDecisionId, maxSessionSize, decisionTimeout)
    }

    constructor (timeout: int)
      ensures Snapshot() == Start(timeout).(initialized := false)
    {
      initialized, sessions, progressions := false, map[], map[];
      nextSessionId, nextDecisionId, maxSessionSize, decisionTimeout := 1, 1, 4, timeout;
    }

    method Initialize()
      modifies this
      ensures Snapshot() == old(Snapshot()).(initialized := true)
    {
      initialized := true;
    }

    // 0 when not initialized.
    method CreateStorySession(hostPlayerId: uint32) returns (id: uint32)
      modifies this
      ensures id == if old(initialized) then old(nextSessionId) else 0
      ensures Snapshot() == Step(old(Snapshot()), Create(hostPlayerId))
    {
      if !initialized {
        return 0;
      }
      id := nextSessionId;
      nextSessionId := Add32(nextSessionId, 1);
      sessions := sessions[id := Session(hostPlayerId, [hostPlayerId], map[hostPlayerId := Host], [], true)];
      progressions := progressions[id := []];
    }

    method JoinStorySession(id: uint32, playerId: uint32, role: Role) returns (ok: bool)
      modifies this
      ensures ok == Succeeds(old(Snapshot()), Join(id, playerId, role))
      ensures Snapshot() == Step(old(Snapshot()), Join(id, playerId, role))
    {
      if id !in sessions || !sessions[id].isActive {
        return false;
      }
      var session := sessions[id];
      if |session.participants| >= maxSessionSize || playerId in session.participants {
        return false;
      }
      sessions := sessions[id := session.(participants := session.participants + [playerId],
                                          playerRoles := session.playerRoles[playerId := role])];
      return true;
    }

    method LeaveStorySession(id: uint32, playerId: uint32) returns (ok: bool)
      modifies this
      ensures ok == (id in old(sessions))
      ensures Snapshot() == if ok then old(Snapshot()).(sessions := old(sessions)[id := Left(old(sessions)[id], playerId)])
                            else old(Snapshot())
    {
      hide RemoveFirst;
      if id !in sessions {
        return false;
      }
      var rest := Erase(sessions[id].participants, playerId);
      var session := sessions[id].(participants := rest, playerRoles := sessions[id].playerRoles - {playerId});
      if session.hostPlayerId == playerId && rest != [] {
        session := session.(hostPlayerId := rest[0], playerRoles := session.playerRoles[rest[0] := Host]);
      }
      sessions := sessions[id := session];
      if rest == [] {
        var ended := EndStorySession(id);
      }
      return true;
    }

    method EndStorySession(id: uint32) returns (ok: bool)
      modifies this`sessions
      ensures ok == Succeeds(old(Snapshot()), End(id))
      ensures Snapshot() == Step(old(Snapshot()), End(id))
    {
      if id !in sessions {
        return false;
      }
      sessions := sessions[id := sessions[id].(isActive := false)];
      return true;
    }

    method SetPlayerRole(id: uint32, playerId: uint32, role: Role) returns (ok: bool)
      modifies this
      ensures ok == Succeeds(old(Snapshot()), SetRole(id, playerId, role))
      ensures Snapshot() == Step(old(Snapshot()), SetRole(id, playerId, role))
    {
      if id !in sessions || !sessions[id].isActive || playerId !in sessions[id].participants {
        return false;
      }
      var session := sessions[id];
      sessions := sessions[id := session.(playerRoles := session.playerRoles[playerId := role])];
      return true;
    }

    method TransferHost(id: uint32, fromPlayerId: uint32, toPlayerId: uint32) returns (ok: bool)
      modifies this
      ensures ok == Succeeds(old(Snapshot()), Op.TransferHost(id, fromPlayerId, toPlayerId))
      ensures Snapshot() == Step(old(Snapshot()), Op.TransferHost(id, fromPlayerId, toPlayerId))
    {
      if id !in sessions || !sessions[id].isActive || sessions[id].hostPlayerId != fromPlayerId
         || toPlayerId !in sessions[id].participants {
        return false;
      }
      var session := sessions[id].(hostPlayerId := toPlayerId);
      session := session.(playerRoles := session.playerRoles[fromPlayerId := Participant]);
      session := session.(playerRoles := session.playerRoles[toPlayerId := Host]);
      sessions := sessions[id := session];
      return true;
    }

    method KickPlayer(id: uint32, playerId: uint32) returns (ok: bool)
      modifies this
      ensures ok == Succeeds(old(Snapshot()), Kick(id, playerId))
      ensures Snapshot() == Step(old(Snapshot()), Kick(id, playerId))
    {
      hide Left;
      if id !in sessions || !sessions[id].isActive || playerId !in sessions[id].participants {
        return false;
      }
      var left := LeaveStorySession(id, playerId);
      return true;
    }

    method PresentStoryDecision(id: uint32, decision: Decision, now: int) returns (ok: bool)
      modifies this
      ensures ok == Succeeds(old(Snapshot()), Present(id, decision, now))
      ensures Snapshot() == Step(old(Snapshot()), Present(id, decision, now))
    {
      if id !in sessions || !sessions[id].isActive {
        return false;
      }
      var copy := decision.(decisionId := nextDecisionId);
      nextDecisionId := Add32(nextDecisionId, 1);
      copy := copy.(hostPlayerId := sessions[id].hostPlayerId, timestamp := now);
      sessions := sessions[id := sessions[id].(decisions := sessions[id].decisions + [copy])];
      return true;
    }

    method FindPending(id: uint32, decisionId: uint32) returns (k: nat)
      requires id in sessions
      ensures k == FirstPending(sessions[id].decisions, decisionId)
    {
      var decisions := sessions[id].decisions;
      k := 0;
      while k < |decisions| && (decisions[k].decisionId != decisionId || decisions[k].isCompleted)
        invariant k <= |decisions|
        invariant forall i :: 0 <= i < k ==> decisions[i].decisionId != decisionId || decisions[i].isCompleted
      {
        k := k + 1;
      }
    }

    method MakeStoryDecision(id: uint32, decisionId: uint32, optionIndex: uint32) returns (ok: bool)
      modifies this
      ensures ok == Succeeds(old(Snapshot()), Make(id, decisionId, optionIndex))
      ensures Snapshot() == Step(old(Snapshot()), Make(id, decisionId, optionIndex))
    {
      hide FirstPending;
      if id !in sessions || !sessions[id].isActive {
        return false;
      }
      var session := sessions[id];
      var k := FindPending(id, decisionId);
      if k == |session.decisions| || session.decisions[k].hostPlayerId != session.hostPlayerId {
        return false;
      }
      var decision := session.decisions[k].(selectedOption := optionIndex, isCompleted := true);
      sessions := sessions[id := session.(decisions := session.decisions[k := decision])];
      var record := if id in progressions then progressions[id] else [];
      progressions := progressions[id := record + [decision]];
      return true;
    }

    method SkipStoryDecision(id: uint32, decisionId: uint32) returns (ok: bool)
      modifies this
      ensures ok == Succeeds(old(Snapshot()), Skip(id, decisionId))
      ensures Snapshot() == Step(old(Snapshot()), Skip(id, decisionId))
    {
      hide FirstPending;
      if id !in sessions || !sessions[id].isActive {
        return false;
      }
      var session := sessions[id];
      var k := FindPending(id, decisionId);
      if k == |session.decisions| {
        return false;
      }
      var decision := session.decisions[k].(isCompleted := true);
      sessions := sessions[id := session.(decisions := session.decisions[k := decision])];
      return true;
    }

    method IsDecisionTimeout(id: uint32, decisionId: uint32, now: int) returns (r: bool)
      ensures r <==> id in sessions && TimedOut(sessions[id].decisions, decisionId, now, decisionTimeout)
    {
      if id !in sessions {
        return false;
      }
      var decisions := sessions[id].decisions;
      for i := 0 to |decisions|
        invariant forall k :: 0 <= k < i ==> decisions[k].decisionId != decisionId
      {
        if decisions[i].decisionId == decisionId {
          return now - decisions[i].timestamp >= decisionTimeout;
        }
      }
      return false;
    }

    // The inner loop of ProcessPendingDecisions.
    method ProcessSession(id: uint32, now: int)
      requires id in sessions
      modifies this`sessions
      ensures var session := old(sessions)[id];
        sessions == old(sessions)[id := session.(decisions := ExpireAll(session.decisions, now, decisionTimeout))]
    {
      hide TimedOut;
      ghost var session := sessions[id];
      ghost var before := session.decisions;
      var i := 0;
      while i < |sessions[id].decisions|
        invariant id in sessions && i <= |before| == |sessions[id].decisions|
        invariant sessions == old(sessions)[id := session.(decisions := sessions[id].decisions)]
        invariant forall k :: 0 <= k < |before| ==>
          sessions[id].decisions[k] == if k < i then Expired(before, k, now, decisionTimeout) else before[k]
      {
        var decision := sessions[id].decisions[i];
        var late := IsDecisionTimeout(id, decision.decisionId, now);
        SameTimeouts(before, sessions[id].decisions, decision.decisionId, now, decisionTimeout);
        if !decision.isCompleted && late {
          decision := decision.(selectedOption := 0, isCompleted := true);
          sessions := sessions[id := sessions[id].(decisions := sessions[id].decisions[i := decision])];
        }
        i := i + 1;
      }
      assert sessions[id].decisions == ExpireAll(before, now, decisionTimeout);
    }

    method ProcessPendingDecisions(now: int)
      modifies this`sessions
      ensures Snapshot() == Step(old(Snapshot()), ProcessPending(now))
    {
      hide ExpireAll;
      var todo := sessions.Keys;
      while todo != {}
        invariant todo <= sessions.Keys == old(sessions).Keys
        invariant forall id :: id in sessions ==>
          sessions[id] == if id in todo then old(sessions)[id] else AfterTimeouts(old(sessions)[id], now, decisionTimeout)
        decreases |todo|
      {
        var id :| id in todo;
        todo := todo - {id};
        if sessions[id].isActive {
          ProcessSession(id, now);
        }
      }
    }

    method SetMaxSessionSize(maxSize: uint32)
      modifies this
      ensures Snapshot() == Step(old(Snapshot()), SetMaxSize(maxSize))
    {
      var atMost := if maxSize < 8 then maxSize else 8;
      maxSessionSize := if atMost > 1 then atMost else 1;
    }
  }

  // Completing decisions does not change which of them have timed out.
  lemma SameTimeouts(a: seq<Decision>, b: seq<Decision>, id: uint32, now: int, timeout: int)
    requires |a| == |b|
    requires forall k :: 0 <= k < |a| ==> b[k].decisionId == a[k].decisionId && b[k].timestamp == a[k].timestamp
    ensures TimedOut(a, id, now, timeout) <==> TimedOut(b, id, now, timeout)
  {
  }
}
