// What every run of the quest calls keeps.
//
//   ClosureBeforeStart   a started quest had its whole prerequisite closure completed before
//   CycleNeverStarts     a quest on a prerequisite cycle never leaves its first state
//   TerminalForever      completed and abandoned quests stay as they are
//   MembershipAgrees     participants and player lists hold the same pairs
module QuestLaws {
  import opened Words
  import opened Roster
  import opened QuestModel

  // ---------- Prerequisites ----------

  ghost predicate Grounded(w: World) {
    forall q :: q in w.quests && Started(w.quests[q]) ==> PrerequisitesMet(w, w.quests[q])
  }

  // How the state of one quest can change in a step.
  lemma StateChanges(w: World, op: Op, q: uint32)
    requires q in w.quests
    ensures var s, s' := w.quests[q].state, Step(w, op).quests[q].state;
      || s' == s
      || (s == Available && s' == InProgress && op.Start? && op.questId == q && Succeeds(w, op))
      || (s == InProgress && (s' == Completed || s' == Abandoned))
  {
  }

  lemma StepGrounded(w: World, op: Op)
    requires Grounded(w)
    ensures Grounded(Step(w, op))
  {
    hide Step, Succeeds, SameQuest;
    var d := Step(w, op);
    forall q | q in d.quests && Started(d.quests[q]) ensures PrerequisitesMet(d, d.quests[q]) {
      PrerequisitesKept(w, op, q);
      StateChanges(w, op, q);
      StartChecked(w, op, q);
    }
  }

  lemma StartChecked(w: World, op: Op, q: uint32)
    requires q in w.quests
    ensures op.Start? && op.questId == q && Succeeds(w, op) ==>
      w.quests[q].state == Available && PrerequisitesMet(w, w.quests[q])
  {
  }

  lemma PrerequisitesKept(w: World, op: Op, q: uint32)
    requires q in w.quests
    ensures PrerequisitesMet(w, w.quests[q]) ==> PrerequisitesMet(Step(w, op), Step(w, op).quests[q])
  {
    hide Step, Succeeds;
    var d := Step(w, op);
    assert SameQuest(w.quests[q], d.quests[q]);
    if PrerequisitesMet(w, w.quests[q]) {
      forall r | r in d.quests[q].requiredQuests ensures r in d.quests && d.quests[r].state == Completed {
        assert r in w.quests && w.quests[r].state == Completed;
        StateChanges(w, op, r);
      }
    }
  }

  lemma {:induction false} RunGrounded(w: World, ops: seq<Op>)
    requires Initial(w)
    ensures Grounded(After(w, ops))
  {
    hide Step, Grounded;
    if ops == [] {
      InitialGrounded(w);
    } else {
      var front := ops[..|ops| - 1];
      RunGrounded(w, front);
      StepGrounded(After(w, front), ops[|ops| - 1]);
    }
  }

  lemma InitialGrounded(w: World)
    requires Initial(w)
    ensures Grounded(w)
  {
  }

  predicate Requires(w: World, q: uint32, r: uint32) {
    q in w.quests && r in w.quests[q].requiredQuests
  }

  // Each quest on the path requires the next one.
  ghost predicate Chain(w: World, path: seq<uint32>) {
    && path != [] && path[0] in w.quests
    && forall i :: 0 <= i < |path| - 1 ==> Requires(w, path[i], path[i + 1])
  }

  // Everything q requires, directly or through others, is completed in d.
  ghost predicate ClosureCompleted(w: World, d: World, q: uint32) {
    forall path: seq<uint32>, k: nat :: Chain(w, path) && path[0] == q && 1 <= k < |path| ==>
      path[k] in d.quests && d.quests[path[k]].state == Completed
  }

  lemma {:induction false} ChainCompleted(w: World, d: World, path: seq<uint32>, k: nat)
    requires SameWorld(w, d) && Grounded(d) && Chain(w, path)
    requires PrerequisitesMet(d, d.quests[path[0]])
    requires 1 <= k < |path|
    ensures path[k] in d.quests && d.quests[path[k]].state == Completed
  {
    if k > 1 {
      ChainCompleted(w, d, path, k - 1);
    }
    var r := path[k - 1];
    assert Requires(w, path[k - 1], path[k - 1 + 1]);
    assert SameQuest(w.quests[r], d.quests[r]);
    assert PrerequisitesMet(d, d.quests[r]);
  }

  // The i-th call of the run starts q.
  ghost predicate StartsAt(w: World, ops: seq<Op>, i: nat, q: uint32) {
    i < |ops| && ops[i].Start? && ops[i].questId == q && Succeeds(After(w, ops[..i]), ops[i])
  }

  lemma {:induction false} StartedSomewhere(w: World, ops: seq<Op>, q: uint32) returns (i: nat)
    requires Initial(w) && q in w.quests && Started(After(w, ops).quests[q])
    ensures StartsAt(w, ops, i, q)
  {
    hide Step, Succeeds, SameQuest;
    var n := |ops| - 1;
    var front := ops[..n];
    if Started(After(w, front).quests[q]) {
      i := StartedSomewhere(w, front, q);
      assert front[..i] == ops[..i];
    } else {
      i := n;
      StateChanges(After(w, front), ops[n], q);
    }
  }

  lemma StartCompletesClosure(w: World, ops: seq<Op>, i: nat, q: uint32)
    requires Initial(w) && q in w.quests && StartsAt(w, ops, i, q)
    ensures After(w, ops[..i]).quests[q].state == Available
    ensures ClosureCompleted(w, After(w, ops[..i]), q)
  {
    hide After, Step;
    var d := After(w, ops[..i]);
    RunGrounded(w, ops[..i]);
    forall path: seq<uint32>, k: nat | Chain(w, path) && path[0] == q && 1 <= k < |path|
      ensures path[k] in d.quests && d.quests[path[k]].state == Completed
    {
      ChainCompleted(w, d, path, k);
    }
  }

  // Whatever has been started by the end of a run was started by one of its calls, at a moment
  // when the whole closure of its prerequisites was completed.
  lemma ClosureBeforeStart(w: World, ops: seq<Op>, q: uint32) returns (i: nat)
    requires Initial(w) && q in w.quests && Started(After(w, ops).quests[q])
    ensures StartsAt(w, ops, i, q) && ClosureCompleted(w, After(w, ops[..i]), q)
  {
    i := StartedSomewhere(w, ops, q);
    StartCompletesClosure(w, ops, i, q);
  }

  lemma {:induction false} UnstartedSame(w: World, ops: seq<Op>, q: uint32)
    requires q in w.quests && !Started(After(w, ops).quests[q])
    ensures After(w, ops).quests[q].state == w.quests[q].state
  {
    hide Step, Succeeds;
    if ops != [] {
      var front := ops[..|ops| - 1];
      StateChanges(After(w, front), ops[|ops| - 1], q);
      UnstartedSame(w, front, q);
    }
  }

  lemma NoneStartsOnCycle(w: World, ops: seq<Op>, path: seq<uint32>)
    requires Initial(w) && Chain(w, path) && |path| >= 2 && path[|path| - 1] == path[0]
    ensures !Started(After(w, ops).quests[path[0]])
  {
    hide After, Started;
    if Started(After(w, ops).quests[path[0]]) {
      var i := StartedSomewhere(w, ops, path[0]);
      StartCompletesClosure(w, ops, i, path[0]);
      assert false;
    }
  }

  lemma CycleNeverStarts(w: World, ops: seq<Op>, path: seq<uint32>)
    requires Initial(w) && Chain(w, path) && |path| >= 2 && path[|path| - 1] == path[0]
    ensures After(w, ops).quests[path[0]].state == w.quests[path[0]].state
  {
    hide After, Started;
    NoneStartsOnCycle(w, ops, path);
    UnstartedSame(w, ops, path[0]);
  }

  // ---------- Terminal states ----------

  lemma TerminalStep(w: World, op: Op, q: uint32)
    requires q in w.quests && (w.quests[q].state == Completed || w.quests[q].state == Abandoned)
    ensures Step(w, op).quests[q].state == w.quests[q].state
    ensures Step(w, op).quests[q].objectives == w.quests[q].objectives
  {
  }

  lemma {:induction false} TerminalForever(w: World, ops: seq<Op>, i: nat, q: uint32)
    requires q in w.quests && i <= |ops|
    requires After(w, ops[..i]).quests[q].state == Completed || After(w, ops[..i]).quests[q].state == Abandoned
    ensures After(w, ops).quests[q].state == After(w, ops[..i]).quests[q].state
    ensures After(w, ops).quests[q].objectives == After(w, ops[..i]).quests[q].objectives
  {
    hide Step;
    if i < |ops| {
      var front := ops[..|ops| - 1];
      assert front[..i] == ops[..i];
      TerminalForever(w, front, i, q);
      TerminalStep(After(w, front), ops[|ops| - 1], q);
    } else {
      assert ops[..i] == ops;
    }
  }

  lemma RefusedChangesNothing(w: World, op: Op)
    requires !Succeeds(w, op)
    ensures Step(w, op) == w
  {
    hide Succeeds;
  }

  // ---------- Membership ----------

  function Participants(w: World): Lists {
    map q | q in w.quests :: w.quests[q].participants
  }

  // p takes part in q as often as q is in the list of p.
  ghost predicate Indexed(w: World) {
    Mutual(Participants(w), w.playerQuests)
  }

  // A cooperative quest never has more participants than places, any other at most its starter.
  predicate Capped(quest: Quest) {
    if quest.isCooperative then |quest.participants| <= quest.maxParticipants
    else |quest.participants| <= if Started(quest) then 1 else 0
  }

  lemma ChangedParticipants(w: World, op: Op, q: uint32)
    requires q in w.quests
    ensures Step(w, op).quests[q].participants ==
      if !Succeeds(w, op) || op.Fire? || op.questId != q then w.quests[q].participants
      else if op.Start? || op.Join? then w.quests[q].participants + [op.playerId]
      else if op.Abandon? || op.Leave? then RemoveFirst(w.quests[q].participants, op.playerId)
      else w.quests[q].participants
  {
    hide Succeeds, RemoveFirst;
  }

  predicate ChangesMembership(w: World, op: Op) {
    Succeeds(w, op) && (op.Start? || op.Join? || op.Abandon? || op.Leave?)
  }

  lemma MembershipSame(w: World, op: Op)
    requires !ChangesMembership(w, op)
    ensures Participants(Step(w, op)) == Participants(w) && Step(w, op).playerQuests == w.playerQuests
  {
    hide Succeeds;
    forall q | q in w.quests ensures Step(w, op).quests[q].participants == w.quests[q].participants {
      ChangedParticipants(w, op, q);
    }
    PlayersStep(w, op);
    hide Step;
    assert Step(w, op).quests.Keys == w.quests.Keys;
  }

  lemma PlayersStep(w: World, op: Op)
    ensures Step(w, op).playerQuests == StepPlayers(w, op)
  {
    hide Succeeds, StepPlayers;
  }

  // The quest's list and the player's list change in the same way.
  lemma MembershipStep(w: World, op: Op)
    requires ChangesMembership(w, op)
    ensures var a, d, q, p := Participants(w), Step(w, op), op.questId, op.playerId;
      && (op.Start? || op.Join? ==>
            && Participants(d) == a[q := Of(a, q) + [p]]
            && d.playerQuests == w.playerQuests[p := Of(w.playerQuests, p) + [q]])
      && (op.Abandon? || op.Leave? ==>
            && Participants(d) == a[q := RemoveFirst(Of(a, q), p)]
            && d.playerQuests == w.playerQuests[p := RemoveFirst(Of(w.playerQuests, p), q)])
  {
    hide Step, Succeeds, RemoveFirst;
    var a, d, q, p := Participants(w), Step(w, op), op.questId, op.playerId;
    NamedQuestExists(w, op);
    PlayersStep(w, op);
    var list := if op.Start? || op.Join? then Of(a, q) + [p] else RemoveFirst(Of(a, q), p);
    assert d.quests.Keys == w.quests.Keys;
    forall u | u in w.quests ensures Participants(d)[u] == a[q := list][u] {
      ChangedParticipants(w, op, u);
    }
    assert Participants(d) == a[q := list];
  }

  lemma StepIndexed(w: World, op: Op)
    requires Indexed(w)
    ensures Indexed(Step(w, op))
  {
    hide Step, Succeeds, RemoveFirst, Mutual, Participants;
    if ChangesMembership(w, op) {
      MembershipStep(w, op);
      AddKeepsMutual(Participants(w), w.playerQuests, op.questId, op.playerId);
      RemoveKeepsMutual(Participants(w), w.playerQuests, op.questId, op.playerId);
    } else {
      MembershipSame(w, op);
    }
  }

  lemma NamedQuestExists(w: World, op: Op)
    requires Succeeds(w, op) && !op.Fire?
    ensures op.questId in w.quests
  {
  }

  lemma StepCapped(w: World, op: Op, q: uint32)
    requires q in w.quests && Capped(w.quests[q])
    ensures Capped(Step(w, op).quests[q])
  {
  }

  lemma {:induction false} MembershipAgrees(w: World, ops: seq<Op>)
    requires Initial(w)
    ensures Indexed(After(w, ops))
    ensures forall q :: q in w.quests ==> Capped(After(w, ops).quests[q])
  {
    hide Step, Capped, Indexed;
    if ops == [] {
      InitialIndexed(w);
    } else {
      var front := ops[..|ops| - 1];
      MembershipAgrees(w, front);
      StepIndexed(After(w, front), ops[|ops| - 1]);
      forall q | q in w.quests ensures Capped(After(w, ops).quests[q]) {
        StepCapped(After(w, front), ops[|ops| - 1], q);
      }
    }
  }

  lemma InitialIndexed(w: World)
    requires Initial(w)
    ensures Indexed(w) && forall q :: q in w.quests ==> Capped(w.quests[q])
  {
    forall q: uint32, p: uint32 ensures Count(Of(Participants(w), q), p) == Count(Of(w.playerQuests, p), q) {
      assert Of(w.playerQuests, p) == [];
      assert Of(Participants(w), q) == [];
    }
  }
}
