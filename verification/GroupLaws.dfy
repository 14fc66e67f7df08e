// How a group fills, and how its lead passes on.
//
//   LeaderIsEldest   in every run the leader is whoever of the members has been in longest
//   LeaveExactly     whoever leaves is gone, the others stay in order, and the group goes with
//                    its last member
//   JoinsFill        a group takes different players, in order, up to the size limit
//   LeadPasses       members who leave in order lead one after the other
module GroupLaws {
  import opened Words
  import opened Seqs
  import opened Roster
  import opened QuestGroups

  ghost predicate EldestLeads(s: Groups) {
    forall g :: g in s.groups ==> s.groups[g].members != [] && s.groups[g].leader == s.groups[g].members[0]
  }

  lemma RemoveOther(s: seq<uint32>, p: uint32)
    requires s != [] && s[0] != p
    ensures RemoveFirst(s, p) != [] && RemoveFirst(s, p)[0] == s[0]
  {
  }

  lemma StepEldestLeads(s: Groups, op: Op)
    requires EldestLeads(s)
    ensures EldestLeads(Step(s, op))
  {
    hide EraseFrom, RemoveFirst;
    if op.Leave? && op.groupId in s.groups && s.groups[op.groupId].leader != op.playerId {
      RemoveOther(s.groups[op.groupId].members, op.playerId);
    }
  }

  lemma {:induction false} LeaderIsEldest(maxGroupSize: uint32, ops: seq<Op>)
    ensures EldestLeads(After(Start(maxGroupSize), ops))
  {
    hide Step, EldestLeads;
    if ops == [] {
      NoGroups(maxGroupSize);
    } else {
      LeaderIsEldest(maxGroupSize, ops[..|ops| - 1]);
      StepEldestLeads(After(Start(maxGroupSize), ops[..|ops| - 1]), ops[|ops| - 1]);
    }
  }

  lemma NoGroups(maxGroupSize: uint32)
    ensures EldestLeads(Start(maxGroupSize))
  {
  }

  lemma LeaveFrom(s: Groups, g: uint32, a: seq<uint32>, p: uint32, b: seq<uint32>)
    requires EldestLeads(s) && g in s.groups && s.groups[g].members == a + [p] + b && p !in a
    ensures var t := Step(s, Leave(g, p));
      t.groups == if a + b == [] then s.groups - {g}
                  else s.groups[g := s.groups[g].(members := a + b, leader := (a + b)[0])]
  {
    hide EraseFrom, RemoveFirst;
    RemovedFrom(a, p, b);
    var group := s.groups[g];
    assert group.members[|a|] == p;
    if a != [] {
      assert group.members[0] == a[0] && a[0] in a && (a + b)[0] == a[0];
    }
    if a + b == [] {
      assert s.groups[g := group.(members := a + b)] - {g} == s.groups - {g};
    }
  }

  // In every state of every run in which no id in use is handed out.
  lemma LeaveExactly(maxGroupSize: uint32, ops: seq<Op>, g: uint32, a: seq<uint32>, p: uint32, b: seq<uint32>)
    requires FreshRun(maxGroupSize, ops) && g in After(Start(maxGroupSize), ops).groups
    requires After(Start(maxGroupSize), ops).groups[g].members == a + [p] + b
    ensures var s := After(Start(maxGroupSize), ops);
      var t := Step(s, Leave(g, p));
      t.groups == if a + b == [] then s.groups - {g}
                  else s.groups[g := s.groups[g].(members := a + b, leader := (a + b)[0])]
  {
    hide After, EldestLeads, Step, Distinct;
    IndexesAgree(maxGroupSize, ops);
    LeaderIsEldest(maxGroupSize, ops);
    DistinctApart(a, p, b);
    LeaveFrom(After(Start(maxGroupSize), ops), g, a, p, b);
  }

  // ---------- Joining ----------

  function Joins(g: uint32, players: seq<uint32>): seq<Op> {
    seq(|players|, k requires 0 <= k < |players| => Join(g, players[k]))
  }

  lemma JoinStep(s: Groups, g: uint32, p: uint32)
    requires g in s.groups && s.groups[g].isActive
    ensures var group, t := s.groups[g], Step(s, Join(g, p));
      && t.maxGroupSize == s.maxGroupSize
      && t.groups == s.groups[g := group.(members :=
           if |group.members| < s.maxGroupSize && p !in group.members then group.members + [p] else group.members)]
  {
    assert s.groups[g := s.groups[g]] == s.groups;
  }

  lemma AfterOne(s: Groups, ops: seq<Op>, op: Op)
    ensures After(s, ops + [op]) == Step(After(s, ops), op)
  {
    hide Step;
    assert (ops + [op])[..|ops + [op]| - 1] == ops;
  }

  lemma JoinsLast(s: Groups, g: uint32, front: seq<uint32>, last: uint32)
    ensures After(s, Joins(g, front + [last])) == Step(After(s, Joins(g, front)), Join(g, last))
  {
    hide Step, After;
    assert Joins(g, front + [last]) == Joins(g, front) + [Join(g, last)];
    AfterOne(s, Joins(g, front), Join(g, last));
  }

  lemma NoJoins(s: Groups, g: uint32)
    ensures After(s, Joins(g, [])) == s
  {
  }

  lemma {:induction false} JoinsAppend(s: Groups, g: uint32, players: seq<uint32>)
    requires g in s.groups && s.groups[g].isActive && |s.groups[g].members| <= s.maxGroupSize
    requires Distinct(s.groups[g].members + players)
    ensures var group, t := s.groups[g], After(s, Joins(g, players));
      && t.maxGroupSize == s.maxGroupSize && g in t.groups
      && t.groups[g] == group.(members := Taken(group.members + players, s.maxGroupSize))
    decreases |players|
  {
    hide Step, After, Joins, Taken, Distinct;
    var members := s.groups[g].members;
    if players == [] {
      NoJoins(s, g);
      DropNone(members);
      TakesAll(members, s.maxGroupSize);
    } else {
      var front, last := players[..|players| - 1], players[|players| - 1];
      assert front + [last] == players;
      Assoc(members, front, [last]);
      DistinctFront(members + front, last);
      JoinsAppend(s, g, front);
      JoinsLast(s, g, front, last);
      JoinStep(After(s, Joins(g, front)), g, last);
      TakenNext(members + front, last, s.maxGroupSize);
    }
  }

  lemma CreateStep(s: Groups, name: string, leader: uint32)
    ensures var g, t := s.nextGroupId, Step(s, Create(name, leader));
      t.groups == s.groups[g := Group(name, leader, [leader], true)] && t.maxGroupSize == s.maxGroupSize
  {
  }

  lemma JoinsFill(s: Groups, name: string, leader: uint32, players: seq<uint32>)
    requires s.maxGroupSize >= 1 && Distinct([leader] + players)
    ensures var g, t := s.nextGroupId, After(Step(s, Create(name, leader)), Joins(s.nextGroupId, players));
      g in t.groups && t.groups[g] == Group(name, leader, Taken([leader] + players, s.maxGroupSize), true)
  {
    hide Step, Taken, Distinct;
    CreateStep(s, name, leader);
    JoinsAppend(Step(s, Create(name, leader)), s.nextGroupId, players);
  }

  // ---------- Leaving in order ----------

  function Leaves(g: uint32, players: seq<uint32>): seq<Op> {
    seq(|players|, k requires 0 <= k < |players| => Leave(g, players[k]))
  }

  lemma LeavesLast(s: Groups, g: uint32, members: seq<uint32>, k: nat)
    requires 0 < k <= |members|
    ensures After(s, Leaves(g, members[..k])) == Step(After(s, Leaves(g, members[..k - 1])), Leave(g, members[k - 1]))
  {
    hide Step, After;
    assert Leaves(g, members[..k]) == Leaves(g, members[..k - 1]) + [Leave(g, members[k - 1])];
    AfterOne(s, Leaves(g, members[..k - 1]), Leave(g, members[k - 1]));
  }

  lemma NoLeaves(s: Groups, g: uint32, members: seq<uint32>)
    ensures After(s, Leaves(g, members[..0])) == s
  {
  }

  // The group with its first k members gone.
  function Without(groups: map<uint32, Group>, g: uint32, k: nat): map<uint32, Group>
    requires g in groups && k <= |groups[g].members|
  {
    var group := groups[g];
    if k == |group.members| then groups - {g}
    else groups[g := group.(members := group.members[k..], leader := group.members[k])]
  }

  lemma WithoutNone(s: Groups, g: uint32)
    requires EldestLeads(s) && g in s.groups
    ensures Without(s.groups, g, 0) == s.groups
  {
    var group := s.groups[g];
    DropNone(group.members);
    assert s.groups[g := group] == s.groups;
  }

  lemma WithoutNext(s: Groups, t: Groups, g: uint32, k: nat)
    requires g in s.groups && k < |s.groups[g].members| && EldestLeads(t) && t.groups == Without(s.groups, g, k)
    ensures Step(t, Leave(g, s.groups[g].members[k])).groups == Without(s.groups, g, k + 1)
  {
    hide Step, EldestLeads;
    var members := s.groups[g].members;
    var p, rest := members[k], members[k + 1..];
    assert members[k..] == [] + [p] + rest;
    DropNone(rest);
    LeaveFrom(t, g, [], p, rest);
    assert s.groups[g := t.groups[g]] - {g} == s.groups - {g};
  }

  // The first k members leave: the next one leads; or nobody is left, and the group is gone.
  lemma {:induction false} LeadPasses(s: Groups, g: uint32, k: nat)
    requires EldestLeads(s) && g in s.groups && k <= |s.groups[g].members|
    ensures var t := After(s, Leaves(g, s.groups[g].members[..k]));
      EldestLeads(t) && t.groups == Without(s.groups, g, k)
    decreases k
  {
    hide Step, After, EldestLeads, Without;
    var members := s.groups[g].members;
    if k == 0 {
      NoLeaves(s, g, members);
      WithoutNone(s, g);
    } else {
      LeadPasses(s, g, k - 1);
      var before := After(s, Leaves(g, members[..k - 1]));
      LeavesLast(s, g, members, k);
      StepEldestLeads(before, Leave(g, members[k - 1]));
      WithoutNext(s, before, g, k - 1);
    }
  }
}
