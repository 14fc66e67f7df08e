// Player groups of src/game/CooperativeQuests.cpp.
//
//   IndexesAgree        g is in a player's list exactly when the player is in the group
//   RunGood             throughout a run, if and only if no id in use is handed out in it
//   FirstIdsAreFresh    which holds for the first 2^32 groups
module QuestGroups {
  import opened Words
  import opened Roster
  import opened Seqs

  datatype Group = Group(name: string, leader: uint32, members: seq<uint32>, isActive: bool)

  datatype Groups = Groups(groups: map<uint32, Group>, playerGroups: Lists, activeGroups: uint32,
                           nextGroupId: uint32, maxGroupSize: uint32)

  datatype Op =
    | Create(name: string, leaderId: uint32)
    | Join(groupId: uint32, playerId: uint32)
    | Leave(groupId: uint32, playerId: uint32)
    | Disband(groupId: uint32)

  // ---------- Steps ----------

  // The loop of DisbandGroup after n members.
  function EraseFrom(lists: Lists, members: seq<uint32>, n: nat, g: uint32): Lists
    requires n <= |members|
  {
    if n == 0 then lists else
    var before := EraseFrom(lists, members, n - 1, g);
    before[members[n - 1] := RemoveFirst(Of(before, members[n - 1]), g)]
  }

  predicate Succeeds(s: Groups, op: Op) {
    match op
    case Create(_, _) => true
    case Join(g, p) =>
      g in s.groups && s.groups[g].isActive && |s.groups[g].members| < s.maxGroupSize && p !in s.groups[g].members
    case Leave(g, _) => g in s.groups
    case Disband(g) => g in s.groups
  }

  function Disbanded(s: Groups, g: uint32): Groups
    requires g in s.groups
  {
    var members := s.groups[g].members;
    s.(playerGroups := EraseFrom(s.playerGroups, members, |members|, g), groups := s.groups - {g},
       activeGroups := Sub32(s.activeGroups, 1))
  }

  // A player taken out of a group, before the leader is looked at.
  function Removed(s: Groups, g: uint32, p: uint32): Groups
    requires g in s.groups
  {
    var group := s.groups[g];
    s.(groups := s.groups[g := group.(members := RemoveFirst(group.members, p))],
       playerGroups := s.playerGroups[p := RemoveFirst(Of(s.playerGroups, p), g)])
  }

  function Step(s: Groups, op: Op): Groups {
    if !Succeeds(s, op) then s else
    match op
    case Create(name, leaderId) =>
      var g := s.nextGroupId;
      s.(groups := s.groups[g := Group(name, leaderId, [leaderId], true)],
         playerGroups := s.playerGroups[leaderId := Of(s.playerGroups, leaderId) + [g]],
         activeGroups := Add32(s.activeGroups, 1), nextGroupId := Add32(g, 1))
    case Join(g, p) =>
      var group := s.groups[g];
      s.(groups := s.groups[g := group.(members := group.members + [p])],
         playerGroups := s.playerGroups[p := Of(s.playerGroups, p) + [g]])
    case Leave(g, p) =>
      var d := Removed(s, g, p);
      var group := d.groups[g];
      if group.leader != p then d
      else if group.members == [] then Disbanded(d, g)
      else d.(groups := d.groups[g := group.(leader := group.members[0])])
    case Disband(g) => Disbanded(s, g)
  }

  function After(s: Groups, ops: seq<Op>): Groups {
    if ops == [] then s else Step(After(s, ops[..|ops| - 1]), ops[|ops| - 1])
  }

  // ---------- The invariant ----------

  function Members(s: Groups): Lists {
    map g | g in s.groups :: s.groups[g].members
  }

  ghost predicate GroupOk(group: Group, maxGroupSize: uint32) {
    && Distinct(group.members) && group.leader in group.members
    && (|group.members| == 1 || |group.members| <= maxGroupSize)
  }

  ghost predicate Good(s: Groups) {
    && Mutual(Members(s), s.playerGroups)
    && (forall g :: g in s.groups ==> GroupOk(s.groups[g], s.maxGroupSize))
    && s.activeGroups == Wrapped(|s.groups|)
  }

  // The value of a 32-bit counter.
  function Wrapped(n: nat): uint32 {
    n % WORD
  }

  lemma CounterSteps(n: nat)
    ensures Add32(Wrapped(n), 1) == Wrapped(n + 1) != Wrapped(n)
    ensures n > 0 ==> Sub32(Wrapped(n), 1) == Wrapped(n - 1)
  {
  }

  // The count of groups follows when one is put in or taken out.
  lemma CountPut(m: map<uint32, Group>, g: uint32, group: Group)
    ensures |m[g := group]| == if g in m then |m| else |m| + 1
  {
    assert m[g := group].Keys == m.Keys + {g};
  }

  lemma CountTaken(m: map<uint32, Group>, g: uint32)
    requires g in m
    ensures |m - {g}| == |m| - 1
  {
    assert (m - {g}).Keys == m.Keys - {g};
  }

  lemma MembersPut(s: Groups, d: Groups, g: uint32, group: Group)
    requires d.groups == s.groups[g := group]
    ensures Members(d) == Members(s)[g := group.members]
  {
  }

  lemma JoinGood(s: Groups, g: uint32, p: uint32)
    requires Good(s) && Succeeds(s, Join(g, p))
    ensures Good(Step(s, Join(g, p)))
  {
    hide Mutual, Distinct, Wrapped;
    var d := Step(s, Join(g, p));
    MembersPut(s, d, g, d.groups[g]);
    AddKeepsMutual(Members(s), s.playerGroups, g, p);
    DistinctAdd(s.groups[g].members, p);
    CountPut(s.groups, g, d.groups[g]);
  }

  lemma CreateGood(s: Groups, name: string, p: uint32)
    requires Good(s) && s.nextGroupId !in s.groups
    ensures Good(Step(s, Create(name, p)))
  {
    hide Mutual, Add32, Wrapped;
    var g, d := s.nextGroupId, Step(s, Create(name, p));
    MembersPut(s, d, g, d.groups[g]);
    assert Of(Members(s), g) == [];
    DropNone([p]);
    AddKeepsMutual(Members(s), s.playerGroups, g, p);
    CountPut(s.groups, g, d.groups[g]);
    CounterSteps(|s.groups|);
  }

  // If the id is in use the old group is overwritten: the counter, at least, no longer agrees.
  lemma CreateNeedsFreshId(s: Groups, name: string, p: uint32)
    requires Good(s)
    ensures Good(Step(s, Create(name, p))) <==> s.nextGroupId !in s.groups
  {
    hide Add32, Wrapped;
    CounterSteps(|s.groups|);
    if s.nextGroupId in s.groups {
      CountPut(s.groups, s.nextGroupId, Step(s, Create(name, p)).groups[s.nextGroupId]);
    } else {
      CreateGood(s, name, p);
    }
  }

  // Members left to erase, and the lists so far, still agree.
  lemma {:induction false} EraseKeepsMutual(a: Lists, b: Lists, members: seq<uint32>, n: nat, g: uint32)
    requires n <= |members| && Mutual(a[g := members], b)
    ensures Mutual(a[g := members[n..]], EraseFrom(b, members, n, g))
  {
    hide Mutual, RemoveFirst, EraseFrom;
    EraseStep(b, members, n, g);
    if n == 0 {
      DropNone(members);
    } else {
      EraseKeepsMutual(a, b, members, n - 1, g);
      var rest, p := members[n - 1..], members[n - 1];
      RemoveKeepsMutual(a[g := rest], EraseFrom(b, members, n - 1, g), g, p);
      RemoveHead(rest);
      DropDrop(members, n - 1, 1);
      assert a[g := rest][g := members[n..]] == a[g := members[n..]];
    }
  }

  lemma EraseStep(b: Lists, members: seq<uint32>, n: nat, g: uint32)
    requires n <= |members|
    ensures EraseFrom(b, members, 0, g) == b
    ensures n > 0 ==>
      var before, p := EraseFrom(b, members, n - 1, g), members[n - 1];
      EraseFrom(b, members, n, g) == before[p := RemoveFirst(Of(before, p), g)]
  {
    hide RemoveFirst;
  }

  lemma RemoveHead(s: seq<uint32>)
    requires s != []
    ensures RemoveFirst(s, s[0]) == s[1..]
  {
    DropNone(s[1..]);
  }

  lemma MutualWithout(a: Lists, b: Lists, g: uint32)
    requires Mutual(a[g := []], b)
    ensures Mutual(a - {g}, b)
  {
    forall x: uint32, y: uint32 ensures Count(Of(a - {g}, x), y) == Count(Of(b, y), x) {
      assert Of(a - {g}, x) == Of(a[g := []], x);
    }
  }

  // Needs nothing of the group that goes, which LeaveGroup has already emptied.
  lemma DisbandGood(s: Groups, g: uint32)
    requires g in s.groups && Mutual(Members(s), s.playerGroups) && s.activeGroups == Wrapped(|s.groups|)
    requires forall h :: h in s.groups && h != g ==> GroupOk(s.groups[h], s.maxGroupSize)
    ensures Good(Disbanded(s, g))
  {
    hide Mutual, EraseFrom, GroupOk, Sub32, Wrapped;
    var members := s.groups[g].members;
    assert Members(s)[g := members] == Members(s);
    EraseKeepsMutual(Members(s), s.playerGroups, members, |members|, g);
    assert members[|members|..] == [];
    MutualWithout(Members(s), EraseFrom(s.playerGroups, members, |members|, g), g);
    assert Members(Disbanded(s, g)) == Members(s) - {g};
    CountTaken(s.groups, g);
    CounterSteps(|s.groups|);
  }

  lemma RemovedAgrees(s: Groups, g: uint32, p: uint32)
    requires Good(s) && g in s.groups
    ensures var d := Removed(s, g, p); Mutual(Members(d), d.playerGroups) && d.activeGroups == Wrapped(|d.groups|)
  {
    hide Mutual, RemoveFirst, GroupOk, Wrapped;
    var d := Removed(s, g, p);
    MembersPut(s, d, g, d.groups[g]);
    RemoveKeepsMutual(Members(s), s.playerGroups, g, p);
    CountPut(s.groups, g, d.groups[g]);
  }

  lemma LeaveGood(s: Groups, g: uint32, p: uint32)
    requires Good(s) && g in s.groups
    ensures Good(Step(s, Leave(g, p)))
  {
    hide Mutual, RemoveFirst, GroupOk, Wrapped, Distinct, Disbanded;
    var d, e := Removed(s, g, p), Step(s, Leave(g, p));
    RemovedAgrees(s, g, p);
    if s.groups[g].leader == p && d.groups[g].members == [] {
      DisbandGood(d, g);
    } else {
      MembersPut(d, e, g, e.groups[g]);
      MembersPut(d, d, g, d.groups[g]);
      CountPut(d.groups, g, e.groups[g]);
      StillOk(s.groups[g], e.groups[g], s.maxGroupSize, p);
    }
  }

  lemma StillOk(group: Group, group': Group, maxGroupSize: uint32, p: uint32)
    requires GroupOk(group, maxGroupSize) && group'.members == RemoveFirst(group.members, p)
    requires if group.leader == p then group'.members != [] && group'.leader == group'.members[0]
             else group'.leader == group.leader
    ensures GroupOk(group', maxGroupSize)
  {
    hide RemoveFirst, Distinct;
    DistinctRemove(group.members, p);
  }

  // ---------- Runs ----------

  function Creates(ops: seq<Op>): nat {
    if ops == [] then 0 else Creates(ops[..|ops| - 1]) + if ops[|ops| - 1].Create? then 1 else 0
  }

  function Start(maxGroupSize: uint32): Groups {
    Groups(map[], map[], 0, 1, maxGroupSize)
  }

  lemma StepIds(s: Groups, op: Op, n: nat)
    requires s.nextGroupId == (1 + n) % WORD && forall g :: g in s.groups ==> Issued(g, n)
    ensures var d, n' := Step(s, op), n + if op.Create? then 1 else 0;
      d.nextGroupId == (1 + n') % WORD && forall g :: g in d.groups ==> Issued(g, n')
  {
    hide EraseFrom, RemoveFirst;
    NextNotIssued(n);
  }

  lemma {:induction false} IdsAreFresh(maxGroupSize: uint32, ops: seq<Op>)
    ensures var s := After(Start(maxGroupSize), ops);
      && s.nextGroupId == (1 + Creates(ops)) % WORD
      && (forall g :: g in s.groups ==> Issued(g, Creates(ops)))
      && (Creates(ops) < WORD ==> s.nextGroupId !in s.groups)
  {
    hide Step, Issued;
    if ops != [] {
      var front := ops[..|ops| - 1];
      IdsAreFresh(maxGroupSize, front);
      StepIds(After(Start(maxGroupSize), front), ops[|ops| - 1], Creates(front));
    }
    NextNotIssued(Creates(ops));
  }

  // Every group of the run is created under an id that is not in use.
  ghost predicate FreshRun(maxGroupSize: uint32, ops: seq<Op>) {
    ops == [] || (
      var front := ops[..|ops| - 1];
      var s := After(Start(maxGroupSize), front);
      FreshRun(maxGroupSize, front) && (ops[|ops| - 1].Create? ==> s.nextGroupId !in s.groups))
  }

  ghost predicate GoodThroughout(maxGroupSize: uint32, ops: seq<Op>) {
    Good(After(Start(maxGroupSize), ops)) && (ops == [] || GoodThroughout(maxGroupSize, ops[..|ops| - 1]))
  }

  // The indexes agree all through a run exactly when no id in use is handed out in it.
  lemma {:induction false} RunGood(maxGroupSize: uint32, ops: seq<Op>)
    ensures GoodThroughout(maxGroupSize, ops) <==> FreshRun(maxGroupSize, ops)
  {
    hide Step, Good, Succeeds, Issued;
    if ops == [] {
      StartGood(maxGroupSize);
    } else {
      var front, op := ops[..|ops| - 1], ops[|ops| - 1];
      var s := After(Start(maxGroupSize), front);
      RunGood(maxGroupSize, front);
      if Good(s) {
        StepGood(s, op);
      }
    }
  }

  lemma {:induction false} FirstIdsAreFresh(maxGroupSize: uint32, ops: seq<Op>)
    requires Creates(ops) <= WORD
    ensures FreshRun(maxGroupSize, ops)
  {
    hide Step, Issued, After;
    if ops != [] {
      FirstIdsAreFresh(maxGroupSize, ops[..|ops| - 1]);
      IdsAreFresh(maxGroupSize, ops[..|ops| - 1]);
    }
  }

  lemma StartGood(maxGroupSize: uint32)
    ensures Good(Start(maxGroupSize))
  {
  }

  lemma StepGood(s: Groups, op: Op)
    requires Good(s)
    ensures Good(Step(s, op)) <==> (op.Create? ==> s.nextGroupId !in s.groups)
  {
    hide Good, Disbanded;
    if Succeeds(s, op) {
      match op
      case Create(name, p) => CreateNeedsFreshId(s, name, p);
      case Join(g, p) => JoinGood(s, g, p);
      case Leave(g, p) => LeaveGood(s, g, p);
      case Disband(g) => DisbandOk(s, g);
    }
  }

  lemma DisbandOk(s: Groups, g: uint32)
    requires Good(s) && g in s.groups
    ensures Good(Disbanded(s, g))
  {
    DisbandGood(s, g);
  }

  // The two indexes, read as plain membership, and the shape of each group.
  lemma IndexesAgree(maxGroupSize: uint32, ops: seq<Op>)
    requires FreshRun(maxGroupSize, ops)
    ensures var s := After(Start(maxGroupSize), ops);
      && (forall g: uint32, p: uint32 ::
            g in Of(s.playerGroups, p) <==> g in s.groups && p in s.groups[g].members)
      && (forall p: uint32 :: Distinct(Of(s.playerGroups, p)))
      && (forall g :: g in s.groups ==> GroupOk(s.groups[g], maxGroupSize))
      && s.activeGroups == Wrapped(|s.groups|)
  {
    hide After, GroupOk;
    var s := After(Start(maxGroupSize), ops);
    RunGood(maxGroupSize, ops);
    SizeKept(maxGroupSize, ops);
    forall g: uint32, p: uint32
      ensures g in Of(s.playerGroups, p) <==> g in s.groups && p in s.groups[g].members
    {
      assert Count(Of(Members(s), g), p) == Count(Of(s.playerGroups, p), g);
      CountIsMembership(Of(s.playerGroups, p), g);
      CountIsMembership(Of(Members(s), g), p);
    }
    forall p: uint32 ensures Distinct(Of(s.playerGroups, p)) {
      ListDistinct(s, p);
    }
  }

  lemma ListDistinct(s: Groups, p: uint32)
    requires Good(s)
    ensures Distinct(Of(s.playerGroups, p))
  {
    forall g: uint32 ensures Count(Of(s.playerGroups, p), g) <= 1 {
      assert Count(Of(Members(s), g), p) == Count(Of(s.playerGroups, p), g);
      assert g in s.groups ==> Distinct(s.groups[g].members);
    }
  }

  lemma StepSize(s: Groups, op: Op)
    ensures Step(s, op).maxGroupSize == s.maxGroupSize
  {
    hide EraseFrom, RemoveFirst;
  }

  lemma {:induction false} SizeKept(maxGroupSize: uint32, ops: seq<Op>)
    ensures After(Start(maxGroupSize), ops).maxGroupSize == maxGroupSize
  {
    hide Step;
    if ops != [] {
      SizeKept(maxGroupSize, ops[..|ops| - 1]);
      StepSize(After(Start(maxGroupSize), ops[..|ops| - 1]), ops[|ops| - 1]);
    }
  }

  // ---------- The class ----------

  class QuestGroupIndex {
    var groups: map<uint32, Group>
    var playerGroups: Lists
    var activeGroups: uint32
    var nextGroupId: uint32
    const maxGroupSize: uint32

    ghost function Snapshot(): Groups
      reads this
    {
      Groups(groups, playerGroups, activeGroups, nextGroupId, maxGroupSize)
    }

    constructor (maxSize: uint32)
      ensures Snapshot() == Start(maxSize)
    {
      groups, playerGroups, activeGroups, nextGroupId, maxGroupSize := map[], map[], 0, 1, maxSize;
    }

    method CreateGroup(name: string, leaderId: uint32) returns (groupId: uint32)
      modifies this
      ensures groupId == old(nextGroupId)
      ensures Snapshot() == Step(old(Snapshot()), Create(name, leaderId))
    {
      groupId := nextGroupId;
      nextGroupId := Add32(nextGroupId, 1);
      groups := groups[groupId := Group(name, leaderId, [leaderId], true)];
      playerGroups := playerGroups[leaderId := Of(playerGroups, leaderId) + [groupId]];
      activeGroups := Add32(activeGroups, 1);
    }

    method CanPlayerJoinGroup(groupId: uint32, playerId: uint32) returns (r: bool)
      ensures r == Succeeds(Snapshot(), Join(groupId, playerId))
    {
      if groupId !in groups || !groups[groupId].isActive {
        return false;
      }
      if |groups[groupId].members| >= maxGroupSize {
        return false;
      }
      return playerId !in groups[groupId].members;
    }

    method JoinGroup(groupId: uint32, playerId: uint32) returns (ok: bool)
      modifies this
      ensures ok == Succeeds(old(Snapshot()), Join(groupId, playerId))
      ensures Snapshot() == Step(old(Snapshot()), Join(groupId, playerId))
    {
      ok := CanPlayerJoinGroup(groupId, playerId);
      if ok {
        var group := groups[groupId];
        groups := groups[groupId := group.(members := group.members + [playerId])];
        playerGroups := playerGroups[playerId := Of(playerGroups, playerId) + [groupId]];
      }
    }

    method LeaveGroup(groupId: uint32, playerId: uint32) returns (ok: bool)
      modifies this
      ensures ok == Succeeds(old(Snapshot()), Leave(groupId, playerId))
      ensures Snapshot() == Step(old(Snapshot()), Leave(groupId, playerId))
    {
      hide Disbanded, RemoveFirst;
      if groupId !in groups {
        return false;
      }
      var members := Erase(groups[groupId].members, playerId);
      groups := groups[groupId := groups[groupId].(members := members)];
      var list := Erase(Of(playerGroups, playerId), groupId);
      playerGroups := playerGroups[playerId := list];
      if groups[groupId].leader == playerId {
        if members == [] {
          var done := DisbandGroup(groupId);
        } else {
          groups := groups[groupId := groups[groupId].(leader := members[0])];
        }
      }
      return true;
    }

    method DisbandGroup(groupId: uint32) returns (ok: bool)
      modifies this
      ensures ok == (groupId in old(groups))
      ensures Snapshot() == if ok then Disbanded(old(Snapshot()), groupId) else old(Snapshot())
    {
      hide RemoveFirst;
      if groupId !in groups {
        return false;
      }
      var members := groups[groupId].members;
      for i := 0 to |members|
        invariant playerGroups == EraseFrom(old(playerGroups), members, i, groupId)
        invariant groups == old(groups) && activeGroups == old(activeGroups) && nextGroupId == old(nextGroupId)
      {
        var list := Erase(Of(playerGroups, members[i]), groupId);
        playerGroups := playerGroups[members[i] := list];
      }
      groups := groups - {groupId};
      activeGroups := Sub32(activeGroups, 1);
      return true;
    }
  }
}
