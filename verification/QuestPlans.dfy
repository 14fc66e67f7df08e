// Which quests players can ever start and complete.
//
//   StartableExactly     some run starts a quest if and only if its prerequisites can be taken in
//                        some order: each known, available, with a place and completable
//   CompletableAtAll     and some run completes it if and only if, besides, no mandatory objective
//                        of its own stands behind another with the same id
module QuestPlans {
  import opened Words
  import opened Seqs
  import opened QuestModel
  import opened QuestLaws
  import opened QuestProgress

  // Nothing but the prerequisites keeps it from being started.
  predicate Open(quest: Quest) {
    quest.state == Available && (quest.isCooperative ==> quest.maxParticipants > 0)
  }

  // Known, open, and all it requires can be completed, in fewer than n levels of requirements.
  ghost predicate Within(w: World, q: uint32, n: nat)
    decreases n
  {
    n > 0 && q in w.quests && Open(w.quests[q])
    && forall r :: r in w.quests[q].requiredQuests ==> Within(w, r, n - 1) && MandatoryReachable(w.quests[r].objectives)
  }

  // At some depth: in particular not on a cycle.
  ghost predicate Plannable(w: World, q: uint32) {
    exists n: nat :: Within(w, q, n)
  }

  lemma {:induction false} WithinMore(w: World, q: uint32, n: nat)
    requires Within(w, q, n)
    ensures Within(w, q, n + 1)
    decreases n
  {
    hide Open, MandatoryReachable;
    forall r | r in w.quests[q].requiredQuests ensures Within(w, r, n) {
      WithinMore(w, r, n - 1);
    }
  }

  lemma {:induction false} WithinMonotone(w: World, q: uint32, n: nat, m: nat)
    requires Within(w, q, n) && n <= m
    ensures Within(w, q, m)
    decreases m
  {
    hide Within;
    if n < m {
      WithinMonotone(w, q, n, m - 1);
      WithinMore(w, q, m - 1);
    }
  }

  // ---------- What was started can be planned ----------

  lemma {:induction false} CommonBound(w: World, rs: seq<uint32>) returns (n: nat)
    requires forall r :: r in rs ==> Plannable(w, r)
    ensures forall r :: r in rs ==> Within(w, r, n)
  {
    hide Within;
    if rs == [] {
      n := 0;
    } else {
      forall r | r in rs[1..] ensures Plannable(w, r) {
        assert r in rs;
      }
      var k := CommonBound(w, rs[1..]);
      assert rs[0] in rs;
      var m: nat :| Within(w, rs[0], m);
      n := if k < m then m else k;
      forall r | r in rs ensures Within(w, r, n) {
        if r == rs[0] {
          WithinMonotone(w, r, m, n);
        } else {
          WithinMonotone(w, r, k, n);
        }
      }
    }
  }

  lemma CompletedIsReachable(w: World, ops: seq<Op>, r: uint32)
    requires Initial(w) && r in w.quests && After(w, ops).quests[r].state == Completed
    ensures MandatoryReachable(w.quests[r].objectives)
  {
    hide After;
    assert FreshQuest(w.quests[r]);
    if !MandatoryReachable(w.quests[r].objectives) {
      var i, j := Unreachable(w.quests[r].objectives);
      RepeatedIdBlocks(w, ops, r, i, j);
    }
  }

  lemma StartShows(w: World, d: World, q: uint32, p: uint32)
    requires SameWorld(w, d) && Succeeds(d, Start(q, p))
    ensures q in w.quests && w.initialized && w.quests[q].requiredQuests == d.quests[q].requiredQuests
    ensures d.quests[q].state == Available && (w.quests[q].isCooperative ==> w.quests[q].maxParticipants > 0)
    ensures forall r :: r in w.quests[q].requiredQuests ==> r in w.quests && d.quests[r].state == Completed
  {
    assert SameQuest(w.quests[q], d.quests[q]);
  }

  lemma {:induction false} StartedIsWithin(w: World, ops: seq<Op>, q: uint32) returns (n: nat)
    requires Initial(w) && q in w.quests && Started(After(w, ops).quests[q])
    ensures Within(w, q, n) && w.initialized
    decreases |ops|
  {
    hide After, Succeeds, MandatoryReachable, SameWorld, Initial;
    var i := StartedSomewhere(w, ops, q);
    var d := After(w, ops[..i]);
    StartShows(w, d, q, ops[i].playerId);
    UnstartedSame(w, ops[..i], q);
    forall r | r in w.quests[q].requiredQuests
      ensures Plannable(w, r) && MandatoryReachable(w.quests[r].objectives)
    {
      var m := StartedIsWithin(w, ops[..i], r);
      CompletedIsReachable(w, ops[..i], r);
    }
    var bound := CommonBound(w, w.quests[q].requiredQuests);
    n := bound + 1;
  }

  // ---------- What can be planned can be started ----------

  // Every quest of w is as it was or has been completed.
  ghost predicate Advanced(w: World, d: World) {
    && d.initialized == w.initialized && d.quests.Keys == w.quests.Keys
    && forall q :: q in w.quests ==> d.quests[q] == w.quests[q] || d.quests[q].state == Completed
  }

  ghost predicate KeepsCompleted(d: World, e: World) {
    && e.quests.Keys == d.quests.Keys
    && forall q :: q in d.quests && d.quests[q].state == Completed ==> e.quests[q].state == Completed
  }

  lemma {:induction false} OthersStay(w: World, ops: seq<Op>, q: uint32)
    requires OnlyAbout(ops, q)
    ensures var d := After(w, ops);
      && d.initialized == w.initialized && d.quests.Keys == w.quests.Keys
      && forall x :: x in w.quests && x != q ==> d.quests[x] == w.quests[x]
  {
    hide Succeeds, Changed;
    if ops != [] {
      OthersStay(w, ops[..|ops| - 1], q);
    }
  }

  lemma StartNow(w: World, d: World, q: uint32, p: uint32)
    requires Advanced(w, d) && w.initialized && q in w.quests && d.quests[q] == w.quests[q]
    requires FreshQuest(w.quests[q]) && Open(w.quests[q])
    requires forall r :: r in w.quests[q].requiredQuests ==> r in d.quests && d.quests[r].state == Completed
    ensures Succeeds(d, Start(q, p))
    ensures var s := Step(d, Start(q, p));
      && s.initialized == d.initialized && s.quests.Keys == d.quests.Keys
      && s.quests[q].state == InProgress && s.quests[q].objectives == w.quests[q].objectives
      && AllFresh(s.quests[q].objectives)
      && forall x :: x in d.quests && x != q ==> s.quests[x] == d.quests[x]
  {
  }

  // Starts q and completes it.
  lemma Finish(w: World, d: World, q: uint32) returns (ops: seq<Op>)
    requires Initial(w) && Advanced(w, d) && w.initialized && q in w.quests && d.quests[q] == w.quests[q]
    requires Open(w.quests[q]) && MandatoryReachable(w.quests[q].objectives)
    requires forall r :: r in w.quests[q].requiredQuests ==> r in d.quests && d.quests[r].state == Completed
    ensures var e := After(d, ops);
      Advanced(w, e) && KeepsCompleted(d, e) && q in e.quests && e.quests[q].state == Completed
  {
    hide After, Step, Succeeds, FreshQuest, MandatoryReachable, AllFresh, Open, OnlyAbout;
    assert FreshQuest(w.quests[q]);
    StartNow(w, d, q, 0);
    var s := Step(d, Start(q, 0));
    var rest := CompletingRun(s, q, 0);
    OthersStay(s, rest, q);
    AfterFirst(d, Start(q, 0), rest);
    ops := [Start(q, 0)] + rest;
  }

  lemma {:induction false} CompleteOne(w: World, d: World, q: uint32, n: nat) returns (ops: seq<Op>)
    requires Initial(w) && w.initialized && Advanced(w, d)
    requires Within(w, q, n) && MandatoryReachable(w.quests[q].objectives)
    ensures var e := After(d, ops);
      Advanced(w, e) && KeepsCompleted(d, e) && q in e.quests && e.quests[q].state == Completed
    decreases n, 0
  {
    hide After, Initial, MandatoryReachable, Open;
    if d.quests[q].state == Completed {
      ops := [];
      Unchanged(d);
    } else {
      ops := CompleteAll(w, d, w.quests[q].requiredQuests, n - 1);
      var e := After(d, ops);
      if e.quests[q].state != Completed {
        var more := Finish(w, e, q);
        AfterAppend(d, ops, more);
        ops := ops + more;
      }
    }
  }

  lemma Unchanged(d: World)
    ensures After(d, []) == d
  {
  }

  lemma KeepsAll(d: World, e: World, f: World)
    ensures KeepsCompleted(d, d)
    ensures KeepsCompleted(d, e) && KeepsCompleted(e, f) ==> KeepsCompleted(d, f)
    ensures KeepsCompleted(e, f) ==>
      forall r :: r in e.quests && e.quests[r].state == Completed ==> r in f.quests && f.quests[r].state == Completed
  {
  }

  lemma {:induction false} CompleteAll(w: World, d: World, rs: seq<uint32>, n: nat) returns (ops: seq<Op>)
    requires Initial(w) && w.initialized && Advanced(w, d)
    requires forall r :: r in rs ==> Within(w, r, n) && MandatoryReachable(w.quests[r].objectives)
    ensures var e := After(d, ops);
      && Advanced(w, e) && KeepsCompleted(d, e)
      && forall r :: r in rs ==> r in e.quests && e.quests[r].state == Completed
    decreases n, 1 + |rs|
  {
    hide After, Initial, MandatoryReachable, Within, Advanced, KeepsCompleted;
    if rs == [] {
      ops := [];
      Unchanged(d);
      KeepsAll(d, d, d);
    } else {
      var front, last := rs[..|rs| - 1], rs[|rs| - 1];
      ops := CompleteAll(w, d, front, n);
      var e := After(d, ops);
      var more := CompleteOne(w, e, last, n);
      AfterAppend(d, ops, more);
      ops := ops + more;
      KeepsAll(d, e, After(d, ops));
      forall r | r in rs
        ensures r in After(d, ops).quests && After(d, ops).quests[r].state == Completed
      {
        assert r == last || r in front;
      }
    }
  }

  lemma AdvancedFrom(w: World)
    ensures Advanced(w, w)
  {
  }

  // From any state in which no quest has been started.
  lemma StartableExactly(w: World, q: uint32)
    requires Initial(w) && q in w.quests
    ensures (exists ops :: Started(After(w, ops).quests[q])) <==> w.initialized && Plannable(w, q)
  {
    hide After, Initial, Started, Step, Advanced;
    if exists ops :: Started(After(w, ops).quests[q]) {
      var ops :| Started(After(w, ops).quests[q]);
      var n := StartedIsWithin(w, ops, q);
    }
    if w.initialized && Plannable(w, q) {
      var n: nat :| Within(w, q, n);
      var ops := StartingRun(w, q, n);
    }
  }

  lemma StartingRun(w: World, q: uint32, n: nat) returns (ops: seq<Op>)
    requires Initial(w) && w.initialized && Within(w, q, n)
    ensures Started(After(w, ops).quests[q])
  {
    hide After, Step, Succeeds, MandatoryReachable, FreshQuest, AllFresh, Open;
    AdvancedFrom(w);
    ops := CompleteAll(w, w, w.quests[q].requiredQuests, n - 1);
    var d := After(w, ops);
    if d.quests[q].state != Completed {
      assert FreshQuest(w.quests[q]);
      StartNow(w, d, q, 0);
      AfterOne(w, ops, Start(q, 0));
      ops := ops + [Start(q, 0)];
    }
  }

  lemma CompletableAtAll(w: World, q: uint32)
    requires Initial(w) && q in w.quests
    ensures (exists ops :: After(w, ops).quests[q].state == Completed)
      <==> w.initialized && MandatoryReachable(w.quests[q].objectives) && Plannable(w, q)
  {
    hide After, Initial, Advanced, MandatoryReachable;
    if exists ops :: After(w, ops).quests[q].state == Completed {
      var ops :| After(w, ops).quests[q].state == Completed;
      var n := StartedIsWithin(w, ops, q);
      CompletedIsReachable(w, ops, q);
    }
    if w.initialized && MandatoryReachable(w.quests[q].objectives) && Plannable(w, q) {
      var n: nat :| Within(w, q, n);
      AdvancedFrom(w);
      var ops := CompleteOne(w, w, q, n);
    }
  }
}
