// Lists of ids under an id, as in std::map<uint32_t, std::vector<uint32_t>>, and two such maps
// that index the same membership from both sides.
module Roster {
  import opened Words

  type Lists = map<uint32, seq<uint32>>

  function Of(m: Lists, k: uint32): seq<uint32> {
    if k in m then m[k] else []
  }

  function Count(s: seq<uint32>, x: uint32): nat {
    multiset(s)[x]
  }

  // std::find: the first position of x, or |s|.
  function Find(s: seq<uint32>, x: uint32): (k: nat)
    ensures k <= |s| && (k < |s| ==> s[k] == x)
    ensures forall i :: 0 <= i < k ==> s[i] != x
  {
    if s == [] || s[0] == x then 0 else 1 + Find(s[1..], x)
  }

  function RemoveFirst(s: seq<uint32>, x: uint32): seq<uint32> {
    var k := Find(s, x);
    if k < |s| then s[..k] + s[k + 1..] else s
  }

  method Erase(s: seq<uint32>, x: uint32) returns (r: seq<uint32>)
    ensures r == RemoveFirst(s, x)
  {
    var k := 0;
    while k < |s| && s[k] != x
      invariant k <= |s| && forall i :: 0 <= i < k ==> s[i] != x
    {
      k := k + 1;
    }
    r := if k < |s| then s[..k] + s[k + 1..] else s;
  }

  // Erasing takes one occurrence away, if there is one, and touches no other element.
  lemma RemoveFirstCounts(s: seq<uint32>, x: uint32, y: uint32)
    ensures Count(RemoveFirst(s, x), y) == if y == x && x in s then Count(s, y) - 1 else Count(s, y)
  {
    var k := Find(s, x);
    if k < |s| {
      assert s == s[..k] + [x] + s[k + 1..];
      assert s[k] in s;
    }
  }

  lemma CountIsMembership(s: seq<uint32>, x: uint32)
    ensures Count(s, x) > 0 <==> x in s
  {
  }

  ghost predicate Distinct(s: seq<uint32>) {
    forall p: uint32 :: Count(s, p) <= 1
  }

  lemma DistinctAdd(s: seq<uint32>, p: uint32)
    requires Distinct(s) && p !in s
    ensures Distinct(s + [p])
  {
    forall q: uint32 ensures Count(s + [p], q) <= 1 {
      assert Count(s, q) <= 1;
    }
  }

  lemma DistinctRemove(s: seq<uint32>, p: uint32)
    requires Distinct(s)
    ensures Distinct(RemoveFirst(s, p))
    ensures forall q: uint32 :: q in RemoveFirst(s, p) <==> q in s && q != p
    ensures |RemoveFirst(s, p)| == if p in s then |s| - 1 else |s|
  {
    hide Find;
    forall q: uint32
      ensures Count(RemoveFirst(s, p), q) <= 1
      ensures q in RemoveFirst(s, p) <==> q in s && q != p
    {
      RemoveFirstCounts(s, p, q);
      assert Count(s, q) <= 1;
      CountIsMembership(s, q);
      CountIsMembership(RemoveFirst(s, p), q);
    }
  }

  lemma DistinctApart(a: seq<uint32>, p: uint32, b: seq<uint32>)
    requires Distinct(a + [p] + b)
    ensures p !in a && p !in b
  {
    assert Count(a + [p] + b, p) <= 1;
    CountIsMembership(a, p);
    CountIsMembership(b, p);
  }

  lemma DistinctFront(a: seq<uint32>, p: uint32)
    requires Distinct(a + [p])
    ensures Distinct(a) && p !in a
  {
    forall x: uint32 ensures Count(a, x) <= 1 {
      assert Count(a + [p], x) <= 1;
    }
    assert Count(a + [p], p) <= 1;
    CountIsMembership(a, p);
  }

  // The others stay in their order.
  lemma RemovedFrom(a: seq<uint32>, p: uint32, b: seq<uint32>)
    requires p !in a
    ensures RemoveFirst(a + [p] + b, p) == a + b
  {
    var s := a + [p] + b;
    assert s[|a|] == p;
    assert Find(s, p) == |a|;
  }

  // Both maps hold the same pairs, with the same multiplicity.
  ghost predicate Mutual(a: Lists, b: Lists) {
    forall x: uint32, y: uint32 :: Count(Of(a, x), y) == Count(Of(b, y), x)
  }

  lemma AddKeepsMutual(a: Lists, b: Lists, x: uint32, y: uint32)
    requires Mutual(a, b)
    ensures Mutual(a[x := Of(a, x) + [y]], b[y := Of(b, y) + [x]])
  {
    var a', b' := a[x := Of(a, x) + [y]], b[y := Of(b, y) + [x]];
    forall u: uint32, v: uint32 ensures Count(Of(a', u), v) == Count(Of(b', v), u) {
      assert Count(Of(a, u), v) == Count(Of(b, v), u);
    }
  }

  lemma RemoveKeepsMutual(a: Lists, b: Lists, x: uint32, y: uint32)
    requires Mutual(a, b)
    ensures Mutual(a[x := RemoveFirst(Of(a, x), y)], b[y := RemoveFirst(Of(b, y), x)])
  {
    hide RemoveFirst;
    var a', b' := a[x := RemoveFirst(Of(a, x), y)], b[y := RemoveFirst(Of(b, y), x)];
    forall u: uint32, v: uint32 ensures Count(Of(a', u), v) == Count(Of(b', v), u) {
      assert Count(Of(a, u), v) == Count(Of(b, v), u);
      assert Count(Of(a, x), y) == Count(Of(b, y), x);
      RemoveFirstCounts(Of(a, x), y, v);
      RemoveFirstCounts(Of(b, y), x, u);
      CountIsMembership(Of(a, x), y);
      CountIsMembership(Of(b, y), x);
    }
  }
}
