// Facts about sequences that the verifier is spared from rediscovering.
module Seqs {
  lemma Assoc<T>(a: seq<T>, b: seq<T>, c: seq<T>)
    ensures (a + b) + c == a + (b + c)
  {
  }

  lemma DropAppend<T>(a: seq<T>, b: seq<T>)
    ensures (a + b)[|a|..] == b
  {
  }

  lemma DropDrop<T>(s: seq<T>, a: nat, b: nat)
    requires a + b <= |s|
    ensures s[a..][b..] == s[a + b..]
  {
  }

  lemma DropNone<T>(s: seq<T>)
    ensures s[0..] == s && [] + s == s && s + [] == s
  {
  }

  // The part a of a sequence that goes on with a and then b at position i.
  lemma Slice<T>(s: seq<T>, i: nat, a: seq<T>, b: seq<T>)
    requires i <= |s| && s[i..] == a + b
    ensures i + |a| <= |s| && s[i..i + |a|] == a && s[i + |a|..] == b
  {
    DropAppend(a, b);
    DropDrop(s, i, |a|);
    assert s[i..i + |a|] == s[i..][..|a|];
  }

  lemma AppendCancels<T>(a: seq<T>, x: seq<T>, y: seq<T>)
    ensures a + x == a + y <==> x == y
  {
    DropAppend(a, x);
    DropAppend(a, y);
  }

  lemma SplitAt<T>(s: seq<T>, n: nat)
    requires n <= |s|
    ensures s == s[..n] + s[n..]
  {
  }

  // As many from the front as there is room for.
  function Taken<T>(all: seq<T>, size: nat): seq<T> {
    if |all| <= size then all else all[..size]
  }

  lemma TakesAll<T>(all: seq<T>, size: nat)
    requires |all| <= size
    ensures Taken(all, size) == all
  {
  }

  lemma TakenNext<T>(all: seq<T>, x: T, size: nat)
    ensures Taken(all + [x], size) == if |Taken(all, size)| < size then Taken(all, size) + [x] else Taken(all, size)
    ensures x in Taken(all, size) ==> x in all
  {
  }
}
