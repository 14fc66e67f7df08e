// When the sliding-window coder writes a pair, in terms of the data alone.
//
//   PairWhereRepeated    where three bytes recur within 255, the code is the pair for the longest,
//                        leftmost such run
//   LiteralElsewhere     everywhere else it is the byte itself
//   CompressesExactly    so the code is shorter than the data if and only if some three bytes recur
module Lz77Tokens {
  import opened Words
  import opened Seqs
  import opened Lz77

  // The len bytes at i stand at j too, at most 255 back, ending before i; a run counts up to 15.
  ghost predicate Recurs(d: seq<byte>, i: nat, j: nat, len: nat) {
    len <= 15 && j < i <= j + 255 && j + len <= i && i + len <= |d| && d[j..j + len] == d[i..i + len]
  }

  ghost predicate Repeated(d: seq<byte>, i: nat) {
    exists j: nat :: Recurs(d, i, j, 3)
  }

  // A longest one, and of these the leftmost.
  ghost predicate LongestAt(d: seq<byte>, i: nat, j: nat, len: nat) {
    && Recurs(d, i, j, len)
    && forall k: nat, l: nat :: Recurs(d, i, k, l) ==> l < len || (l == len && j <= k)
  }

  lemma RecursIsMatch(d: seq<byte>, i: nat, j: nat, len: nat)
    ensures Recurs(d, i, j, len) <==> WindowStart(i) <= j < i && Matches(d, i, j, len)
  {
  }

  lemma BestIsLongest(d: seq<byte>, i: nat)
    requires i < |d|
    ensures var m := BestMatch(d, i);
      && (Repeated(d, i) <==> m.len >= 3)
      && (m.len >= 3 ==> 0 < m.dist <= i && LongestAt(d, i, i - m.dist, m.len))
  {
    hide BestMatch, Matches, Recurs;
    var m := BestMatch(d, i);
    BestMatchIsLongest(d, i);
    forall k: nat, l: nat | Recurs(d, i, k, l) ensures l < m.len || (l == m.len && (l > 0 ==> i - m.dist <= k)) {
      RecursIsMatch(d, i, k, l);
    }
    if m.len >= 3 {
      RecursIsMatch(d, i, i - m.dist, m.len);
      Shorter(d, i, i - m.dist, m.len);
    }
  }

  lemma Shorter(d: seq<byte>, i: nat, j: nat, len: nat)
    requires Recurs(d, i, j, len) && len >= 3
    ensures Recurs(d, i, j, 3)
  {
    assert d[j..j + 3] == d[j..j + len][..3] && d[i..i + 3] == d[i..i + len][..3];
  }

  // At a token boundary where three bytes recur.
  lemma PairWhereRepeated(d: seq<byte>, i: nat) returns (j: nat, len: nat)
    requires i < |d| && Repeated(d, i)
    ensures 3 <= len && LongestAt(d, i, j, len)
    ensures EncodeFrom(d, i) == [0x80 + (len - 3), i - j] + EncodeFrom(d, i + len)
  {
    hide BestMatch, LongestAt, Repeated, EncodeFrom;
    var m := BestMatch(d, i);
    BestIsLongest(d, i);
    j, len := i - m.dist, m.len;
    LongestFits(d, i, j, len);
    EncodeStep(d, i);
  }

  lemma LongestFits(d: seq<byte>, i: nat, j: nat, len: nat)
    requires LongestAt(d, i, j, len)
    ensures len <= 15 && j < i <= j + 255 && i + len <= |d|
  {
  }

  // At any other.
  lemma LiteralElsewhere(d: seq<byte>, i: nat)
    requires i < |d| && !Repeated(d, i)
    ensures EncodeFrom(d, i) == [d[i]] + EncodeFrom(d, i + 1)
  {
    hide BestMatch, LongestAt, Repeated, EncodeFrom;
    BestIsLongest(d, i);
    EncodeStep(d, i);
  }

  lemma {:induction false} CompressesFrom(d: seq<byte>, i: nat)
    requires i <= |d|
    ensures |EncodeFrom(d, i)| < |d| - i <==> exists a: nat :: i <= a && Repeated(d, a)
    decreases |d| - i
  {
    hide Repeated, LongestAt, EncodeFrom;
    if i == |d| {
      EncodeEnd(d);
      forall a: nat | i <= a ensures !Repeated(d, a) {
        OnlyWithin(d, a);
      }
    } else if Repeated(d, i) {
      var j, len := PairWhereRepeated(d, i);
      LongestFits(d, i, j, len);
      EncodeNeverExpands(d, i + len);
    } else {
      LiteralElsewhere(d, i);
      CompressesFrom(d, i + 1);
      assert forall a: nat :: i <= a && Repeated(d, a) ==> i + 1 <= a;
    }
  }

  lemma OnlyWithin(d: seq<byte>, a: nat)
    ensures Repeated(d, a) ==> a < |d|
  {
  }

  // Every repeat of three bytes within reach is made use of, at its position or before it.
  lemma CompressesExactly(d: seq<byte>)
    ensures |Encode(d)| < |d| <==> exists i: nat, j: nat :: Recurs(d, i, j, 3)
  {
    hide Recurs, EncodeFrom;
    CompressesFrom(d, 0);
    if exists i: nat, j: nat :: Recurs(d, i, j, 3) {
      var i: nat, j: nat :| Recurs(d, i, j, 3);
      assert 0 <= i && Repeated(d, i);
    }
  }
}
