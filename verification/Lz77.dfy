// Sliding-window coder of src/optimization/DynamicNetworkOptimizer.cpp.
//
// Encode and Decode are the byte-level specifications; CompressLZ77 and DecompressLZ77 are
// the loops of the source, proved equal to them. The results are:
//   BestMatchIsLongest    the pair chosen at each position is the leftmost longest match
//   RoundTrip             Decode(Encode(d)) == d when no byte but the last is 0x80 or more
//   HighByteCorrupts, OneHighByteCorrupts, HighBytesMayCancel
//                         what happens on all other inputs
module Lz77 {
  import opened Words
  import opened Seqs
  import opened Arith

  const MARKER: int := 0x80
  const MIN_MATCH: nat := 3
  const MAX_MATCH: nat := 15
  const WINDOW: nat := 255

  datatype Match = Match(len: nat, dist: nat)

  // The decoder computes j % distance; on distance 0 the source divides by zero.
  datatype Decoded = Data(bytes: seq<byte>) | DivisionByZero

  // ---------- Matches ----------

  // d[j..j+len] recurs at i; the earlier copy ends before i and len is capped.
  ghost predicate Matches(d: seq<byte>, i: nat, j: nat, len: nat) {
    len <= MAX_MATCH && j + len <= i && i + len <= |d| && d[j..j + len] == d[i..i + len]
  }

  // The match at j extended byte by byte from length len.
  function Extend(d: seq<byte>, i: nat, j: nat, len: nat): (r: nat)
    requires i + len <= |d| && j + len <= i
    decreases |d| - len
  {
    if i + len < |d| && j + len < i && d[i + len] == d[j + len] && len < MAX_MATCH
    then Extend(d, i, j, len + 1)
    else len
  }

  function WindowStart(i: nat): nat {
    if i > WINDOW then i - WINDOW else 0
  }

  // Scans the starts j, j+1, .., i-1, replacing the match found so far by strictly longer ones.
  function Scan(d: seq<byte>, i: nat, j: nat, best: Match): Match
    requires j <= i <= |d|
    decreases i - j
  {
    if j == i then best else
    var len := Extend(d, i, j, 0);
    Scan(d, i, j + 1, if len > best.len then Match(len, i - j) else best)
  }

  function BestMatch(d: seq<byte>, i: nat): Match
    requires i <= |d|
  {
    Scan(d, i, WindowStart(i), Match(0, 0))
  }

  lemma MatchedBytes(d: seq<byte>, i: nat, j: nat, len: nat)
    requires Matches(d, i, j, len)
    ensures forall k :: i <= k < i + len ==> d[k] == d[j + (k - i)]
  {
    forall k | i <= k < i + len ensures d[k] == d[j + (k - i)] {
      assert d[j..j + len][k - i] == d[i..i + len][k - i];
    }
  }

  lemma {:induction false} ExtendIsMaximal(d: seq<byte>, i: nat, j: nat, len: nat)
    requires Matches(d, i, j, len)
    ensures Matches(d, i, j, Extend(d, i, j, len))
    ensures forall l: nat :: Matches(d, i, j, l) ==> l <= Extend(d, i, j, len)
    decreases |d| - len
  {
    if i + len < |d| && j + len < i && d[i + len] == d[j + len] && len < MAX_MATCH {
      assert d[j..j + len + 1] == d[j..j + len] + [d[j + len]];
      assert d[i..i + len + 1] == d[i..i + len] + [d[i + len]];
      ExtendIsMaximal(d, i, j, len + 1);
    } else {
      forall l: nat | Matches(d, i, j, l) ensures l <= len {
        MatchedBytes(d, i, j, l);
      }
    }
  }

  // best is a match, none of the starts in [lo, j) gives a longer one, and of the longest
  // it is the leftmost.
  ghost predicate BestAmong(d: seq<byte>, i: nat, lo: nat, j: nat, best: Match) {
    && best.dist <= i - lo
    && (best.len == 0 <==> best.dist == 0)
    && (best.len > 0 ==> best.dist > i - j && Matches(d, i, i - best.dist, best.len))
    && (forall k: nat, l: nat :: lo <= k < j && Matches(d, i, k, l) ==> l <= best.len)
    && (forall k: nat, l: nat :: lo <= k < i - best.dist && k < j && Matches(d, i, k, l) && best.len > 0 ==> l < best.len)
  }

  lemma ScanStep(d: seq<byte>, i: nat, lo: nat, j: nat, best: Match)
    requires lo <= j < i <= |d|
    requires BestAmong(d, i, lo, j, best)
    ensures var len := Extend(d, i, j, 0);
      BestAmong(d, i, lo, j + 1, if len > best.len then Match(len, i - j) else best)
  {
    hide Extend;
    assert Matches(d, i, j, 0);
    ExtendIsMaximal(d, i, j, 0);
  }

  lemma {:induction false} ScanKeepsBest(d: seq<byte>, i: nat, lo: nat, j: nat, best: Match)
    requires lo <= j <= i <= |d|
    requires BestAmong(d, i, lo, j, best)
    ensures BestAmong(d, i, lo, i, Scan(d, i, j, best))
    decreases i - j
  {
    hide BestAmong, Extend;
    if j < i {
      var len := Extend(d, i, j, 0);
      var next := if len > best.len then Match(len, i - j) else best;
      ScanStep(d, i, lo, j, best);
      ScanKeepsBest(d, i, lo, j + 1, next);
    }
  }

  lemma BestMatchIsLongest(d: seq<byte>, i: nat)
    requires i <= |d|
    ensures var m := BestMatch(d, i);
      && m.dist <= i && m.dist <= WINDOW
      && (m.len > 0 ==> m.dist > 0 && Matches(d, i, i - m.dist, m.len))
      && (forall j: nat, l: nat :: WindowStart(i) <= j < i && Matches(d, i, j, l) ==>
            l <= m.len && (l == m.len > 0 ==> i - m.dist <= j))
  {
    hide Scan;
    var lo := WindowStart(i);
    ScanKeepsBest(d, i, lo, lo, Match(0, 0));
  }

  // ---------- Encoder ----------

  // The number of bytes coded at i and the code for them: a pair or a literal.
  function TokenLength(d: seq<byte>, i: nat): (n: nat)
    requires i < |d|
    ensures 1 <= n && i + n <= |d|
  {
    BestMatchIsLongest(d, i);
    var m := BestMatch(d, i);
    if m.len >= MIN_MATCH then m.len else 1
  }

  function TokenCode(d: seq<byte>, i: nat): (c: seq<byte>)
    requires i < |d|
    ensures c != []
  {
    BestMatchIsLongest(d, i);
    var m := BestMatch(d, i);
    if m.len >= MIN_MATCH then [MARKER + (m.len - MIN_MATCH), m.dist] else [d[i]]
  }

  function EncodeFrom(d: seq<byte>, i: nat): seq<byte>
    requires i <= |d|
    decreases |d| - i
  {
    if i == |d| then [] else TokenCode(d, i) + EncodeFrom(d, i + TokenLength(d, i))
  }

  function Encode(d: seq<byte>): seq<byte> {
    EncodeFrom(d, 0)
  }

  method FindMatch(data: seq<byte>, i: nat) returns (matchLength: nat, matchDistance: nat)
    requires i < |data|
    ensures Match(matchLength, matchDistance) == BestMatch(data, i)
  {
    matchLength, matchDistance := 0, 0;
    var j := if i > WINDOW then i - WINDOW else 0;
    while j < i
      invariant j <= i
      invariant Scan(data, i, j, Match(matchLength, matchDistance)) == BestMatch(data, i)
    {
      var len := 0;
      while i + len < |data| && j + len < i && data[i + len] == data[j + len] && len < 15
        invariant i + len <= |data| && j + len <= i
        invariant Extend(data, i, j, len) == Extend(data, i, j, 0)
        decreases i - j - len
      {
        len := len + 1;
      }
      if len > matchLength {
        matchLength := len;
        matchDistance := i - j;
      }
      j := j + 1;
    }
  }

  // What the coder has written when it ends, out being written when it stood at index i.
  function EncodeOnto(out: seq<byte>, d: seq<byte>, i: nat): seq<byte>
    requires i <= |d|
    decreases |d| - i
  {
    if i == |d| then out else EncodeOnto(out + TokenCode(d, i), d, i + TokenLength(d, i))
  }

  lemma {:induction false} EncodeOntoAppends(out: seq<byte>, d: seq<byte>, i: nat)
    requires i <= |d|
    ensures EncodeOnto(out, d, i) == out + EncodeFrom(d, i)
    decreases |d| - i
  {
    hide TokenCode, TokenLength;
    if i == |d| {
      DropNone(out);
    } else {
      var j := i + TokenLength(d, i);
      EncodeOntoAppends(out + TokenCode(d, i), d, j);
      Assoc(out, TokenCode(d, i), EncodeFrom(d, j));
    }
  }

  method CompressLZ77(data: seq<byte>) returns (compressed: seq<byte>)
    ensures compressed == Encode(data)
  {
    hide BestMatch, EncodeFrom;
    compressed := [];
    var i := 0;
    while i < |data|
      invariant 0 <= i <= |data|
      invariant EncodeOnto(compressed, data, i) == EncodeOnto([], data, 0)
    {
      var matchLength, matchDistance := FindMatch(data, i);
      BestMatchIsLongest(data, i);
      if matchLength >= 3 {
        compressed := compressed + [0x80 + (matchLength - 3), matchDistance % 256];
        i := i + matchLength;
      } else {
        compressed := compressed + [data[i]];
        i := i + 1;
      }
    }
    EncodeOntoAppends([], data, 0);
    DropNone(Encode(data));
  }

  lemma EncodeStep(d: seq<byte>, i: nat)
    requires i < |d|
    ensures EncodeFrom(d, i) == TokenCode(d, i) + EncodeFrom(d, i + TokenLength(d, i))
  {
  }

  lemma EncodeEnd(d: seq<byte>)
    ensures EncodeFrom(d, |d|) == []
  {
  }

  lemma TokenCodeNoLonger(d: seq<byte>, i: nat)
    requires i < |d|
    ensures 1 <= |TokenCode(d, i)| <= TokenLength(d, i)
    ensures TokenLength(d, i) == 1 ==> TokenCode(d, i) == [d[i]]
  {
    hide BestMatch;
  }

  lemma {:induction false} EncodeNeverExpands(d: seq<byte>, i: nat)
    requires i <= |d|
    ensures |EncodeFrom(d, i)| <= |d| - i
    decreases |d| - i
  {
    hide TokenCode, TokenLength;
    if i < |d| {
      TokenCodeNoLonger(d, i);
      EncodeNeverExpands(d, i + TokenLength(d, i));
    }
  }

  // ---------- Decoder ----------

  // The last dist bytes of out, repeated cyclically to n bytes.
  function Cyclic(out: seq<byte>, dist: nat, n: nat): (s: seq<byte>)
    requires 1 <= dist <= |out|
    ensures |s| == n
    ensures forall k :: 0 <= k < n ==> s[k] == out[|out| - dist + k % dist]
  {
    seq(n, k requires 0 <= k < n => out[|out| - dist + k % dist])
  }

  function CopyLength(marker: byte): nat {
    marker % 0x80 + MIN_MATCH
  }

  // The bytes decoded from the front of c behind the output so far.
  function Produced(out: seq<byte>, c: seq<byte>): seq<byte>
    requires c != []
  {
    if c[0] < MARKER || |c| == 1 || c[1] == 0 || c[1] > |out| then [c[0]]
    else Cyclic(out, c[1], CopyLength(c[0]))
  }

  // The bytes the decoder steps over; the step of two may leave the input.
  function Rest(c: seq<byte>): seq<byte>
    requires c != []
  {
    if c[0] < MARKER then c[1..] else if |c| == 1 then [] else c[2..]
  }

  predicate DividesByZero(c: seq<byte>) {
    |c| >= 2 && c[0] >= MARKER && c[1] == 0
  }

  function DecodeOnto(out: seq<byte>, c: seq<byte>): Decoded
    decreases |c|
  {
    if c == [] then Data(out)
    else if DividesByZero(c) then DivisionByZero
    else DecodeOnto(out + Produced(out, c), Rest(c))
  }

  function Decode(c: seq<byte>): Decoded {
    DecodeOnto([], c)
  }

  method DecompressLZ77(data: seq<byte>) returns (r: Decoded)
    ensures r == Decode(data)
  {
    var decompressed := [];
    var i := 0;
    while i < |data|
      invariant 0 <= i
      invariant DecodeOnto(decompressed, Tail(data, i)) == Decode(data)
    {
      DecodeAdvance(data, i, decompressed);
      if data[i] >= 0x80 {
        var length := data[i] % 0x80 + 3;
        if i + 1 < |data| {
          var distance := data[i + 1];
          if distance <= |decompressed| {
            if distance == 0 {
              return DivisionByZero;
            }
            decompressed := AppendCopy(decompressed, distance, length);
          } else {
            decompressed := decompressed + [data[i]];
          }
        } else {
          decompressed := decompressed + [data[i]];
        }
        i := i + 2;
      } else {
        decompressed := decompressed + [data[i]];
        i := i + 1;
      }
    }
    r := Data(decompressed);
  }

  // The copy loop.
  method AppendCopy(decompressed: seq<byte>, distance: nat, length: nat) returns (r: seq<byte>)
    requires 1 <= distance <= |decompressed|
    ensures r == decompressed + Cyclic(decompressed, distance, length)
  {
    r := decompressed;
    var start := |r| - distance;
    for j := 0 to length
      invariant r == decompressed + Cyclic(decompressed, distance, j)
    {
      r := r + [r[start + j % distance]];
    }
  }

  // What is left from index i on; nothing when the step of two passed the end.
  function Tail(c: seq<byte>, i: nat): seq<byte> {
    if i < |c| then c[i..] else []
  }

  lemma DecodeAdvance(c: seq<byte>, i: nat, out: seq<byte>)
    requires i < |c|
    requires DecodeOnto(out, Tail(c, i)) == Decode(c)
    ensures var t := c[i..];
      if DividesByZero(t) then Decode(c) == DivisionByZero
      else DecodeOnto(out + Produced(out, t), Tail(c, i + if c[i] < MARKER then 1 else 2)) == Decode(c)
  {
    var t := c[i..];
    assert Rest(t) == Tail(c, i + if c[i] < MARKER then 1 else 2);
  }

  // The textbook LZ77 copy: each byte is read dist behind the growing end.
  function OverlappingCopy(out: seq<byte>, dist: nat, n: nat): (s: seq<byte>)
    requires 1 <= dist <= |out|
    ensures |s| == |out| + n
  {
    if n == 0 then out else
    var s := OverlappingCopy(out, dist, n - 1);
    s + [s[|s| - dist]]
  }

  // The modular copy of the source is that overlapping copy, for distances shorter than the
  // length too.
  lemma {:induction false} ModularCopyIsOverlapping(out: seq<byte>, dist: nat, n: nat)
    requires 1 <= dist <= |out|
    ensures out + Cyclic(out, dist, n) == OverlappingCopy(out, dist, n)
  {
    hide Cyclic, OverlappingCopy;
    OverlapNext(out, dist, n);
    if n == 0 {
      CyclicNone(out, dist);
      DropNone(out);
    } else {
      ModularCopyIsOverlapping(out, dist, n - 1);
      CyclicNext(out, dist, n - 1);
      CopiedByte(out, dist, n - 1);
      Assoc(out, Cyclic(out, dist, n - 1), [CyclicByte(out, dist, n - 1)]);
    }
  }

  lemma OverlapNext(out: seq<byte>, dist: nat, n: nat)
    requires 1 <= dist <= |out|
    ensures n == 0 ==> OverlappingCopy(out, dist, n) == out
    ensures n > 0 ==>
      var s := OverlappingCopy(out, dist, n - 1);
      OverlappingCopy(out, dist, n) == s + [s[|out| + n - 1 - dist]]
  {
  }

  lemma CyclicNone(out: seq<byte>, dist: nat)
    requires 1 <= dist <= |out|
    ensures Cyclic(out, dist, 0) == []
  {
  }

  function CyclicByte(out: seq<byte>, dist: nat, k: nat): byte
    requires 1 <= dist <= |out|
  {
    out[|out| - dist + k % dist]
  }

  lemma CyclicNext(out: seq<byte>, dist: nat, k: nat)
    requires 1 <= dist <= |out|
    ensures Cyclic(out, dist, k + 1) == Cyclic(out, dist, k) + [CyclicByte(out, dist, k)]
  {
  }

  // The byte dist places back in what has been copied so far.
  lemma CopiedByte(out: seq<byte>, dist: nat, k: nat)
    requires 1 <= dist <= |out|
    ensures (out + Cyclic(out, dist, k))[|out| + k - dist] == CyclicByte(out, dist, k)
  {
    if k < dist {
      SmallMod(k, dist);
    } else {
      ModStep(k, dist);
    }
  }

  lemma SmallMod(k: nat, n: nat)
    requires k < n
    ensures k % n == k
  {
  }

  lemma ModStep(k: nat, n: nat)
    requires 0 < n <= k
    ensures k % n == (k - n) % n
  {
    var q, r := (k - n) / n, (k - n) % n;
    assert k == n * (q + 1) + r;
    DivMod(k, n, q + 1, r);
  }

  // ---------- Round trip ----------

  // No byte except possibly the last has its top bit set.
  predicate LowExceptLast(d: seq<byte>) {
    forall k :: 0 <= k < |d| - 1 ==> d[k] < MARKER
  }

  lemma DecodeEnd(out: seq<byte>)
    ensures DecodeOnto(out, []) == Data(out)
  {
  }

  lemma DecodeStep(out: seq<byte>, c: seq<byte>)
    requires c != []
    ensures DecodeOnto(out, c) ==
      if DividesByZero(c) then DivisionByZero else DecodeOnto(out + Produced(out, c), Rest(c))
  {
  }

  lemma DecodesTo(out: seq<byte>, c: seq<byte>, produced: seq<byte>, rest: seq<byte>)
    requires c != [] && !DividesByZero(c) && Produced(out, c) == produced && Rest(c) == rest
    ensures DecodeOnto(out, c) == DecodeOnto(out + produced, rest)
  {
    hide DecodeOnto, Produced, Rest;
    DecodeStep(out, c);
  }

  lemma CopiedBack(out: seq<byte>, c: seq<byte>)
    requires |c| >= 2 && c[0] >= MARKER && CopyLength(c[0]) <= c[1] <= |out|
    ensures Produced(out, c) == out[|out| - c[1]..|out| - c[1] + CopyLength(c[0])]
  {
    var n, copied := CopyLength(c[0]), Produced(out, c);
    forall k | 0 <= k < n ensures copied[k] == out[|out| - c[1] + k] {
      SmallMod(k, c[1]);
    }
  }

  lemma Grows(d: seq<byte>, i: nat, part: seq<byte>)
    requires i + |part| <= |d| && d[i..i + |part|] == part
    ensures d[..i] + part == d[..i + |part|]
  {
  }

  lemma PairCopies(d: seq<byte>, i: nat, marker: byte, dist: byte, rest: seq<byte>)
    requires marker >= MARKER && CopyLength(marker) <= dist <= i && i + CopyLength(marker) <= |d|
    requires d[i..i + CopyLength(marker)] == d[i - dist..i - dist + CopyLength(marker)]
    ensures DecodeOnto(d[..i], [marker, dist] + rest) == DecodeOnto(d[..i + CopyLength(marker)], rest)
  {
    hide DecodeOnto, Produced;
    var c: seq<byte>, n := [marker, dist] + rest, CopyLength(marker);
    assert c[0] == marker && c[1] == dist && c[2..] == rest;
    CopiedBack(d[..i], c);
    assert d[..i][i - dist..i - dist + n] == d[i - dist..i - dist + n];
    Grows(d, i, d[i - dist..i - dist + n]);
    DecodesTo(d[..i], c, d[i - dist..i - dist + n], rest);
  }

  lemma LiteralCopied(d: seq<byte>, i: nat, rest: seq<byte>)
    requires i < |d| && d[i] < MARKER
    ensures DecodeOnto(d[..i], [d[i]] + rest) == DecodeOnto(d[..i + 1], rest)
  {
    hide DecodeOnto;
    var c := [d[i]] + rest;
    assert c[0] == d[i] && c[1..] == rest;
    Grows(d, i, [d[i]]);
    DecodesTo(d[..i], c, [d[i]], rest);
  }

  // One emitted pair, or one literal below 0x80, decodes to the bytes it stands for.
  lemma DecodeToken(d: seq<byte>, i: nat)
    requires i < |d|
    requires TokenLength(d, i) > 1 || d[i] < MARKER
    ensures var n := TokenLength(d, i);
      DecodeOnto(d[..i], EncodeFrom(d, i)) == DecodeOnto(d[..i + n], EncodeFrom(d, i + n))
  {
    hide BestMatch, DecodeOnto, EncodeFrom;
    BestMatchIsLongest(d, i);
    EncodeStep(d, i);
    var m, rest := BestMatch(d, i), EncodeFrom(d, i + TokenLength(d, i));
    if m.len >= MIN_MATCH {
      PairCopies(d, i, MARKER + (m.len - MIN_MATCH), m.dist, rest);
    } else {
      LiteralCopied(d, i, rest);
    }
  }

  // A final literal of 0x80 or more has no distance behind it and is kept.
  lemma DecodeLastHigh(d: seq<byte>)
    requires d != [] && TokenLength(d, |d| - 1) == 1 && d[|d| - 1] >= MARKER
    ensures DecodeOnto(d[..|d| - 1], EncodeFrom(d, |d| - 1)) == Data(d)
  {
    hide TokenLength, TokenCode, EncodeFrom, DecodeOnto;
    var i, b := |d| - 1, d[|d| - 1];
    assert EncodeFrom(d, i) == [b] by {
      EncodeStep(d, i);
      EncodeEnd(d);
      TokenCodeNoLonger(d, i);
      DropNone([b]);
    }
    DecodeStep(d[..i], [b]);
    DecodeEnd(d[..i] + [b]);
    SplitAt(d, i);
    assert d[i..] == [b];
  }

  // At every token the decoder's output is the prefix coded so far.
  lemma {:induction false} DecodesPrefix(d: seq<byte>, i: nat)
    requires i <= |d|
    requires LowExceptLast(d)
    ensures DecodeOnto(d[..i], EncodeFrom(d, i)) == Data(d)
    decreases |d| - i
  {
    hide TokenCode, DecodeOnto;
    if i == |d| {
      assert d[..i] == d;
      DecodeEnd(d);
    } else if TokenLength(d, i) > 1 || d[i] < MARKER {
      DecodeToken(d, i);
      DecodesPrefix(d, i + TokenLength(d, i));
    } else {
      DecodeLastHigh(d);
    }
  }

  lemma RoundTrip(d: seq<byte>)
    requires LowExceptLast(d)
    ensures Decode(Encode(d)) == Data(d)
  {
    DecodesPrefix(d, 0);
  }

  // ---------- Inputs with a byte 0x80 or more before the end ----------

  ghost predicate FirstHigh(d: seq<byte>, p: nat) {
    p < |d| && d[p] >= MARKER && forall k :: 0 <= k < p ==> d[k] < MARKER
  }

  // The first such byte cannot be part of a match, so it is emitted as it is.
  lemma FirstHighIsLiteral(d: seq<byte>, p: nat, i: nat)
    requires FirstHigh(d, p) && i <= p
    ensures if i == p then TokenCode(d, i) == [d[p]] && TokenLength(d, i) == 1 else i + TokenLength(d, i) <= p
  {
    hide BestMatch;
    BestMatchIsLongest(d, i);
    var m := BestMatch(d, i);
    if m.len > 0 {
      var j := i - m.dist;
      MatchedBytes(d, i, j, m.len);
      forall k | i <= k < i + m.len ensures d[k] < MARKER {
        assert d[k] == d[j + (k - i)];
      }
      assert p >= i + m.len;
    }
  }

  lemma {:induction false} ReachesFirstHigh(d: seq<byte>, p: nat, i: nat)
    requires FirstHigh(d, p) && i <= p
    ensures DecodeOnto(d[..i], EncodeFrom(d, i)) == DecodeOnto(d[..p], EncodeFrom(d, p))
    ensures EncodeFrom(d, p) == [d[p]] + EncodeFrom(d, p + 1)
    decreases p - i
  {
    hide TokenLength, TokenCode, DecodeOnto;
    FirstHighIsLiteral(d, p, i);
    if i < p {
      DecodeToken(d, i);
      ReachesFirstHigh(d, p, i + TokenLength(d, i));
    }
  }

  lemma {:induction false} DecodeExtends(out: seq<byte>, c: seq<byte>)
    ensures DecodeOnto(out, c).Data? ==> out <= DecodeOnto(out, c).bytes
    decreases |c|
  {
    if c != [] && !DividesByZero(c) {
      DecodeExtends(out + Produced(out, c), Rest(c));
    }
  }

  // The byte that the coder emits right behind the first high byte; the decoder takes it for
  // a distance.
  function NextEmitted(d: seq<byte>, p: nat): byte
    requires p + 1 < |d|
  {
    EncodeFrom(d, p + 1)[0]
  }

  // A distance that reaches into the output: the decoder divides by zero or goes wrong at p.
  // From position 255 on every byte is such a distance.
  lemma HighByteCorrupts(d: seq<byte>, p: nat)
    requires FirstHigh(d, p) && p + 1 < |d|
    requires NextEmitted(d, p) <= p
    ensures Decode(Encode(d)) != Data(d)
  {
    hide EncodeFrom, TokenLength, TokenCode, DecodeOnto;
    ReachesFirstHigh(d, p, 0);
    EncodeStep(d, p + 1);
    var out, c := d[..p], EncodeFrom(d, p);
    DecodeStep(out, c);
    if c[1] > 0 {
      FirstCopied(out, c);
      DecodeExtends(out + Produced(out, c), Rest(c));
    }
  }

  lemma FirstCopied(out: seq<byte>, c: seq<byte>)
    requires |c| >= 2 && c[0] >= MARKER && 1 <= c[1] <= |out|
    ensures (out + Produced(out, c))[|out|] == out[|out| - c[1]]
  {
    SmallMod(0, c[1]);
  }

  // Three bytes are enough.
  lemma HighByteExample()
    ensures Decode(Encode([1, 0x80, 1])) != Data([1, 0x80, 1])
  {
    var d: seq<byte> := [1, 0x80, 1];
    ShortIsCopied(d, 2);
    assert FirstHigh(d, 1);
    HighByteCorrupts(d, 1);
  }

  lemma {:induction false} LowDecodesNoLonger(d: seq<byte>, i: nat, out: seq<byte>)
    requires i <= |d|
    requires forall k :: i <= k < |d| ==> d[k] < MARKER
    ensures var r := DecodeOnto(out, EncodeFrom(d, i)); r.Data? && |r.bytes| <= |out| + |d| - i
    decreases |d| - i
  {
    hide BestMatch, DecodeOnto, EncodeFrom;
    if i < |d| {
      BestMatchIsLongest(d, i);
      var m, n := BestMatch(d, i), TokenLength(d, i);
      var c, rest := EncodeFrom(d, i), EncodeFrom(d, i + n);
      EncodeStep(d, i);
      DecodeStep(out, c);
      assert Rest(c) == rest;
      LowDecodesNoLonger(d, i + n, out + Produced(out, c));
    } else {
      EncodeEnd(d);
      DecodeEnd(out);
    }
  }

  // The byte behind a high one is a distance out of reach, and the match behind it starts so far
  // back that its own distance is read as the next marker. Only for 127 <= p < 140.
  predicate Misaligned(d: seq<byte>, p: nat)
    requires p + 1 < |d|
  {
    NextEmitted(d, p) > p && BestMatch(d, p + 1).len >= MIN_MATCH && BestMatch(d, p + 1).dist >= MARKER
  }

  lemma MisalignedPositions(d: seq<byte>, p: nat)
    requires p + 1 < |d| && Misaligned(d, p)
    ensures 127 <= p < 140
  {
    hide BestMatch;
    BestMatchIsLongest(d, p + 1);
  }

  // A single high byte that is not the last corrupts the message, unless it is misaligned.
  lemma OneHighByteCorrupts(d: seq<byte>, p: nat)
    requires p + 1 < |d| && !Misaligned(d, p)
    requires d[p] >= MARKER && forall k :: 0 <= k < |d| && k != p ==> d[k] < MARKER
    ensures Decode(Encode(d)) != Data(d)
  {
    hide EncodeFrom, DecodeOnto, TokenCode, TokenLength;
    if NextEmitted(d, p) <= p {
      HighByteCorrupts(d, p);
    } else {
      ReachesFirstHigh(d, p, 0);
      EncodeStep(d, p + 1);
      var out, c, tail := d[..p], EncodeFrom(d, p), EncodeFrom(d, p + 1);
      DropAppend([d[p]], tail);
      assert c[1] == tail[0] && Rest(c) == tail[1..];
      DecodeStep(out, c);
      SkippedByteShortens(d, p + 1, out + Produced(out, c));
    }
  }

  // The decoder stepped over the first byte of the token at q: it ends up short.
  lemma SkippedByteShortens(d: seq<byte>, q: nat, out: seq<byte>)
    requires q < |d| && |out| == q
    requires forall k :: q <= k < |d| ==> d[k] < MARKER
    requires BestMatch(d, q).len >= MIN_MATCH ==> BestMatch(d, q).dist < MARKER
    ensures DecodeOnto(out, EncodeFrom(d, q)[1..]) != Data(d)
  {
    hide BestMatch, DecodeOnto, EncodeFrom;
    BestMatchIsLongest(d, q);
    var m, n := BestMatch(d, q), TokenLength(d, q);
    var rest := EncodeFrom(d, q + n);
    EncodeStep(d, q);
    if m.len >= MIN_MATCH {
      var tail := [m.dist] + rest;
      assert EncodeFrom(d, q)[1..] == tail;
      DecodeStep(out, tail);
      assert Produced(out, tail) == [m.dist] && Rest(tail) == rest;
      LowDecodesNoLonger(d, q + n, out + [m.dist]);
    } else {
      DropAppend([d[q]], rest);
      LowDecodesNoLonger(d, q + 1, out);
    }
  }

  // A misaligned high byte may do no harm: here the two misread pairs copy just what is due.
  function HarmlessByte(k: nat): byte {
    if k < 29 then k
    else if k < 55 then 0
    else if k < 70 then k - 41
    else if k == 70 then 100
    else if k < 139 then 0
    else if k == 139 then 0xC8
    else if k < 155 then k - 140
    else if k < 170 then k - 141
    else 100
  }

  const HARMLESS: seq<byte> := seq(171, k requires 0 <= k => HarmlessByte(k))

  lemma MatchIs(d: seq<byte>, i: nat, j: nat)
    requires WindowStart(i) <= j < i && Matches(d, i, j, MAX_MATCH)
    requires forall k :: WindowStart(i) <= k < j ==> d[k] != d[i]
    ensures BestMatch(d, i) == Match(MAX_MATCH, i - j)
  {
    hide BestMatch;
    BestMatchIsLongest(d, i);
    var m := BestMatch(d, i);
    MatchedBytes(d, i, i - m.dist, m.len);
    assert i - m.dist <= j && d[i] == d[i - m.dist + 0];
  }

  lemma HarmlessTokens()
    ensures EncodeFrom(HARMLESS, 140) == [0x8C, 140, 0x8C, 141, 100]
  {
    hide BestMatch, EncodeFrom;
    var d := HARMLESS;
    MatchIs(d, 140, 0);
    MatchIs(d, 155, 14);
    BestMatchIsLongest(d, 170);
    EncodeStep(d, 140);
    EncodeStep(d, 155);
    EncodeStep(d, 170);
    EncodeEnd(d);
  }

  lemma MisalignedMayBeHarmless()
    ensures HARMLESS[139] >= MARKER && forall k :: 0 <= k < |HARMLESS| && k != 139 ==> HARMLESS[k] < MARKER
    ensures Misaligned(HARMLESS, 139) && Decode(Encode(HARMLESS)) == Data(HARMLESS)
  {
    hide EncodeFrom, DecodeOnto, BestMatch, Produced;
    var d := HARMLESS;
    HarmlessTokens();
    MatchIs(d, 140, 0);
    ReachesFirstHigh(d, 139, 0);
    HarmlessFits();
    HarmlessDecodes(d);
    assert [0xC8] + [0x8C, 140, 0x8C, 141, 100] == [0xC8, 0x8C] + ([140, 0x8C] + ([141, 100] + []));
    assert d[..0] == [];
  }

  // What of the data the decoder needs.
  predicate CopiesFit(d: seq<byte>) {
    |d| == 171 && d[139] == 0xC8 && d[140..155] == d[0..15] && d[155..171] == d[55..71]
  }

  lemma HarmlessFits()
    ensures CopiesFit(HARMLESS)
  {
  }

  // The high byte is kept, and each of the two pairs behind it copies what is due.
  lemma HighByteKept(d: seq<byte>, rest: seq<byte>)
    requires CopiesFit(d)
    ensures DecodeOnto(d[..139], [0xC8, 0x8C] + rest) == DecodeOnto(d[..140], rest)
  {
    hide DecodeOnto;
    var c: seq<byte> := [0xC8, 0x8C] + rest;
    assert c[0] == 0xC8 && c[1] == 0x8C && c[2..] == rest;
    Grows(d, 139, [0xC8]);
    DecodesTo(d[..139], c, [0xC8], rest);
  }

  lemma HarmlessDecodes(d: seq<byte>)
    requires CopiesFit(d)
    ensures DecodeOnto(d[..139], [0xC8, 0x8C] + ([140, 0x8C] + ([141, 100] + []))) == Data(d)
  {
    hide DecodeOnto;
    HighByteKept(d, [140, 0x8C] + ([141, 100] + []));
    PairCopies(d, 140, 140, 0x8C, [141, 100] + []);
    PairCopies(d, 155, 141, 100, []);
    DecodeEnd(d[..171]);
    assert d[..171] == d;
  }

  // With two high bytes the damage can cancel out: this input comes back although its first
  // high byte is not the last byte. So no condition on the first high byte alone is exact.
  lemma HighBytesMayCancel()
    ensures var d: seq<byte> := [2, 0x80, 2, 0x80, 2];
      FirstHigh(d, 1) && !LowExceptLast(d) && Decode(Encode(d)) == Data(d)
  {
    hide EncodeFrom, DecodeOnto;
    var d: seq<byte> := [2, 0x80, 2, 0x80, 2];
    ShortIsCopied(d, 0);
    DropNone(d);
    var out: seq<byte> := [2, 0x80];
    DecodeStep([], d);
    assert [] + Produced([], d) == [2] && Rest(d) == [0x80, 2, 0x80, 2];
    DecodeStep([2], [0x80, 2, 0x80, 2]);
    assert [2] + Produced([2], [0x80, 2, 0x80, 2]) == out && Rest([0x80, 2, 0x80, 2]) == [0x80, 2];
    DecodeStep(out, [0x80, 2]);
    var copied := Cyclic(out, 2, 3);
    assert copied[0] == 2 && copied[1] == 0x80 && copied[2] == 2;
    assert out + copied == d && Rest([0x80, 2]) == [];
    DecodeEnd(d);
  }

  lemma {:induction false} ShortIsCopied(d: seq<byte>, i: nat)
    requires i <= |d| <= 5
    ensures EncodeFrom(d, i) == d[i..]
    decreases |d| - i
  {
    if i < |d| {
      BestMatchIsLongest(d, i);
      ShortIsCopied(d, i + 1);
    }
  }
}
