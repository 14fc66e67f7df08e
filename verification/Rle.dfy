// Run-length coder of src/optimization/DynamicNetworkOptimizer.cpp.
//
// Encode and Decode are the byte-level specifications; CompressRLE and DecompressRLE are
// the loops of the source, proved equal to them. The results are:
//   RoundTripExactly     Decode(Encode(d)) == d exactly for the inputs SafeToCompress accepts
//   EncodeIsShortest     no byte string that decodes to d is shorter than Encode(d)
//   DetectorIsExact      on 0xFF-free data the detector answers "there is a run of 4 or more"
module Rle {
  import opened Words
  import opened Seqs

  const ESCAPE: byte := 0xFF

  function Repeat(v: byte, n: nat): (s: seq<byte>)
    ensures |s| == n
    ensures forall k :: 0 <= k < n ==> s[k] == v
  {
    seq(n, _ => v)
  }

  // Extends a run of k bytes at index i, at most to `limit` bytes.
  function RunLength(d: seq<byte>, i: nat, k: nat, limit: nat): (n: nat)
    requires 1 <= k <= limit && i + k <= |d|
    ensures k <= n <= limit && i + n <= |d|
    decreases |d| - k
  {
    if i + k < |d| && d[i + k] == d[i] && k < limit then RunLength(d, i, k + 1, limit) else k
  }

  lemma {:induction false} RunLengthIs(d: seq<byte>, i: nat, k: nat, limit: nat, n: nat)
    requires 1 <= k <= n <= limit && i + n <= |d|
    requires forall j :: i <= j < i + n ==> d[j] == d[i]
    requires i + n == |d| || d[i + n] != d[i] || n == limit
    ensures RunLength(d, i, k, limit) == n
    decreases n - k
  {
    if k < n {
      RunLengthIs(d, i, k + 1, limit, n);
    }
  }

  lemma {:induction false} RunLengthIsRun(d: seq<byte>, i: nat, k: nat, limit: nat)
    requires 1 <= k <= limit && i + k <= |d|
    requires forall j :: i <= j < i + k ==> d[j] == d[i]
    ensures var n := RunLength(d, i, k, limit);
      (forall j :: i <= j < i + n ==> d[j] == d[i]) && (i + n < |d| && n < limit ==> d[i + n] != d[i])
    decreases |d| - k
  {
    if i + k < |d| && d[i + k] == d[i] && k < limit {
      RunLengthIsRun(d, i, k + 1, limit);
    }
  }

  lemma RunLengthOfSuffix(d: seq<byte>, i: nat, limit: nat)
    requires i < |d| && 1 <= limit
    ensures RunLength(d[i..], 0, 1, limit) == RunLength(d, i, 1, limit)
  {
    RunLengthIsRun(d, i, 1, limit);
    RunLengthIs(d[i..], 0, 1, limit, RunLength(d, i, 1, limit));
  }

  function Chunk(v: byte, n: nat): seq<byte>
    requires n <= 255
  {
    if n > 3 then [ESCAPE, n, v] else Repeat(v, n)
  }

  function Encode(d: seq<byte>): seq<byte> {
    if d == [] then [] else
    var n := RunLength(d, 0, 1, 255);
    Chunk(d[0], n) + Encode(d[n..])
  }

  function Decode(c: seq<byte>): seq<byte> {
    if c == [] then []
    else if c[0] == ESCAPE && |c| > 2 then Repeat(c[2], c[1]) + Decode(c[3..])
    else [c[0]] + Decode(c[1..])
  }

  // ---------- The loops of the source ----------

  // What the coder has written when it ends, out being written when it stood at index i.
  function EncodeOnto(out: seq<byte>, d: seq<byte>, i: nat): seq<byte>
    requires i <= |d|
    decreases |d| - i
  {
    if i == |d| then out else
    var n := RunLength(d, i, 1, 255);
    EncodeOnto(out + Chunk(d[i], n), d, i + n)
  }

  lemma {:induction false} EncodeOntoAppends(out: seq<byte>, d: seq<byte>, i: nat)
    requires i <= |d|
    ensures EncodeOnto(out, d, i) == out + Encode(d[i..])
    decreases |d| - i
  {
    hide Encode;
    if i == |d| {
      EncodeStep(d[i..]);
      DropNone(out);
    } else {
      var n := RunLength(d, i, 1, 255);
      RunLengthOfSuffix(d, i, 255);
      EncodeStep(d[i..]);
      EncodeOntoAppends(out + Chunk(d[i], n), d, i + n);
      DropDrop(d, i, n);
      Assoc(out, Chunk(d[i], n), Encode(d[i + n..]));
    }
  }

  method CompressRLE(data: seq<byte>) returns (compressed: seq<byte>)
    ensures compressed == Encode(data)
  {
    compressed := [];
    var i := 0;
    while i < |data|
      invariant 0 <= i <= |data|
      invariant EncodeOnto(compressed, data, i) == EncodeOnto([], data, 0)
    {
      var current := data[i];
      var count := 1;
      while i + count < |data| && data[i + count] == current && count < 255
        invariant 1 <= count <= 255 && i + count <= |data|
        invariant RunLength(data, i, count, 255) == RunLength(data, i, 1, 255)
        decreases |data| - count
      {
        count := count + 1;
      }
      compressed := AppendChunk(compressed, current, count);
      i := i + count;
    }
    EncodeOntoAppends([], data, 0);
    DropNone(data);
    DropNone(Encode(data));
  }

  // The two branches on count > 3.
  method AppendChunk(compressed: seq<byte>, current: byte, count: nat) returns (r: seq<byte>)
    requires count <= 255
    ensures r == compressed + Chunk(current, count)
  {
    r := compressed;
    if count > 3 {
      r := r + [ESCAPE, count, current];
    } else {
      for j := 0 to count
        invariant r == compressed + Repeat(current, j)
      {
        r := r + [current];
      }
    }
  }

  // Decode with the output written so far.
  function DecodeOnto(out: seq<byte>, c: seq<byte>): seq<byte>
    decreases |c|
  {
    if c == [] then out
    else if c[0] == ESCAPE && |c| > 2 then DecodeOnto(out + Repeat(c[2], c[1]), c[3..])
    else DecodeOnto(out + [c[0]], c[1..])
  }

  lemma {:induction false} DecodeOntoAppends(out: seq<byte>, c: seq<byte>)
    ensures DecodeOnto(out, c) == out + Decode(c)
    decreases |c|
  {
    if c == [] {
      DropNone(out);
    } else if c[0] == ESCAPE && |c| > 2 {
      DecodeOntoAppends(out + Repeat(c[2], c[1]), c[3..]);
      Assoc(out, Repeat(c[2], c[1]), Decode(c[3..]));
    } else {
      DecodeOntoAppends(out + [c[0]], c[1..]);
      Assoc(out, [c[0]], Decode(c[1..]));
    }
  }

  method DecompressRLE(data: seq<byte>) returns (decompressed: seq<byte>)
    ensures decompressed == Decode(data)
  {
    decompressed := [];
    var i := 0;
    DropNone(data);
    while i < |data|
      invariant 0 <= i <= |data|
      invariant DecodeOnto(decompressed, data[i..]) == DecodeOnto([], data)
    {
      if data[i] == ESCAPE && i + 2 < |data| {
        DropDrop(data, i, 3);
        decompressed := AppendCopies(decompressed, data[i + 1], data[i + 2]);
        i := i + 3;
      } else {
        DropDrop(data, i, 1);
        decompressed := decompressed + [data[i]];
        i := i + 1;
      }
    }
    DecodeOntoAppends([], data);
    DropNone(Decode(data));
  }

  method AppendCopies(decompressed: seq<byte>, count: byte, value: byte) returns (r: seq<byte>)
    ensures r == decompressed + Repeat(value, count)
  {
    r := decompressed;
    for j := 0 to count
      invariant r == decompressed + Repeat(value, j)
    {
      r := r + [value];
    }
  }

  lemma EncodeStep(d: seq<byte>)
    ensures d == [] ==> Encode(d) == []
    ensures d != [] ==> var n := RunLength(d, 0, 1, 255); Encode(d) == Chunk(d[0], n) + Encode(d[n..])
  {
  }

  lemma EncodeChunk(d: seq<byte>, n: nat)
    requires 1 <= n <= |d| && n <= 255
    requires forall j :: 0 <= j < n ==> d[j] == d[0]
    requires n == |d| || d[n] != d[0] || n == 255
    ensures Encode(d) == Chunk(d[0], n) + Encode(d[n..])
  {
    hide Encode;
    RunLengthIs(d, 0, 1, 255, n);
    EncodeStep(d);
  }

  // ---------- Encode is the shortest string that decodes to its input ----------

  // What Encode produces for a maximal run of n bytes v.
  function RunCode(v: byte, n: nat): seq<byte> {
    if n >= 255 then Chunk(v, 255) + RunCode(v, n - 255) else Chunk(v, n)
  }

  function RunCost(n: nat): nat {
    var r := n % 255;
    3 * (n / 255) + if r > 3 then 3 else r
  }

  lemma {:induction false} RunCodeLength(v: byte, n: nat)
    ensures |RunCode(v, n)| == RunCost(n)
  {
    if n >= 255 {
      RunCodeLength(v, n - 255);
      assert n == 255 * (1 + (n - 255) / 255) + (n - 255) % 255;
    }
  }

  lemma RepeatAdd(v: byte, a: nat, b: nat)
    ensures Repeat(v, a) + Repeat(v, b) == Repeat(v, a + b)
  {
  }

  // A run in front of something that does not continue it.
  lemma {:induction false} EncodeRun(v: byte, n: nat, rest: seq<byte>)
    requires rest == [] || rest[0] != v
    ensures Encode(Repeat(v, n) + rest) == RunCode(v, n) + Encode(rest)
    decreases n
  {
    hide Encode;
    var d := Repeat(v, n) + rest;
    if n == 0 {
      DropNone(rest);
      DropNone(Encode(rest));
    } else {
      var m := if n < 255 then n else 255;
      EncodeChunk(d, m);
      RepeatAdd(v, m, n - m);
      Assoc(Repeat(v, m), Repeat(v, n - m), rest);
      DropAppend(Repeat(v, m), Repeat(v, n - m) + rest);
      EncodeRun(v, n - m, rest);
      Assoc(Chunk(v, m), RunCode(v, n - m), Encode(rest));
      DropNone(Chunk(v, m));
    }
  }

  // The length of the maximal run at the front of d and what follows it.
  function Leading(d: seq<byte>): (n: nat)
    requires d != []
    ensures 1 <= n <= |d|
  {
    RunLength(d, 0, 1, |d|)
  }

  lemma SplitRun(d: seq<byte>)
    requires d != []
    ensures var v, n := d[0], Leading(d);
      && d == Repeat(v, n) + d[n..]
      && (n < |d| ==> d[n] != v)
      && Encode(d) == RunCode(v, n) + Encode(d[n..])
  {
    hide Encode, RunCode, Leading, Repeat;
    LeadingIsRun(d);
    EncodeRun(d[0], Leading(d), d[Leading(d)..]);
  }

  lemma LeadingIsRun(d: seq<byte>)
    requires d != []
    ensures var v, n := d[0], Leading(d);
      d == Repeat(v, n) + d[n..] && (n < |d| ==> d[n] != v)
  {
    hide RunLength, Repeat;
    RunLengthIsRun(d, 0, 1, |d|);
    SplitAt(d, Leading(d));
    assert d[..Leading(d)] == Repeat(d[0], Leading(d));
  }

  lemma RunCostGrows(a: nat, n: nat)
    ensures n <= 255 ==> RunCost(a + n) <= RunCost(a) + 3
    ensures RunCost(a + 1) <= RunCost(a) + 1
  {
    var q, r := a / 255, a % 255;
    assert a == 255 * q + r;
    if n <= 255 {
      assert (a + n) / 255 == if r + n < 255 then q else if r + n < 510 then q + 1 else q + 2;
    }
    assert (a + 1) / 255 == if r + 1 < 255 then q else q + 1;
  }

  // Putting n copies of one byte in front costs at most one escape triple, one byte for n == 1.
  lemma EncodePrepend(v: byte, n: nat, d: seq<byte>)
    requires n <= 255
    ensures |Encode(Repeat(v, n) + d)| <= |Encode(d)| + 3
    ensures n == 1 ==> |Encode(Repeat(v, n) + d)| <= |Encode(d)| + 1
  {
    hide Encode, RunCode, RunCost, Leading;
    var a, rest := 0, d;
    if d != [] && d[0] == v {
      SplitRun(d);
      a := Leading(d);
      rest := d[a..];
    } else {
      DropNone(d);
      EncodeRun(v, 0, d);
    }
    RepeatAdd(v, n, a);
    Assoc(Repeat(v, n), Repeat(v, a), rest);
    EncodeRun(v, n + a, rest);
    RunCodeLength(v, a);
    RunCodeLength(v, n + a);
    RunCostGrows(a, n);
  }

  // No byte string whatsoever that the decoder maps to the same data is shorter.
  lemma {:induction false} EncodeIsShortest(w: seq<byte>)
    ensures |Encode(Decode(w))| <= |w|
  {
    hide Encode;
    if w == [] {
      EncodeStep(w);
    } else if w[0] == ESCAPE && |w| > 2 {
      EncodeIsShortest(w[3..]);
      EncodePrepend(w[2], w[1], Decode(w[3..]));
    } else {
      EncodeIsShortest(w[1..]);
      EncodePrepend(w[0], 1, Decode(w[1..]));
      assert [w[0]] == Repeat(w[0], 1);
    }
  }

  lemma {:induction false} EncodeNeverExpands(d: seq<byte>)
    ensures |Encode(d)| <= |d|
  {
    hide Encode;
    EncodeStep(d);
    if d != [] {
      EncodeNeverExpands(d[RunLength(d, 0, 1, 255)..]);
    }
  }

  // ---------- The exact domain of the round trip ----------

  // A maximal run of n bytes 0xFF with `after` bytes behind it. The coder leaves n % 255
  // bytes 0xFF unescaped when that is 1, 2 or 3; the decoder takes an unescaped 0xFF for an
  // escape unless at most two bytes of input remain.
  predicate SafeRun(n: nat, after: nat) {
    var r := n % 255;
    r == 0 || r > 3 || (after == 0 && r <= 2) || (after == 1 && r == 1)
  }

  // Every maximal run of 0xFF is safe.
  predicate SafeToCompress(d: seq<byte>) {
    if d == [] then true else
    var n := Leading(d);
    (d[0] == ESCAPE ==> SafeRun(n, |d| - n)) && SafeToCompress(d[n..])
  }

  lemma {:induction false} DecodeRepeat(v: byte, n: nat, c: seq<byte>)
    requires v != ESCAPE
    ensures Decode(Repeat(v, n) + c) == Repeat(v, n) + Decode(c)
  {
    if n == 0 {
      DropNone(c);
      DropNone(Decode(c));
    } else {
      RepeatAdd(v, 1, n - 1);
      Assoc(Repeat(v, 1), Repeat(v, n - 1), c);
      DecodeLiteral(v, Repeat(v, n - 1) + c);
      DecodeRepeat(v, n - 1, c);
      Assoc(Repeat(v, 1), Repeat(v, n - 1), Decode(c));
    }
  }

  lemma DecodeLiteral(v: byte, c: seq<byte>)
    requires v != ESCAPE || |c| <= 1
    ensures Decode(Repeat(v, 1) + c) == Repeat(v, 1) + Decode(c)
  {
    var w := Repeat(v, 1) + c;
    DropAppend(Repeat(v, 1), c);
    assert Repeat(v, 1) == [w[0]];
  }

  lemma DecodeEscape(n: byte, v: byte, c: seq<byte>)
    ensures Decode([ESCAPE, n, v] + c) == Repeat(v, n) + Decode(c)
  {
    DropAppend([ESCAPE, n, v], c);
  }

  // The 255-byte chunks of a run always decode; what is left is its last chunk.
  lemma {:induction false} DecodeFullChunks(v: byte, n: nat, c: seq<byte>)
    ensures Decode(RunCode(v, n) + c) == Repeat(v, n - n % 255) + Decode(Chunk(v, n % 255) + c)
  {
    hide Decode;
    var r := n % 255;
    if n >= 255 {
      var m := n - 255;
      assert m % 255 == r;
      DecodeFullChunks(v, m, c);
      Assoc(Chunk(v, 255), RunCode(v, m), c);
      DecodeEscape(255, v, RunCode(v, m) + c);
      Assoc(Repeat(v, 255), Repeat(v, m - r), Decode(Chunk(v, r) + c));
      RepeatAdd(v, 255, m - r);
    } else {
      DropNone(Decode(Chunk(v, n) + c));
    }
  }

  lemma DecodeLastChunk(v: byte, r: nat, rest: seq<byte>)
    requires r < 255
    requires v == ESCAPE ==> SafeRun(r, |rest|)
    ensures Decode(Chunk(v, r) + Encode(rest)) == Repeat(v, r) + Decode(Encode(rest))
  {
    hide Encode, Decode;
    var c := Encode(rest);
    if r > 3 {
      DecodeEscape(r, v, c);
    } else if v != ESCAPE {
      DecodeRepeat(v, r, c);
    } else if r == 0 {
      DropNone(c);
      DropNone(Decode(c));
    } else {
      EncodeNeverExpands(rest);
      DecodeLiteral(v, c);
      if r == 2 {
        RepeatAdd(v, 1, 1);
        Assoc(Repeat(v, 1), Repeat(v, 1), c);
        DecodeLiteral(v, Repeat(v, 1) + c);
        Assoc(Repeat(v, 1), Repeat(v, 1), Decode(c));
      }
    }
  }

  lemma DecodeSafeRun(v: byte, n: nat, rest: seq<byte>)
    requires v == ESCAPE ==> SafeRun(n, |rest|)
    ensures Decode(RunCode(v, n) + Encode(rest)) == Repeat(v, n) + Decode(Encode(rest))
  {
    hide Encode, Decode, RunCode, Chunk, Repeat;
    var r, c := n % 255, Encode(rest);
    assert SafeRun(n, |rest|) ==> SafeRun(r, |rest|);
    var full, last := Repeat(v, n - r), Repeat(v, r);
    calc {
      Decode(RunCode(v, n) + c);
      { DecodeFullChunks(v, n, c); }
      full + Decode(Chunk(v, r) + c);
      { DecodeLastChunk(v, r, rest); }
      full + (last + Decode(c));
      { Assoc(full, last, Decode(c)); }
      (full + last) + Decode(c);
      { RepeatAdd(v, n - r, r); }
      Repeat(v, n) + Decode(c);
    }
  }

  lemma EncodeLengthAtLeast(d: seq<byte>)
    ensures |d| >= 1 ==> |Encode(d)| >= 1
    ensures |d| >= 2 ==> |Encode(d)| >= 2
  {
    hide Encode;
    if d != [] {
      var n := RunLength(d, 0, 1, 255);
      EncodeStep(d);
      if n < |d| {
        EncodeStep(d[n..]);
      }
    }
  }

  // Two or three unescaped 0xFF that are not at the very end come back as 255 copies of
  // whatever follows two places on.
  lemma UnsafePair(r: nat, rest: seq<byte>)
    requires 2 <= r <= 3 && !SafeRun(r, |rest|)
    requires rest == [] || rest[0] != ESCAPE
    ensures Decode(Repeat(ESCAPE, r) + Encode(rest)) != Repeat(ESCAPE, r) + rest
  {
    hide Encode, Decode;
    EncodeLengthAtLeast(rest);
    var w, d := Repeat(ESCAPE, r) + Encode(rest), Repeat(ESCAPE, r) + rest;
    var t := w[2];
    assert w == [ESCAPE, 255, t] + w[3..];
    DecodeEscape(255, t, w[3..]);
    var got := Repeat(t, 255) + Decode(w[3..]);
    assert got[0] == got[r] == t;
    assert |d| > r ==> d[0] == ESCAPE && d[r] == rest[0];
  }

  // A single unescaped 0xFF followed by two bytes or more. Here the optimality of Encode is
  // needed: the decoder would have to rebuild the rest from too few bytes.
  lemma UnsafeSingle(rest: seq<byte>)
    requires |rest| >= 2 && rest[0] != ESCAPE
    ensures Decode(Repeat(ESCAPE, 1) + Encode(rest)) != Repeat(ESCAPE, 1) + rest
  {
    hide Encode, Decode;
    EncodeLengthAtLeast(rest);
    var e := Encode(rest);
    var w, d := Repeat(ESCAPE, 1) + e, Repeat(ESCAPE, 1) + rest;
    var n, v, tail := e[0], e[1], Decode(e[2..]);
    assert w == [ESCAPE, n, v] + e[2..];
    DecodeEscape(n, v, e[2..]);
    var got := Repeat(v, n) + tail;
    EncodeIsShortest(e[2..]);
    EncodeRun(ESCAPE, 1, rest);
    assert |Encode(tail)| < |e| < |Encode(d)|;
    if n == 0 {
      DropNone(tail);
    } else if n == 1 {
      DropAppend(Repeat(v, n), tail);
      DropAppend(Repeat(ESCAPE, 1), rest);
      assert got[1..] != d[1..];
    } else {
      assert got[0] == got[1] && d[0] == ESCAPE && d[1] == rest[0];
    }
  }

  lemma SafeRunModulo(n: nat, after: nat)
    ensures SafeRun(n % 255, after) == SafeRun(n, after)
    ensures !SafeRun(n, after) ==> 1 <= n % 255 <= 3 && (n % 255 == 1 ==> after >= 2)
  {
  }

  lemma UnsafeRun(n: nat, rest: seq<byte>)
    requires !SafeRun(n, |rest|)
    requires rest == [] || rest[0] != ESCAPE
    ensures Decode(RunCode(ESCAPE, n) + Encode(rest)) != Repeat(ESCAPE, n) + rest
  {
    hide Encode, Decode, RunCode, Repeat, SafeRun;
    var r := n % 255;
    SafeRunModulo(n, |rest|);
    DecodeFullChunks(ESCAPE, n, Encode(rest));
    if r == 1 {
      UnsafeSingle(rest);
    } else {
      UnsafePair(r, rest);
    }
    RepeatAdd(ESCAPE, n - r, r);
    Assoc(Repeat(ESCAPE, n - r), Repeat(ESCAPE, r), rest);
    AppendCancels(Repeat(ESCAPE, n - r), Decode(Repeat(ESCAPE, r) + Encode(rest)), Repeat(ESCAPE, r) + rest);
  }

  lemma {:induction false} RoundTripExactly(d: seq<byte>)
    ensures Decode(Encode(d)) == d <==> SafeToCompress(d)
  {
    if d != [] {
      var v, n := d[0], Leading(d);
      var rest := d[n..];
      SplitRun(d);
      if v == ESCAPE && !SafeRun(n, |rest|) {
        UnsafeRun(n, rest);
      } else {
        DecodeSafeRun(v, n, rest);
        RoundTripExactly(rest);
        AppendCancels(Repeat(v, n), Decode(Encode(rest)), rest);
      }
    }
  }

  lemma ShortIsSafe(d: seq<byte>)
    requires |d| < 3
    ensures SafeToCompress(d)
  {
    hide RunLength;
    if d != [] {
      LeadingIsRun(d);
      if Leading(d) < |d| {
        LeadingIsRun(d[Leading(d)..]);
      }
    }
  }

  // The smallest failure: three bytes without any repetition.
  lemma LoneEscapeIsMisread()
    ensures forall d: seq<byte> :: |d| < 3 ==> SafeToCompress(d)
    ensures !SafeToCompress([0xFF, 5, 6]) && Decode(Encode([0xFF, 5, 6])) != [0xFF, 5, 6]
  {
    forall d: seq<byte> | |d| < 3 ensures SafeToCompress(d) {
      ShortIsSafe(d);
    }
    RoundTripExactly([0xFF, 5, 6]);
  }

  // ---------- Recognising compressed data ----------

  predicate EscapeAt(c: seq<byte>, i: int) {
    0 <= i < |c| - 2 && c[i] == ESCAPE && c[i + 1] > 3
  }

  // The answer, or a read outside the data.
  datatype Detection = Answer(found: bool) | OutsideBuffer

  const SIZE_T: int := 0x1_0000_0000_0000_0000

  // size() - 2 in unsigned arithmetic.
  function ScanBound(size: nat): (n: nat)
    ensures size < 2 ==> n > size
  {
    if size < 2 then size - 2 + SIZE_T else size - 2
  }

  // The scan stops two bytes before the end. On fewer than two bytes its bound wraps, and it
  // leaves the buffer in every case.
  method IsRLECompressed(data: seq<byte>) returns (r: Detection)
    ensures r == OutsideBuffer <==> |data| < 2
    ensures |data| >= 2 ==> (r == Answer(true) <==> exists i :: EscapeAt(data, i))
  {
    var i, bound := 0, ScanBound(|data|);
    while i < bound
      invariant i <= |data| && (|data| >= 2 ==> i <= bound)
      invariant forall k :: 0 <= k < i ==> !EscapeAt(data, k)
    {
      if i >= |data| {
        return OutsideBuffer;
      }
      if data[i] == ESCAPE {
        if i + 1 >= |data| {
          return OutsideBuffer;
        }
        if data[i + 1] > 3 {
          assert |data| >= 2 ==> EscapeAt(data, i);
          return Answer(true);
        }
      }
      i := i + 1;
    }
    return Answer(false);
  }

  ghost predicate RunOfFourAt(d: seq<byte>, i: int) {
    0 <= i && i + 4 <= |d| && d[i] == d[i + 1] == d[i + 2] == d[i + 3]
  }

  // On data without 0xFF the detector recognises exactly the outputs that contain an escape,
  // that is, the inputs with a run of four equal bytes.
  lemma DetectorIsExact(d: seq<byte>)
    requires ESCAPE !in d
    ensures (exists i :: EscapeAt(Encode(d), i)) <==> (exists i :: RunOfFourAt(d, i))
  {
    if exists i :: RunOfFourAt(d, i) {
      var i :| RunOfFourAt(d, i);
      RunIsEscaped(d, i);
    } else {
      NoRunNoEscape(d);
    }
  }

  lemma SuffixRun(d: seq<byte>, n: nat, i: int)
    requires n <= |d|
    ensures RunOfFourAt(d[n..], i) ==> RunOfFourAt(d, n + i)
  {
  }

  lemma {:induction false} NoRunNoEscape(d: seq<byte>)
    requires ESCAPE !in d
    requires forall i :: !RunOfFourAt(d, i)
    ensures Encode(d) == d
  {
    hide Encode;
    EncodeStep(d);
    if d != [] {
      var n := RunLength(d, 0, 1, 255);
      RunLengthIsRun(d, 0, 1, 255);
      assert n > 3 ==> RunOfFourAt(d, 0);
      forall i ensures !RunOfFourAt(d[n..], i) {
        SuffixRun(d, n, i);
      }
      NoRunNoEscape(d[n..]);
      assert Repeat(d[0], n) == d[..n];
    }
  }

  lemma {:induction false} RunIsEscaped(d: seq<byte>, i: nat)
    requires ESCAPE !in d
    requires RunOfFourAt(d, i)
    ensures exists k :: EscapeAt(Encode(d), k)
  {
    hide Encode;
    var n := RunLength(d, 0, 1, 255);
    var c, rest := Chunk(d[0], n), Encode(d[n..]);
    EncodeStep(d);
    if n > 3 {
      assert EscapeAt(Encode(d), 0);
    } else {
      RunLengthIsRun(d, 0, 1, 255);
      assert i >= n;
      RunIsEscaped(d[n..], i - n);
      var k :| EscapeAt(rest, k);
      assert EscapeAt(c + rest, |c| + k);
    }
  }
}
