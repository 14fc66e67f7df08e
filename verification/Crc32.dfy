// The asset checksum of src/integration/AssetLoader.cpp: the reflected CRC-32 that section 8
// of RFC 1952 defines. States are 32-bit vectors, messages sequences of 8-bit vectors.
//
//   ComputesRfc1952       the bit loop computes the table-driven checksum of RFC 1952
//   BurstDetected         inputs that differ only within 32 consecutive bits of the bit stream
//                         never share a checksum, at any length
//   BurstOf33Undetected   32 is the limit
//   Affine                crc(a) ^ crc(b) ^ crc(c) == crc(a ^ b ^ c) for equal lengths
module Crc32 {
  import opened BitVectors
  import opened Seqs

  const POLYNOMIAL: bv32 := 0xEDB8_8320
  const INITIAL: bv32 := 0xFFFF_FFFF

  function Not(a: bv32): bv32 {
    !a
  }

  // One iteration of the inner loop.
  function Shift(crc: bv32): bv32 {
    if crc & 1 == 1 then (crc >> 1) ^ POLYNOMIAL else crc >> 1
  }

  function Shifts(crc: bv32, n: nat): bv32
    decreases n
  {
    if n == 0 then crc else Shifts(Shift(crc), n - 1)
  }

  function Update(crc: bv32, b: bv8): bv32 {
    Shifts(Xor(crc, Widen(b)), 8)
  }

  function Run(crc: bv32, data: seq<bv8>): bv32
    decreases |data|
  {
    if data == [] then crc else Run(Update(crc, data[0]), data[1..])
  }

  function Crc(data: seq<bv8>): bv32 {
    Not(Run(INITIAL, data))
  }

  // ---------- The code of the source ----------

  method CalculateChecksum(data: seq<bv8>) returns (r: bv32)
    ensures r == Crc(data)
  {
    hide Run, Update, Not;
    var crc: bv32 := 0xFFFF_FFFF;
    DropNone(data);
    for k := 0 to |data|
      invariant Run(crc, data[k..]) == Run(INITIAL, data)
    {
      RunStep(crc, data, k);
      crc := FoldByte(crc, data[k]);
    }
    RunStep(crc, data, |data|);
    r := !crc;
    NotIs(crc);
  }

  lemma RunStep(crc: bv32, data: seq<bv8>, k: nat)
    requires k <= |data|
    ensures Run(crc, data[k..]) == if k == |data| then crc else Run(Update(crc, data[k]), data[k + 1..])
  {
    hide Update;
    if k < |data| {
      DropDrop(data, k, 1);
    }
  }

  lemma NotIs(crc: bv32)
    ensures Not(crc) == !crc
  {
  }

  // The body of the loop over the bytes.
  method FoldByte(start: bv32, b: bv8) returns (crc: bv32)
    ensures crc == Update(start, b)
  {
    crc := start ^ b as bv32;
    for i := 0 to 8
      invariant Shifts(crc, 8 - i) == Update(start, b)
    {
      if crc & 1 == 1 {
        crc := (crc >> 1) ^ 0xEDB8_8320;
      } else {
        crc := crc >> 1;
      }
    }
  }

  datatype AssetData = AssetData(data: seq<bv8>, checksum: bv32)

  method VerifyAssetIntegrity(asset: AssetData) returns (ok: bool)
    ensures ok <==> Crc(asset.data) == asset.checksum
  {
    var calculated := CalculateChecksum(asset.data);
    return calculated == asset.checksum;
  }

  // ---------- Bit-vector algebra ----------

  lemma NotLaws(a: bv32)
    ensures Not(Not(a)) == a
    ensures Not(a) == Xor(a, 0xFFFF_FFFF)
  {
  }

  function Half(x: bv32): bv32 {
    x >> 1
  }

  predicate Odd(x: bv32) {
    x & 1 == 1
  }

  // The feedback of one step.
  function Feedback(x: bv32): bv32 {
    if Odd(x) then POLYNOMIAL else 0
  }

  lemma RawHalves(a: bv32, b: bv32)
    ensures (a ^ b) >> 1 == (a >> 1) ^ (b >> 1)
    ensures (a ^ b) & 1 == (a & 1) ^ (b & 1)
  {
  }

  lemma RawLowBit(a: bv32)
    ensures a & 1 == 0 || a & 1 == 1
  {
  }

  lemma HalfXor(a: bv32, b: bv32)
    ensures Half(Xor(a, b)) == Xor(Half(a), Half(b))
    ensures Feedback(Xor(a, b)) == Xor(Feedback(a), Feedback(b))
  {
    RawHalves(a, b);
    RawLowBit(a);
    RawLowBit(b);
  }

  lemma ShiftByHalf(x: bv32)
    ensures Shift(x) == Xor(Half(x), Feedback(x))
  {
    RawXorZero(x >> 1);
  }

  // ---------- The step is linear and a bijection ----------

  lemma ShiftLinear(a: bv32, b: bv32)
    ensures Shift(Xor(a, b)) == Xor(Shift(a), Shift(b))
  {
    hide Shift, Xor, Half, Feedback;
    ShiftByHalf(a);
    ShiftByHalf(b);
    ShiftByHalf(Xor(a, b));
    HalfXor(a, b);
    XorExchange(Half(a), Feedback(a), Half(b), Feedback(b));
  }

  lemma ShiftInjective(a: bv32, b: bv32)
    ensures Shift(a) == Shift(b) ==> a == b
  {
  }

  lemma {:induction false} ShiftsLinear(a: bv32, b: bv32, n: nat)
    ensures Shifts(Xor(a, b), n) == Xor(Shifts(a, n), Shifts(b, n))
    decreases n
  {
    hide Shift, Xor;
    if n > 0 {
      ShiftLinear(a, b);
      ShiftsLinear(Shift(a), Shift(b), n - 1);
    }
  }

  lemma {:induction false} ShiftsInjective(a: bv32, b: bv32, n: nat)
    ensures Shifts(a, n) == Shifts(b, n) ==> a == b
    decreases n
  {
    hide Shift;
    if n > 0 {
      ShiftsInjective(Shift(a), Shift(b), n - 1);
      ShiftInjective(a, b);
    }
  }

  // ---------- The table-driven form ----------

  // The table entry and the update loop of section 8 of RFC 1952.
  function TableEntry(n: bv32): bv32 {
    Shifts(n, 8)
  }

  function LowByte(x: bv32): bv32 {
    x & 0xFF
  }

  function HighBytes(x: bv32): bv32 {
    x >> 8
  }

  function TableUpdate(crc: bv32, data: seq<bv8>): bv32
    decreases |data|
  {
    if data == [] then crc else
    TableUpdate(Xor(TableEntry(LowByte(Xor(crc, Widen(data[0])))), HighBytes(crc)), data[1..])
  }

  function Rfc1952(data: seq<bv8>): bv32 {
    Xor(TableUpdate(Xor(0, 0xFFFF_FFFF), data), 0xFFFF_FFFF)
  }

  // Shifting a word whose low bits are clear only moves it.
  function MoveRight(x: bv32, n: nat): bv32
    decreases n
  {
    if n == 0 then x else MoveRight(Half(x), n - 1)
  }

  predicate LowBitsClear(x: bv32, n: nat)
    decreases n
  {
    n == 0 || (x & 1 == 0 && LowBitsClear(Half(x), n - 1))
  }

  lemma ShiftEven(x: bv32)
    ensures x & 1 == 0 ==> Shift(x) == Half(x)
  {
  }

  lemma {:induction false} ClearBitsMove(x: bv32, n: nat)
    requires LowBitsClear(x, n)
    ensures Shifts(x, n) == MoveRight(x, n)
    decreases n
  {
    hide Shift, Half;
    if n > 0 {
      ShiftEven(x);
      ClearBitsMove(Half(x), n - 1);
    }
  }

  lemma FourBits(x: bv32)
    ensures x & 0xF == 0 ==> LowBitsClear(x, 4)
    ensures MoveRight(x, 4) == x >> 4
  {
    assert LowBitsClear(x, 4) == (x & 1 == 0 && LowBitsClear(Half(x), 3));
    assert LowBitsClear(Half(x), 3) == (Half(x) & 1 == 0 && LowBitsClear(Half(Half(x)), 2));
    assert MoveRight(x, 4) == MoveRight(Half(Half(x)), 2);
  }

  lemma {:induction false} ShiftsAdd(x: bv32, m: nat, n: nat)
    ensures Shifts(x, m + n) == Shifts(Shifts(x, m), n)
    decreases m
  {
    hide Shift;
    if m > 0 {
      ShiftsAdd(Shift(x), m - 1, n);
    }
  }

  lemma RawNibbles(x: bv32)
    ensures x & 0xFF == 0 ==> x & 0xF == 0 && (x >> 4) & 0xF == 0
    ensures (x >> 4) >> 4 == x >> 8
  {
  }

  lemma HighBytesMove(x: bv32)
    requires LowByte(x) == 0
    ensures Shifts(x, 8) == HighBytes(x)
  {
    hide Shifts, MoveRight, LowBitsClear;
    RawNibbles(x);
    FourBits(x);
    FourBits(x >> 4);
    ClearBitsMove(x, 4);
    ClearBitsMove(x >> 4, 4);
    ShiftsAdd(x, 4, 4);
  }

  function ClearLowByte(x: bv32): bv32 {
    x & 0xFFFF_FF00
  }

  lemma RawSplit(x: bv32)
    ensures x == (x & 0xFF) ^ (x & 0xFFFF_FF00)
    ensures (x & 0xFFFF_FF00) & 0xFF == 0
    ensures (x & 0xFFFF_FF00) >> 8 == x >> 8
  {
  }

  lemma SplitLowByte(x: bv32)
    ensures x == Xor(LowByte(x), ClearLowByte(x))
    ensures LowByte(ClearLowByte(x)) == 0 && HighBytes(ClearLowByte(x)) == HighBytes(x)
  {
    RawSplit(x);
  }

  lemma RawByteBelow(crc: bv32, b: bv8)
    ensures (crc ^ b as bv32) >> 8 == crc >> 8
  {
  }

  lemma ByteBelow(crc: bv32, b: bv8)
    ensures HighBytes(Xor(crc, Widen(b))) == HighBytes(crc)
  {
    RawByteBelow(crc, b);
  }

  lemma UpdateByTable(crc: bv32, b: bv8)
    ensures Update(crc, b) == Xor(TableEntry(LowByte(Xor(crc, Widen(b)))), HighBytes(crc))
  {
    hide Shifts, Xor, Widen, LowByte, HighBytes, ClearLowByte;
    var x := Xor(crc, Widen(b));
    SplitLowByte(x);
    ByteBelow(crc, b);
    ShiftsLinear(LowByte(x), ClearLowByte(x), 8);
    HighBytesMove(ClearLowByte(x));
  }

  lemma {:induction false} RunByTable(crc: bv32, data: seq<bv8>)
    ensures Run(crc, data) == TableUpdate(crc, data)
    decreases |data|
  {
    hide Update, TableEntry, Xor, LowByte, HighBytes, Widen;
    if data != [] {
      UpdateByTable(crc, data[0]);
      RunByTable(Update(crc, data[0]), data[1..]);
    }
  }

  lemma ComputesRfc1952(data: seq<bv8>)
    ensures Crc(data) == Rfc1952(data)
  {
    hide Run, TableUpdate;
    RunByTable(INITIAL, data);
    NotLaws(Run(INITIAL, data));
  }

  // ---------- Continuing a checksum ----------

  lemma {:induction false} RunConcat(crc: bv32, a: seq<bv8>, b: seq<bv8>)
    ensures Run(crc, a + b) == Run(Run(crc, a), b)
    decreases |a|
  {
    hide Update;
    if a == [] {
      DropNone(b);
    } else {
      assert (a + b)[1..] == a[1..] + b;
      RunConcat(Update(crc, a[0]), a[1..], b);
    }
  }

  // The second part starts from the complement of the first part's checksum.
  lemma Resumable(a: seq<bv8>, b: seq<bv8>)
    ensures Crc(a + b) == Not(Run(Not(Crc(a)), b))
  {
    hide Run, Not;
    RunConcat(INITIAL, a, b);
    NotLaws(Run(INITIAL, a));
  }

  // ---------- Affinity ----------

  function XorBytes(a: seq<bv8>, b: seq<bv8>): (r: seq<bv8>)
    requires |a| == |b|
    ensures |r| == |a|
  {
    seq(|a|, i requires 0 <= i < |a| => a[i] ^ b[i])
  }

  lemma RawWidenXor(a: bv8, b: bv8)
    ensures (a ^ b) as bv32 == a as bv32 ^ b as bv32
  {
  }

  lemma WidenXor(a: bv8, b: bv8)
    ensures Widen(a ^ b) == Xor(Widen(a), Widen(b))
  {
    RawWidenXor(a, b);
  }

  lemma UpdateLinear(x: bv32, y: bv32, a: bv8, b: bv8)
    ensures Update(Xor(x, y), a ^ b) == Xor(Update(x, a), Update(y, b))
  {
    hide Shifts, Xor, Widen;
    WidenXor(a, b);
    XorExchange(x, y, Widen(a), Widen(b));
    ShiftsLinear(Xor(x, Widen(a)), Xor(y, Widen(b)), 8);
  }

  lemma {:induction false} RunLinear(x: bv32, y: bv32, a: seq<bv8>, b: seq<bv8>)
    requires |a| == |b|
    ensures Run(Xor(x, y), XorBytes(a, b)) == Xor(Run(x, a), Run(y, b))
    decreases |a|
  {
    hide Update, Xor;
    var c := XorBytes(a, b);
    if a != [] {
      UpdateLinear(x, y, a[0], b[0]);
      assert c[1..] == XorBytes(a[1..], b[1..]);
      RunLinear(Update(x, a[0]), Update(y, b[0]), a[1..], b[1..]);
    }
  }

  lemma Affine(a: seq<bv8>, b: seq<bv8>, c: seq<bv8>)
    requires |a| == |b| == |c|
    ensures Crc(XorBytes(XorBytes(a, b), c)) == Xor(Xor(Crc(a), Crc(b)), Crc(c))
  {
    hide Run, Xor, Not;
    RunLinear(INITIAL, INITIAL, a, b);
    XorLaws(INITIAL, INITIAL, INITIAL);
    RunLinear(0, INITIAL, XorBytes(a, b), c);
    XorLaws(0, INITIAL, 0);
    XorLaws(INITIAL, 0, 0);
    ComplementThree(Run(INITIAL, a), Run(INITIAL, b), Run(INITIAL, c));
  }

  lemma RawComplementThree(a: bv32, b: bv32, c: bv32)
    ensures !((a ^ b) ^ c) == (!a ^ !b) ^ !c
  {
  }

  lemma ComplementThree(a: bv32, b: bv32, c: bv32)
    ensures Not(Xor(Xor(a, b), c)) == Xor(Xor(Not(a), Not(b)), Not(c))
  {
    RawComplementThree(a, b, c);
  }

  // ---------- The checksum as a function of the bit stream ----------

  // The message's bits in the order the checksum consumes them: low bit of each byte first.
  function ByteBits(b: bv8): (s: seq<bool>)
    ensures |s| == 8
  {
    [b & 1 != 0, b & 2 != 0, b & 4 != 0, b & 8 != 0, b & 16 != 0, b & 32 != 0, b & 64 != 0, b & 128 != 0]
  }

  function Bits(data: seq<bv8>): (s: seq<bool>)
    ensures |s| == 8 * |data|
  {
    if data == [] then [] else ByteBits(data[0]) + Bits(data[1..])
  }

  function Bit(b: bool): bv32 {
    if b then 1 else 0
  }

  function FeedBit(crc: bv32, b: bool): bv32 {
    Shift(Xor(crc, Bit(b)))
  }

  function RunBits(crc: bv32, bits: seq<bool>): bv32
    decreases |bits|
  {
    if bits == [] then crc else RunBits(FeedBit(crc, bits[0]), bits[1..])
  }

  // The low n bits of w, low bit first.
  function LowBits(w: bv32, n: nat): seq<bool>
    decreases n
  {
    if n == 0 then [] else [Odd(w)] + LowBits(Half(w), n - 1)
  }

  predicate Fits(w: bv32, n: nat)
    decreases n
  {
    if n == 0 then w == 0 else Fits(Half(w), n - 1)
  }

  lemma RawPeel(w: bv32)
    ensures w == (w & 1) ^ (w & 0xFFFF_FFFE)
    ensures (w & 0xFFFF_FFFE) >> 1 == w >> 1 && (w & 0xFFFF_FFFE) & 1 == 0
  {
  }

  function ClearLowBit(w: bv32): bv32 {
    w & 0xFFFF_FFFE
  }

  lemma PeelWord(w: bv32)
    ensures w == Xor(Bit(Odd(w)), ClearLowBit(w))
    ensures Shift(ClearLowBit(w)) == Half(w)
  {
    hide Shift;
    RawPeel(w);
    RawLowBit(w);
    ShiftEven(ClearLowBit(w));
  }

  // Of a word xored in at once, only the low bit takes part in the next step.
  lemma PeelBit(crc: bv32, w: bv32)
    ensures Shift(Xor(crc, w)) == Xor(FeedBit(crc, Odd(w)), Half(w))
  {
    hide Shift, Xor, Half, Odd, Bit, ClearLowBit;
    var low, high := Bit(Odd(w)), ClearLowBit(w);
    PeelWord(w);
    XorLaws(crc, low, high);
    ShiftLinear(Xor(crc, low), high);
  }

  lemma {:induction false} WordIsBits(crc: bv32, w: bv32, n: nat)
    requires Fits(w, n)
    ensures Shifts(Xor(crc, w), n) == RunBits(crc, LowBits(w, n))
    decreases n
  {
    hide Shift, Xor, Half, FeedBit, Odd;
    if n == 0 {
      XorLaws(crc, 0, 0);
    } else {
      PeelBit(crc, w);
      var bits := LowBits(w, n);
      assert bits[0] == Odd(w) && bits[1..] == LowBits(Half(w), n - 1);
      WordIsBits(FeedBit(crc, Odd(w)), Half(w), n - 1);
    }
  }

  lemma RawByteBits(b: bv8)
    ensures var w := b as bv32;
      && (w & 1 == 1) == (b & 1 != 0)
      && ((w >> 1) & 1 == 1) == (b & 2 != 0)
      && ((w >> 2) & 1 == 1) == (b & 4 != 0)
      && ((w >> 3) & 1 == 1) == (b & 8 != 0)
      && ((w >> 4) & 1 == 1) == (b & 16 != 0)
      && ((w >> 5) & 1 == 1) == (b & 32 != 0)
      && ((w >> 6) & 1 == 1) == (b & 64 != 0)
      && ((w >> 7) & 1 == 1) == (b & 128 != 0)
      && w >> 8 == 0
  {
  }

  lemma RawHalving(w: bv32)
    ensures (w >> 1) >> 1 == w >> 2 && (w >> 2) >> 1 == w >> 3 && (w >> 3) >> 1 == w >> 4
    ensures (w >> 4) >> 1 == w >> 5 && (w >> 5) >> 1 == w >> 6 && (w >> 6) >> 1 == w >> 7
    ensures (w >> 7) >> 1 == w >> 8
  {
  }

  lemma Halvings(w: bv32)
    ensures Half(w) == w >> 1 && Half(w >> 1) == w >> 2 && Half(w >> 2) == w >> 3 && Half(w >> 3) == w >> 4
    ensures Half(w >> 4) == w >> 5 && Half(w >> 5) == w >> 6 && Half(w >> 6) == w >> 7 && Half(w >> 7) == w >> 8
  {
    RawHalving(w);
  }

  lemma {:induction false} MoveRightOnce(x: bv32, n: nat)
    ensures MoveRight(x, n + 1) == Half(MoveRight(x, n))
    decreases n
  {
    hide Half;
    if n > 0 {
      MoveRightOnce(Half(x), n - 1);
    } else {
      assert MoveRight(x, 1) == MoveRight(Half(x), 0);
    }
  }

  lemma MoveRightStart(x: bv32, n: nat)
    ensures MoveRight(x, n) == if n == 0 then x else MoveRight(Half(x), n - 1)
  {
  }

  lemma {:induction false} LowBitsMove(w: bv32, n: nat)
    ensures |LowBits(w, n)| == n && forall k :: 0 <= k < n ==> LowBits(w, n)[k] == Odd(MoveRight(w, k))
    ensures Fits(w, n) <==> MoveRight(w, n) == 0
    decreases n
  {
    hide Half, Odd, MoveRight;
    MoveRightStart(w, n);
    if n > 0 {
      LowBitsMove(Half(w), n - 1);
      forall k | 0 <= k < n ensures LowBits(w, n)[k] == Odd(MoveRight(w, k)) {
        MoveRightStart(w, k);
        assert k > 0 ==> LowBits(w, n)[k] == LowBits(Half(w), n - 1)[k - 1];
      }
    }
  }

  lemma EightMoves(w: bv32)
    ensures MoveRight(w, 0) == w && MoveRight(w, 1) == w >> 1 && MoveRight(w, 2) == w >> 2
    ensures MoveRight(w, 3) == w >> 3 && MoveRight(w, 4) == w >> 4 && MoveRight(w, 5) == w >> 5
    ensures MoveRight(w, 6) == w >> 6 && MoveRight(w, 7) == w >> 7 && MoveRight(w, 8) == w >> 8
  {
    hide MoveRight, Half;
    Halvings(w);
    MoveRightStart(w, 0);
    MoveRightOnce(w, 0);
    MoveRightOnce(w, 1);
    MoveRightOnce(w, 2);
    MoveRightOnce(w, 3);
    MoveRightOnce(w, 4);
    MoveRightOnce(w, 5);
    MoveRightOnce(w, 6);
    MoveRightOnce(w, 7);
  }

  lemma OddMoves(b: bv8)
    ensures var w, s := Widen(b), ByteBits(b);
      && Odd(MoveRight(w, 0)) == s[0] && Odd(MoveRight(w, 1)) == s[1]
      && Odd(MoveRight(w, 2)) == s[2] && Odd(MoveRight(w, 3)) == s[3]
      && Odd(MoveRight(w, 4)) == s[4] && Odd(MoveRight(w, 5)) == s[5]
      && Odd(MoveRight(w, 6)) == s[6] && Odd(MoveRight(w, 7)) == s[7]
      && MoveRight(w, 8) == 0
  {
    hide MoveRight;
    RawByteBits(b);
    EightMoves(Widen(b));
  }

  lemma ByteIsBits(b: bv8)
    ensures Fits(Widen(b), 8) && LowBits(Widen(b), 8) == ByteBits(b)
  {
    hide MoveRight, LowBits, Fits, Widen, ByteBits, Odd;
    OddMoves(b);
    LowBitsMove(Widen(b), 8);
    forall k | 0 <= k < 8 ensures LowBits(Widen(b), 8)[k] == ByteBits(b)[k] {
      assert k == 0 || k == 1 || k == 2 || k == 3 || k == 4 || k == 5 || k == 6 || k == 7;
    }
  }

  lemma UpdateIsBits(crc: bv32, b: bv8)
    ensures Update(crc, b) == RunBits(crc, ByteBits(b))
  {
    hide Shifts, Xor, Widen, Fits, LowBits, RunBits;
    ByteIsBits(b);
    WordIsBits(crc, Widen(b), 8);
  }

  lemma {:induction false} RunBitsConcat(crc: bv32, a: seq<bool>, b: seq<bool>)
    ensures RunBits(crc, a + b) == RunBits(RunBits(crc, a), b)
    decreases |a|
  {
    hide FeedBit;
    if a == [] {
      DropNone(b);
    } else {
      assert (a + b)[1..] == a[1..] + b;
      RunBitsConcat(FeedBit(crc, a[0]), a[1..], b);
    }
  }

  lemma {:induction false} RunIsBits(crc: bv32, data: seq<bv8>)
    ensures Run(crc, data) == RunBits(crc, Bits(data))
    decreases |data|
  {
    hide Update, RunBits, ByteBits;
    if data == [] {
      RunNoBits(crc);
    } else {
      UpdateIsBits(crc, data[0]);
      RunBitsConcat(crc, ByteBits(data[0]), Bits(data[1..]));
      RunIsBits(Update(crc, data[0]), data[1..]);
    }
  }

  lemma RunNoBits(crc: bv32)
    ensures RunBits(crc, []) == crc
  {
  }

  // ---------- Burst detection ----------

  function Twice(w: bv32): bv32 {
    w << 1
  }

  // A mask with one more low bit.
  function Grow(mask: bv32): bv32 {
    (mask << 1) | 1
  }

  // The mask of the low n bits.
  function Mask(n: nat): bv32
    decreases n
  {
    if n == 0 then 0 else Grow(Mask(n - 1))
  }

  function Outside(w: bv32, mask: bv32): bv32 {
    w & !mask
  }

  predicate Within(w: bv32, mask: bv32) {
    Outside(w, mask) == 0
  }

  predicate TopBit(w: bv32) {
    w & 0x8000_0000 != 0
  }

  lemma RawMaskGrows(a: bv32, b: bv32)
    ensures a & !b == 0 ==> ((a << 1) | 1) & !((b << 1) | 1) == 0
  {
  }

  lemma {:induction false} MaskGrows(n: nat)
    ensures Within(Mask(n), Mask(n + 1))
    decreases n
  {
    if n > 0 {
      MaskGrows(n - 1);
      RawMaskGrows(Mask(n - 1), Mask(n));
    }
  }

  lemma WithinTrans(a: bv32, b: bv32, c: bv32)
    ensures Within(a, b) && Within(b, c) ==> Within(a, c)
  {
  }

  lemma {:induction false} MaskMonotone(m: nat, n: nat)
    requires m <= n
    ensures Within(Mask(m), Mask(n))
    decreases n - m
  {
    hide Mask, Within;
    if m == n {
      WithinSelf(Mask(m));
    } else {
      MaskGrows(m);
      MaskMonotone(m + 1, n);
      WithinTrans(Mask(m), Mask(m + 1), Mask(n));
    }
  }

  lemma WithinSelf(a: bv32)
    ensures Within(a, a)
  {
  }

  lemma MaskStep(n: nat)
    ensures Mask(n + 1) == Grow(Mask(n))
  {
  }

  lemma RawGrow4(m: bv32)
    ensures ((((((((m << 1) | 1) << 1) | 1) << 1) | 1) << 1) | 1) == (m << 4) | 15
  {
  }

  lemma Grow4(m: bv32)
    ensures Grow(Grow(Grow(Grow(m)))) == (m << 4) | 15
  {
    RawGrow4(m);
  }

  lemma MaskPlus4(n: nat, m: bv32)
    requires Mask(n) == m
    ensures Mask(n + 4) == (m << 4) | 15
  {
    hide Mask, Grow;
    MaskStep(n);
    MaskStep(n + 1);
    MaskStep(n + 2);
    MaskStep(n + 3);
    Grow4(m);
  }

  lemma Mask31()
    ensures Mask(31) == 0x7FFF_FFFF
  {
    assert Mask(3) == 7;
    MaskPlus4(3, 0x7);
    MaskPlus4(7, 0x7F);
    MaskPlus4(11, 0x7FF);
    MaskPlus4(15, 0x7FFF);
    MaskPlus4(19, 0x7_FFFF);
    MaskPlus4(23, 0x7F_FFFF);
    MaskPlus4(27, 0x7FF_FFFF);
  }

  lemma WithinMask31(w: bv32)
    ensures Within(w, 0x7FFF_FFFF) <==> !TopBit(w)
  {
  }

  lemma NoTopBit(w: bv32, n: nat)
    requires n <= 31 && Within(w, Mask(n))
    ensures !TopBit(w)
  {
    hide Mask, Within, TopBit;
    MaskMonotone(n, 31);
    Mask31();
    WithinTrans(w, Mask(n), Mask(31));
    WithinMask31(w);
  }

  // A step's feedback shows in the top bit, so a result without it came from an even state.
  lemma Unshift(e: bv32)
    requires !TopBit(Shift(e))
    ensures !Odd(e) && e == Twice(Shift(e))
  {
  }

  lemma BitXor(x: bool, y: bool)
    ensures Odd(Xor(Bit(x), Bit(y))) <==> x != y
    ensures Xor(Bit(x), Bit(y)) == Bit(x != y)
  {
  }

  lemma RawPrepend(d: bv32, m: bv32)
    ensures (d << 1) & !((m << 1) | 1) == (d & !m) << 1
    ensures ((d << 1) ^ 1) & !((m << 1) | 1) == (d & !m) << 1
  {
  }

  lemma OutsideTwice(d: bv32, m: bv32)
    ensures Outside(Twice(d), Grow(m)) == Twice(Outside(d, m))
  {
    RawPrepend(d, m);
  }

  lemma OutsideTwicePlus(d: bv32, m: bv32)
    ensures Outside(Xor(Twice(d), 1), Grow(m)) == Twice(Outside(d, m))
  {
    RawPrepend(d, m);
  }

  lemma Prepend(d: bv32, mask: bv32, z: bool)
    requires Within(d, mask)
    ensures Within(Xor(Twice(d), Bit(z)), Grow(mask))
  {
    hide Outside, Xor, Grow;
    OutsideTwice(d, mask);
    OutsideTwicePlus(d, mask);
    XorLaws(Twice(d), 0, 0);
  }

  // The difference of the states before the last n bits, when the states after them agree,
  // fits in n bits: stepping back adds one bit at the bottom and never meets the feedback.
  lemma {:induction false} StatesDifferWithin(x: seq<bool>, y: seq<bool>, c: bv32, c': bv32)
    requires |x| == |y| <= 32
    requires RunBits(c, x) == RunBits(c', y)
    ensures Within(Xor(c, c'), Mask(|x|))
    decreases |x|
  {
    hide Mask, Within, Shift, Xor, TopBit;
    if x == [] {
      XorLaws(c, c', 0);
      WithinSame(c, c');
    } else {
      StatesDifferWithin(x[1..], y[1..], FeedBit(c, x[0]), FeedBit(c', y[0]));
      StepBack(c, c', x[0], y[0], |x| - 1);
    }
  }

  lemma WithinSame(c: bv32, c': bv32)
    requires c == c'
    ensures Within(Xor(c, c'), Mask(0))
  {
  }

  lemma StepBack(c: bv32, c': bv32, x: bool, y: bool, n: nat)
    requires n <= 31
    requires Within(Xor(FeedBit(c, x), FeedBit(c', y)), Mask(n))
    ensures Within(Xor(c, c'), Mask(n + 1))
    ensures c == c' ==> x == y
  {
    hide Mask, Within, Shift, Xor, TopBit, Odd, Bit, Twice, Grow;
    var e := Xor(Xor(c, Bit(x)), Xor(c', Bit(y)));
    var diff, z := Xor(c, c'), Xor(Bit(x), Bit(y));
    ShiftLinear(Xor(c, Bit(x)), Xor(c', Bit(y)));
    NoTopBit(Shift(e), n);
    Unshift(e);
    XorExchange(c, Bit(x), c', Bit(y));
    XorLaws(diff, z, z);
    XorLaws(diff, 0, z);
    BitXor(x, y);
    Prepend(Shift(e), Mask(n), x != y);
    MaskStep(n);
    XorLaws(c, c, 0);
    XorLaws(0, z, 0);
    XorLaws(z, 0, 0);
  }

  // Up to 32 bits fed from one state are determined by the state they lead to.
  lemma {:induction false} ShortRunsDiffer(c: bv32, x: seq<bool>, y: seq<bool>)
    requires |x| == |y| <= 32
    requires RunBits(c, x) == RunBits(c, y)
    ensures x == y
    decreases |x|
  {
    hide Mask, Within, Shift, Xor, FeedBit;
    if x != [] {
      StatesDifferWithin(x[1..], y[1..], FeedBit(c, x[0]), FeedBit(c, y[0]));
      StepBack(c, c, x[0], y[0], |x| - 1);
      ShortRunsDiffer(FeedBit(c, x[0]), x[1..], y[1..]);
      assert x == [x[0]] + x[1..] && y == [y[0]] + y[1..];
    }
  }

  ghost predicate AgreeOutside(a: seq<bool>, b: seq<bool>, from: nat, n: nat)
    requires |a| == |b|
  {
    forall k :: 0 <= k < |a| && !(from <= k < from + n) ==> a[k] == b[k]
  }

  lemma {:induction false} RunBitsInjective(c: bv32, c': bv32, bits: seq<bool>)
    requires RunBits(c, bits) == RunBits(c', bits)
    ensures c == c'
    decreases |bits|
  {
    hide Shift, Xor;
    if bits != [] {
      var z := Bit(bits[0]);
      RunBitsInjective(FeedBit(c, bits[0]), FeedBit(c', bits[0]), bits[1..]);
      ShiftInjective(Xor(c, z), Xor(c', z));
      XorRightCancels(c, c', z);
    }
  }

  lemma XorRightCancels(a: bv32, b: bv32, z: bv32)
    ensures Xor(a, z) == Xor(b, z) ==> a == b
  {
    hide Xor;
    XorLaws(a, z, z);
    XorLaws(b, z, z);
    XorLaws(z, z, z);
    XorLaws(a, 0, 0);
    XorLaws(b, 0, 0);
  }

  lemma SplitWindow(a: seq<bool>, i: nat, j: nat)
    requires i <= j <= |a|
    ensures a == a[..i] + (a[i..j] + a[j..])
  {
  }

  lemma BurstOfBits(c: bv32, a: seq<bool>, b: seq<bool>, from: nat)
    requires |a| == |b| && AgreeOutside(a, b, from, 32)
    requires RunBits(c, a) == RunBits(c, b)
    ensures a == b
  {
    hide RunBits;
    var i := if from <= |a| then from else |a|;
    var j := if from + 32 <= |a| then from + 32 else |a|;
    SplitWindow(a, i, j);
    SplitWindow(b, i, j);
    assert a[..i] == b[..i] && a[j..] == b[j..];
    SameEnds(c, a[..i], a[i..j], b[i..j], a[j..]);
  }

  lemma SameEnds(c: bv32, pre: seq<bool>, x: seq<bool>, y: seq<bool>, post: seq<bool>)
    requires |x| == |y| <= 32
    requires RunBits(c, pre + (x + post)) == RunBits(c, pre + (y + post))
    ensures x == y
  {
    hide RunBits;
    RunBitsConcat(c, pre, x + post);
    RunBitsConcat(c, pre, y + post);
    var s := RunBits(c, pre);
    RunBitsConcat(s, x, post);
    RunBitsConcat(s, y, post);
    RunBitsInjective(RunBits(s, x), RunBits(s, y), post);
    ShortRunsDiffer(s, x, y);
  }

  lemma RawByteBitsInjective(a: bv8, b: bv8)
    requires a & 1 == b & 1 && a & 2 == b & 2 && a & 4 == b & 4 && a & 8 == b & 8
    requires a & 16 == b & 16 && a & 32 == b & 32 && a & 64 == b & 64 && a & 128 == b & 128
    ensures a == b
  {
  }

  lemma ByteBitsInjective(a: bv8, b: bv8)
    requires ByteBits(a) == ByteBits(b)
    ensures a == b
  {
    var s, t := ByteBits(a), ByteBits(b);
    assert s[0] == t[0] && s[1] == t[1] && s[2] == t[2] && s[3] == t[3];
    assert s[4] == t[4] && s[5] == t[5] && s[6] == t[6] && s[7] == t[7];
    MaskedBits(a);
    MaskedBits(b);
    RawByteBitsInjective(a, b);
  }

  lemma MaskedBits(a: bv8)
    ensures (a & 1 == 0 || a & 1 == 1) && (a & 2 == 0 || a & 2 == 2)
    ensures (a & 4 == 0 || a & 4 == 4) && (a & 8 == 0 || a & 8 == 8)
    ensures (a & 16 == 0 || a & 16 == 16) && (a & 32 == 0 || a & 32 == 32)
    ensures (a & 64 == 0 || a & 64 == 64) && (a & 128 == 0 || a & 128 == 128)
  {
  }

  lemma {:induction false} BitsInjective(a: seq<bv8>, b: seq<bv8>)
    requires |a| == |b| && Bits(a) == Bits(b)
    ensures a == b
    decreases |a|
  {
    hide ByteBits;
    if a != [] {
      DropAppend(ByteBits(a[0]), Bits(a[1..]));
      DropAppend(ByteBits(b[0]), Bits(b[1..]));
      assert ByteBits(a[0]) == Bits(a)[..8] == Bits(b)[..8] == ByteBits(b[0]);
      ByteBitsInjective(a[0], b[0]);
      BitsInjective(a[1..], b[1..]);
      assert a == [a[0]] + a[1..] && b == [b[0]] + b[1..];
    }
  }

  // Every burst error of up to 32 bits changes the checksum, wherever it lies and however long
  // the message is.
  lemma BurstDetected(a: seq<bv8>, b: seq<bv8>, from: nat)
    requires |a| == |b| && a != b
    requires AgreeOutside(Bits(a), Bits(b), from, 32)
    ensures Crc(a) != Crc(b)
  {
    hide Run, RunBits, Bits, Not;
    if Crc(a) == Crc(b) {
      NotLaws(Run(INITIAL, a));
      NotLaws(Run(INITIAL, b));
      RunIsBits(INITIAL, a);
      RunIsBits(INITIAL, b);
      BurstOfBits(INITIAL, Bits(a), Bits(b), from);
      BitsInjective(a, b);
    }
  }

  lemma {:induction false} BitsAt(data: seq<bv8>, i: nat, j: nat)
    requires i < |data| && j < 8
    ensures Bits(data)[8 * i + j] == ByteBits(data[i])[j]
    decreases i
  {
    hide ByteBits;
    if i > 0 {
      BitsAt(data[1..], i - 1, j);
      assert Bits(data)[8 * i + j] == Bits(data[1..])[8 * (i - 1) + j];
    }
  }

  // Damage to at most four consecutive bytes of an asset is always noticed.
  lemma CorruptionRejected(a: seq<bv8>, b: seq<bv8>, from: nat)
    requires |a| == |b| && a != b
    requires forall i :: 0 <= i < |a| && !(from <= i < from + 4) ==> a[i] == b[i]
    ensures Crc(b) != Crc(a)
  {
    hide Bits, ByteBits, Crc;
    forall k | 0 <= k < |Bits(a)| && !(8 * from <= k < 8 * from + 32) ensures Bits(a)[k] == Bits(b)[k] {
      var i, j := k / 8, k % 8;
      BitsAt(a, i, j);
      BitsAt(b, i, j);
    }
    BurstDetected(a, b, 8 * from);
  }

  // The generator itself, 33 bits long, is a burst that no message shows.
  const GENERATOR: seq<bv8> := [0x41, 0x06, 0x71, 0xDB, 0x01]

  lemma BurstOf33Undetected()
    ensures var zeros: seq<bv8> := [0, 0, 0, 0, 0];
      Crc(GENERATOR) == Crc(zeros) && AgreeOutside(Bits(GENERATOR), Bits(zeros), 0, 33)
  {
    hide Run, Xor, Update, Bits;
    var zeros: seq<bv8> := [0, 0, 0, 0, 0];
    assert XorBytes(zeros, GENERATOR) == GENERATOR;
    XorLaws(INITIAL, 0, 0);
    RunLinear(INITIAL, 0, zeros, GENERATOR);
    GeneratorVanishes();
    XorLaws(Run(INITIAL, zeros), 0, 0);
    LastByteBits();
    forall k | 33 <= k < 40 ensures Bits(GENERATOR)[k] == Bits(zeros)[k] {
      BitsAt(GENERATOR, 4, k - 32);
      BitsAt(zeros, 4, k - 32);
    }
  }

  lemma LastByteBits()
    ensures forall j :: 1 <= j < 8 ==> ByteBits(0x01)[j] == ByteBits(0)[j]
  {
    assert ByteBits(0x01) == [true, false, false, false, false, false, false, false];
    assert ByteBits(0) == [false, false, false, false, false, false, false, false];
  }

  lemma GeneratorVanishes()
    ensures Run(0, GENERATOR) == 0
  {
    hide Update, Run;
    FirstByte();
    UpdateAligned(0x01DB_7106, 0x06);
    UpdateAligned(0x0001_DB71, 0x71);
    UpdateAligned(0x0000_01DB, 0xDB);
    UpdateAligned(0x0000_0001, 0x01);
    RunStep(0, GENERATOR, 0);
    RunStep(0x01DB_7106, GENERATOR, 1);
    RunStep(0x0001_DB71, GENERATOR, 2);
    RunStep(0x0000_01DB, GENERATOR, 3);
    RunStep(0x0000_0001, GENERATOR, 4);
    RunStep(0, GENERATOR, 5);
    DropNone(GENERATOR);
  }

  lemma UpdateAligned(crc: bv32, b: bv8)
    requires LowByte(Xor(crc, Widen(b))) == 0
    ensures Update(crc, b) == HighBytes(crc)
  {
    hide Shifts, Xor, Widen, LowByte, HighBytes;
    HighBytesMove(Xor(crc, Widen(b)));
    ByteBelow(crc, b);
  }

  lemma FirstByte()
    ensures Update(0, 0x41) == 0x01DB_7106
  {
    assert Xor(0, Widen(0x41)) == 0x41;
    assert Shift(0x41) == 0xEDB8_8300;
    assert Shift(0xEDB8_8300) == 0x76DC_4180;
    assert Shifts(0x41, 8) == Shifts(0x76DC_4180, 6);
    assert Shift(0x76DC_4180) == 0x3B6E_20C0;
    assert Shift(0x3B6E_20C0) == 0x1DB7_1060;
    assert Shifts(0x76DC_4180, 6) == Shifts(0x1DB7_1060, 4);
    assert Shift(0x1DB7_1060) == 0x0EDB_8830;
    assert Shift(0x0EDB_8830) == 0x076D_C418;
    assert Shifts(0x1DB7_1060, 4) == Shifts(0x076D_C418, 2);
    assert Shift(0x076D_C418) == 0x03B6_E20C;
    assert Shift(0x03B6_E20C) == 0x01DB_7106;
  }
}
