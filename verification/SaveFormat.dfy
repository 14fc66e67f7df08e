// Save files and their checksum, src/game/SharedSaveSystem.cpp.
//
//   RoundTripExactly      loading what was saved returns it exactly when the name holds no NUL
//                         and the data is shorter than 2^32 bytes
//   ChecksumIsShiftedXor  the running checksum is the xor of byte_i << (n-1-i) modulo 2^32
//   SingleByteDetected    exactly which one-byte changes the checksum notices
module SaveFormat {
  import opened BitVectors
  import opened Seqs

  type File = seq<bv8>

  datatype Option<T> = None | Some(value: T)

  // saveName is a byte string; type is the enumeration's 4-byte value, timestamp a 64-bit tick.
  datatype SaveData = SaveData(
    saveId: bv32, saveName: seq<bv8>, kind: bv32, data: seq<bv8>, timestamp: bv64,
    version: bv32, isCompressed: bool, isEncrypted: bool, checksum: bv32)

  // ---------- Little-endian fields ----------

  function Le32(x: bv32): (s: seq<bv8>)
    ensures |s| == 4
  {
    [(x & 0xFF) as bv8, ((x >> 8) & 0xFF) as bv8, ((x >> 16) & 0xFF) as bv8, ((x >> 24) & 0xFF) as bv8]
  }

  function FromLe32(s: seq<bv8>): bv32
    requires |s| == 4
  {
    s[0] as bv32 | (s[1] as bv32 << 8) | (s[2] as bv32 << 16) | (s[3] as bv32 << 24)
  }

  function Le64(x: bv64): (s: seq<bv8>)
    ensures |s| == 8
  {
    Le32((x & 0xFFFF_FFFF) as bv32) + Le32((x >> 32) as bv32)
  }

  function FromLe64(s: seq<bv8>): bv64
    requires |s| == 8
  {
    FromLe32(s[..4]) as bv64 | (FromLe32(s[4..]) as bv64 << 32)
  }

  function Flag(b: bool): seq<bv8> {
    [if b then 1 else 0]
  }

  lemma Le32Inverse(x: bv32)
    ensures FromLe32(Le32(x)) == x
  {
  }

  lemma RawHalves(x: bv64)
    ensures ((x & 0xFFFF_FFFF) as bv32) as bv64 | (((x >> 32) as bv32) as bv64 << 32) == x
  {
  }

  lemma Le64Inverse(x: bv64)
    ensures FromLe64(Le64(x)) == x
  {
    hide Le32, FromLe32;
    Le32Inverse((x & 0xFFFF_FFFF) as bv32);
    Le32Inverse((x >> 32) as bv32);
    RawHalves(x);
  }

  // The data size is a uint32_t; sizes are counted as integers here. A byte's value is taken
  // from its two halves.
  const SIZE_LIMIT: int := 0x1_0000_0000

  function NatByte(x: nat): bv8
    requires x < 256
  {
    (((x / 16) as bv4) as bv8 << 4) | ((x % 16) as bv4) as bv8
  }

  function ByteValue(b: bv8): (x: nat)
    ensures x < 256
  {
    16 * (((b >> 4) as bv4) as nat) + ((b & 0xF) as bv4) as nat
  }

  lemma RawNibbles(hi: bv4, lo: bv4)
    ensures ((((hi as bv8) << 4) | lo as bv8) >> 4) as bv4 == hi
    ensures ((((hi as bv8) << 4) | lo as bv8) & 0xF) as bv4 == lo
  {
  }

  lemma NibbleValue(x: nat)
    requires x < 16
    ensures (x as bv4) as nat == x
  {
  }

  lemma ByteInverse(x: nat)
    requires x < 256
    ensures ByteValue(NatByte(x)) == x
  {
    RawNibbles((x / 16) as bv4, (x % 16) as bv4);
    NibbleValue(x / 16);
    NibbleValue(x % 16);
  }

  function LeSize(n: nat): (s: seq<bv8>)
    requires n < SIZE_LIMIT
    ensures |s| == 4
  {
    [NatByte(n % 256), NatByte(n / 256 % 256), NatByte(n / 256 / 256 % 256), NatByte(n / 256 / 256 / 256)]
  }

  function FromLeSize(s: seq<bv8>): (n: nat)
    requires |s| == 4
    ensures n < SIZE_LIMIT
  {
    ByteValue(s[0]) + 256 * ByteValue(s[1]) + 65536 * ByteValue(s[2]) + 16777216 * ByteValue(s[3])
  }

  lemma LeSizeInverse(n: nat)
    requires n < SIZE_LIMIT
    ensures FromLeSize(LeSize(n)) == n
  {
    hide NatByte, ByteValue;
    ByteInverse(n % 256);
    ByteInverse(n / 256 % 256);
    ByteInverse(n / 256 / 256 % 256);
    ByteInverse(n / 256 / 256 / 256);
    var q := n / 256;
    var r := q / 256;
    assert n == n % 256 + 256 * q && q == q % 256 + 256 * r && r == r % 256 + 256 * (r / 256);
  }

  // ---------- The file layout ----------

  function Header(s: SaveData): File {
    Le32(s.kind) + (Le64(s.timestamp) + (Le32(s.version) + (Flag(s.isCompressed)
      + (Flag(s.isEncrypted) + Le32(s.checksum)))))
  }

  // The size field wraps for data of 2^32 bytes and more, and only that many bytes are written.
  function Save(s: SaveData): File {
    var size := |s.data| % SIZE_LIMIT;
    Le32(s.saveId) + (s.saveName + ([0] + (Header(s) + (LeSize(size) + s.data[..size]))))
  }

  // Splits n bytes off the front, if they are there.
  function Take(f: File, n: nat): Option<(seq<bv8>, File)> {
    if n <= |f| then Some((f[..n], f[n..])) else None
  }

  // The bytes before the first NUL and those behind it.
  function TakeName(f: File): Option<(seq<bv8>, File)> {
    if f == [] then None
    else if f[0] == 0 then Some(([], f[1..]))
    else match TakeName(f[1..])
      case None => None
      case Some((name, rest)) => Some(([f[0]] + name, rest))
  }

  const HEADER_SIZE: nat := 4 + 8 + 4 + 1 + 1 + 4

  function ParseHeader(id: seq<bv8>, name: seq<bv8>, h: seq<bv8>, data: seq<bv8>): SaveData
    requires |id| == 4 && |h| == HEADER_SIZE
  {
    SaveData(FromLe32(id), name, FromLe32(h[..4]), data, FromLe64(h[4..12]), FromLe32(h[12..16]),
             h[16] != 0, h[17] != 0, FromLe32(h[18..22]))
  }

  // None when the file ends early; bytes behind the data are ignored.
  function Load(f: File): Option<SaveData> {
    match Take(f, 4) case None => None case Some((id, f1)) =>
    match TakeName(f1) case None => None case Some((name, f2)) =>
    match Take(f2, HEADER_SIZE) case None => None case Some((h, f3)) =>
    match Take(f3, 4) case None => None case Some((size, f4)) =>
    match Take(f4, FromLeSize(size)) case None => None case Some((data, _)) =>
    Some(ParseHeader(id, name, h, data))
  }

  // ---------- Round trip ----------

  lemma TakeAppend(a: seq<bv8>, rest: File)
    ensures Take(a + rest, |a|) == Some((a, rest))
  {
    DropAppend(a, rest);
    assert (a + rest)[..|a|] == a;
  }

  lemma {:induction false} TakeNameAppend(name: seq<bv8>, rest: File)
    requires 0 !in name
    ensures TakeName(name + ([0] + rest)) == Some((name, rest))
  {
    var f := name + ([0] + rest);
    if name == [] {
      DropNone([0] + rest);
      DropAppend([0], rest);
    } else {
      assert f[1..] == name[1..] + ([0] + rest);
      TakeNameAppend(name[1..], rest);
      assert [name[0]] + name[1..] == name;
    }
  }

  lemma {:induction false} TakenNameHasNoNul(f: File)
    ensures TakeName(f).Some? ==> 0 !in TakeName(f).value.0
  {
    if f != [] && f[0] != 0 {
      TakenNameHasNoNul(f[1..]);
    }
  }

  // The first three fields and what is behind them.
  lemma FrontFields<T>(h: seq<T>, a: seq<T>, b: seq<T>, c: seq<T>, rest: seq<T>)
    requires h == a + (b + (c + rest)) && |a| == 4 && |b| == 8 && |c| == 4
    ensures |h| == 16 + |rest| && h[..4] == a && h[4..12] == b && h[12..16] == c && h[16..] == rest
  {
    DropNone(h);
    Slice(h, 0, a, b + (c + rest));
    Slice(h, 4, b, c + rest);
    Slice(h, 12, c, rest);
  }

  lemma BackFields<T>(h: seq<T>, d: seq<T>, e: seq<T>, f: seq<T>)
    requires |h| == 22 && h[16..] == d + (e + f) && |d| == 1 && |e| == 1 && |f| == 4
    ensures h[16] == d[0] && h[17] == e[0] && h[18..22] == f
  {
    Slice(h, 16, d, e + f);
    Slice(h, 17, e, f);
    assert h[16] == h[16..17][0] && h[17] == h[17..18][0];
  }

  lemma HeaderFields(s: SaveData)
    ensures var h := Header(s);
      && |h| == HEADER_SIZE
      && h[..4] == Le32(s.kind) && h[4..12] == Le64(s.timestamp) && h[12..16] == Le32(s.version)
      && (h[16] != 0 <==> s.isCompressed) && (h[17] != 0 <==> s.isEncrypted)
      && h[18..22] == Le32(s.checksum)
  {
    hide Le32, Le64, Flag;
    var h, checksum := Header(s), Le32(s.checksum);
    FlagByte(s.isCompressed);
    FlagByte(s.isEncrypted);
    FrontFields(h, Le32(s.kind), Le64(s.timestamp), Le32(s.version),
                Flag(s.isCompressed) + (Flag(s.isEncrypted) + checksum));
    BackFields(h, Flag(s.isCompressed), Flag(s.isEncrypted), checksum);
  }

  lemma FlagByte(b: bool)
    ensures |Flag(b)| == 1 && (Flag(b)[0] != 0 <==> b)
  {
  }

  lemma HeaderParses(s: SaveData, id: seq<bv8>)
    requires id == Le32(s.saveId)
    ensures |Header(s)| == HEADER_SIZE && ParseHeader(id, s.saveName, Header(s), s.data) == s
  {
    hide Le32, FromLe32, Le64, FromLe64;
    HeaderFields(s);
    Le32Inverse(s.saveId);
    Le32Inverse(s.kind);
    Le64Inverse(s.timestamp);
    Le32Inverse(s.version);
    Le32Inverse(s.checksum);
  }

  lemma RegularRoundTrip(s: SaveData)
    requires 0 !in s.saveName && |s.data| < SIZE_LIMIT
    ensures Load(Save(s)) == Some(s)
  {
    hide Le32, LeSize, FromLeSize, Header, ParseHeader, Take, TakeName;
    var n := |s.data|;
    assert n % SIZE_LIMIT == n && s.data[..n] == s.data;
    DropNone(s.data);
    var f4 := LeSize(n) + s.data;
    var f2 := Header(s) + f4;
    HeaderParses(s, Le32(s.saveId));
    LeSizeInverse(n);
    TakeAppend(s.data, []);
    TakeAppend(LeSize(n), s.data);
    TakeAppend(Header(s), f4);
    TakeNameAppend(s.saveName, f2);
    TakeAppend(Le32(s.saveId), s.saveName + ([0] + f2));
  }

  // Whatever a file holds, what comes out of it is of this kind.
  lemma LoadedIsRegular(f: File)
    ensures Load(f).Some? ==> 0 !in Load(f).value.saveName && |Load(f).value.data| < SIZE_LIMIT
  {
    hide TakeName, FromLe32, FromLe64;
    if Take(f, 4).Some? {
      TakenNameHasNoNul(f[4..]);
    }
  }

  lemma RoundTripExactly(s: SaveData)
    ensures Load(Save(s)) == Some(s) <==> 0 !in s.saveName && |s.data| < SIZE_LIMIT
  {
    hide Load, Save;
    LoadedIsRegular(Save(s));
    if 0 !in s.saveName && |s.data| < SIZE_LIMIT {
      RegularRoundTrip(s);
    }
  }

  // ---------- The streams of the source ----------

  method SaveDataToFile(saveData: SaveData) returns (file: File)
    ensures file == Save(saveData)
  {
    hide Le32, Le64, LeSize, Flag;
    var s := saveData;
    var dataSize := |s.data| % 0x1_0000_0000;
    ghost var tail := LeSize(dataSize) + s.data[..dataSize];
    ghost var h5 := Le32(s.checksum);
    ghost var h4 := Flag(s.isEncrypted) + h5;
    ghost var h3 := Flag(s.isCompressed) + h4;
    ghost var h2 := Le32(s.version) + h3;
    ghost var h1 := Le64(s.timestamp) + h2;
    file := Write([], Le32(s.saveId), s.saveName + ([0] + (Header(s) + tail)));
    file := Write(file, s.saveName, [0] + (Header(s) + tail));
    file := Write(file, [0], Header(s) + tail);
    Assoc(Le32(s.kind), h1, tail);
    file := Write(file, Le32(s.kind), h1 + tail);
    Assoc(Le64(s.timestamp), h2, tail);
    file := Write(file, Le64(s.timestamp), h2 + tail);
    Assoc(Le32(s.version), h3, tail);
    file := Write(file, Le32(s.version), h3 + tail);
    Assoc(Flag(s.isCompressed), h4, tail);
    file := Write(file, Flag(s.isCompressed), h4 + tail);
    Assoc(Flag(s.isEncrypted), h5, tail);
    file := Write(file, Flag(s.isEncrypted), h5 + tail);
    file := Write(file, Le32(s.checksum), tail);
    file := Write(file, LeSize(dataSize), s.data[..dataSize]);
    file := file + s.data[..dataSize];
    DropNone(Save(s));
  }

  // file.write; `rest` is what the caller is going to write next.
  method Write(file: File, bytes: seq<bv8>, ghost rest: File) returns (r: File)
    ensures r == file + bytes
    ensures r + rest == file + (bytes + rest)
  {
    r := file + bytes;
    Assoc(file, bytes, rest);
  }

  // A std::ifstream: once a read runs past the end the stream is bad and stays bad.
  class Reader {
    const content: File
    var pos: nat
    var good: bool

    ghost predicate Valid()
      reads this
    {
      pos <= |content|
    }

    // What is left to read, None when the stream is bad.
    ghost function View(): Option<File>
      requires Valid()
      reads this
    {
      if good then Some(content[pos..]) else None
    }

    constructor (content: File)
      ensures Valid() && View() == Some(content)
    {
      this.content := content;
      pos := 0;
      good := true;
      new;
      DropNone(content);
    }

    // file.read; the bytes are returned only when all of them are there.
    method Read(n: nat) returns (bytes: seq<bv8>)
      requires Valid()
      modifies this
      ensures Valid()
      ensures old(View()).None? ==> View().None? && bytes == []
      ensures old(View()).Some? ==> match Take(old(View()).value, n)
        case None => View() == None && bytes == []
        case Some((b, rest)) => View() == Some(rest) && bytes == b
    {
      if good && pos + n <= |content| {
        bytes := content[pos..pos + n];
        DropDrop(content, pos, n);
        assert content[pos..][..n] == bytes;
        pos := pos + n;
      } else {
        bytes := [];
        good := false;
      }
    }

    // The loop over file.get(c).
    method ReadName() returns (name: seq<bv8>)
      requires Valid()
      modifies this
      ensures Valid()
      ensures old(View()).None? ==> View().None?
      ensures old(View()).Some? ==> match TakeName(old(View()).value)
        case None => View() == None
        case Some((b, rest)) => View() == Some(rest) && name == b
    {
      name := [];
      ghost var whole := TakeName(content[pos..]);
      if whole.Some? {
        DropNone(whole.value.0);
      }
      while good
        invariant Valid() && (good ==> old(good))
        invariant good ==> NameFrom(name, TakeName(content[pos..])) == whole
        invariant !good && old(good) ==> whole == None
        decreases good, |content| - pos
      {
        if pos == |content| {
          good := false;
        } else {
          var c := content[pos];
          DropDrop(content, pos, 1);
          pos := pos + 1;
          if c == 0 {
            return;
          }
          ghost var later := TakeName(content[pos..]);
          assert NameFrom(name + [c], later) == NameFrom(name, NameFrom([c], later)) by {
            if later.Some? {
              Assoc(name, [c], later.value.0);
            }
          }
          name := name + [c];
        }
      }
    }
  }

  // The name read so far in front of what the rest of the file gives.
  function NameFrom(name: seq<bv8>, later: Option<(seq<bv8>, File)>): Option<(seq<bv8>, File)> {
    match later
    case None => None
    case Some((more, rest)) => Some((name + more, rest))
  }

  // Fields that could not be read are unspecified; here they are left at zero.
  method LoadDataFromFile(content: File) returns (ok: bool, saveData: SaveData)
    ensures ok <==> Load(content).Some?
    ensures ok ==> saveData == Load(content).value
  {
    hide FromLe32, FromLe64, FromLeSize, TakeName;
    var file := new Reader(content);
    var id := file.Read(4);
    var name := file.ReadName();
    var h := file.Read(HEADER_SIZE);
    var size := file.Read(4);
    var dataSize := 0;
    if file.good {
      dataSize := FromLeSize(size);
    }
    var data := file.Read(dataSize);
    ok := file.good;
    if ok {
      saveData := ParseHeader(id, name, h, data);
    } else {
      saveData := SaveData(0, [], 0, [], 0, 0, false, false, 0);
    }
  }

  // ---------- The checksum ----------

  function Twice(c: bv32): bv32 {
    c << 1
  }

  function RunChecksum(c: bv32, data: seq<bv8>): bv32
    decreases |data|
  {
    if data == [] then c else RunChecksum(Xor(Twice(c), Widen(data[0])), data[1..])
  }

  function Checksum(data: seq<bv8>): bv32 {
    RunChecksum(0, data)
  }

  method CalculateChecksum(data: seq<bv8>) returns (checksum: bv32)
    ensures checksum == Checksum(data)
  {
    hide RunChecksum;
    checksum := 0;
    DropNone(data);
    for k := 0 to |data|
      invariant RunChecksum(checksum, data[k..]) == Checksum(data)
    {
      ChecksumStep(checksum, data, k);
      checksum := (checksum << 1) ^ data[k] as bv32;
    }
    ChecksumStep(checksum, data, |data|);
  }

  lemma ChecksumStep(c: bv32, data: seq<bv8>, k: nat)
    requires k <= |data|
    ensures RunChecksum(c, data[k..]) ==
      if k == |data| then c else RunChecksum(Xor(Twice(c), Widen(data[k])), data[k + 1..])
  {
    hide Xor, Twice, Widen;
    if k < |data| {
      DropDrop(data, k, 1);
    }
  }

  method VerifyChecksum(saveData: SaveData) returns (ok: bool)
    ensures ok <==> Checksum(saveData.data) == saveData.checksum
  {
    var calculated := CalculateChecksum(saveData.data);
    return calculated == saveData.checksum;
  }

  // A save that carries its data's checksum still passes after a round trip.
  lemma SavedChecksumVerifies(s: SaveData)
    requires 0 !in s.saveName && |s.data| < SIZE_LIMIT && s.checksum == Checksum(s.data)
    ensures Load(Save(s)).Some? && Checksum(Load(Save(s)).value.data) == Load(Save(s)).value.checksum
  {
    hide Load, Save, Checksum;
    RegularRoundTrip(s);
  }

  // w moved left by n places, bits beyond the 32nd dropping out.
  function ShiftLeft(w: bv32, n: nat): bv32
    decreases n
  {
    if n == 0 then w else ShiftLeft(Twice(w), n - 1)
  }

  // The closed form: byte i contributes itself moved left once for each byte behind it.
  function ShiftedXor(data: seq<bv8>): bv32
    decreases |data|
  {
    if data == [] then 0 else Xor(ShiftLeft(Widen(data[0]), |data| - 1), ShiftedXor(data[1..]))
  }

  lemma RawTwiceXor(a: bv32, b: bv32)
    ensures (a ^ b) << 1 == (a << 1) ^ (b << 1)
  {
  }

  lemma TwiceXor(a: bv32, b: bv32)
    ensures Twice(Xor(a, b)) == Xor(Twice(a), Twice(b))
  {
    RawTwiceXor(a, b);
  }

  lemma {:induction false} ShiftLeftXor(a: bv32, b: bv32, n: nat)
    ensures ShiftLeft(Xor(a, b), n) == Xor(ShiftLeft(a, n), ShiftLeft(b, n))
    decreases n
  {
    hide Xor, Twice;
    if n > 0 {
      TwiceXor(a, b);
      ShiftLeftXor(Twice(a), Twice(b), n - 1);
    }
  }

  lemma {:induction false} RunIsShiftedXor(c: bv32, data: seq<bv8>)
    ensures RunChecksum(c, data) == Xor(ShiftLeft(c, |data|), ShiftedXor(data))
    decreases |data|
  {
    hide Xor, Twice, Widen;
    if data == [] {
      XorLaws(c, 0, 0);
    } else {
      var n, b := |data| - 1, Widen(data[0]);
      RunIsShiftedXor(Xor(Twice(c), b), data[1..]);
      ShiftLeftXor(Twice(c), b, n);
      XorLaws(ShiftLeft(Twice(c), n), ShiftLeft(b, n), ShiftedXor(data[1..]));
    }
  }

  lemma {:induction false} ShiftLeftZero(n: nat)
    ensures ShiftLeft(0, n) == 0
    decreases n
  {
    if n > 0 {
      ShiftLeftZero(n - 1);
    }
  }

  lemma ChecksumIsShiftedXor(data: seq<bv8>)
    ensures Checksum(data) == ShiftedXor(data)
  {
    hide RunChecksum, ShiftedXor, Xor;
    RunIsShiftedXor(0, data);
    ShiftLeftZero(|data|);
    XorLaws(0, ShiftedXor(data), 0);
    XorLaws(ShiftedXor(data), 0, 0);
  }

  lemma {:induction false} ShiftLeftAdd(w: bv32, m: nat, n: nat)
    ensures ShiftLeft(w, m + n) == ShiftLeft(ShiftLeft(w, m), n)
    decreases m
  {
    hide Twice;
    if m > 0 {
      ShiftLeftAdd(Twice(w), m - 1, n);
    }
  }

  lemma RawFour(w: bv32)
    ensures (((w << 1) << 1) << 1) << 1 == w << 4
    ensures (((((((w << 4) << 4) << 4) << 4) << 4) << 4) << 4) << 4 == 0
  {
  }

  lemma ShiftLeft4(w: bv32)
    ensures ShiftLeft(w, 4) == w << 4
  {
    RawFour(w);
    assert ShiftLeft(w, 4) == ShiftLeft(Twice(Twice(w)), 2);
  }

  lemma ShiftLeft32(w: bv32)
    ensures ShiftLeft(w, 32) == 0
  {
    hide ShiftLeft;
    var a := w << 4;
    var b := a << 4;
    var c := b << 4;
    var d := c << 4;
    var e := d << 4;
    var f := e << 4;
    var g := f << 4;
    RawFour(w);
    ShiftLeft4(w);
    ShiftLeft4(a);
    ShiftLeft4(b);
    ShiftLeft4(c);
    ShiftLeft4(d);
    ShiftLeft4(e);
    ShiftLeft4(f);
    ShiftLeft4(g);
    ShiftLeftAdd(w, 4, 28);
    ShiftLeftAdd(a, 4, 24);
    ShiftLeftAdd(b, 4, 20);
    ShiftLeftAdd(c, 4, 16);
    ShiftLeftAdd(d, 4, 12);
    ShiftLeftAdd(e, 4, 8);
    ShiftLeftAdd(f, 4, 4);
  }

  lemma ShiftedOut(w: bv32, n: nat)
    requires n >= 32
    ensures ShiftLeft(w, n) == 0
  {
    hide ShiftLeft;
    ShiftLeftAdd(w, 32, n - 32);
    ShiftLeft32(w);
    ShiftLeftZero(n - 32);
  }

  // Only the last 32 bytes matter: a change anywhere before them goes unnoticed.
  lemma {:induction false} ChecksumOfLast32(pre: seq<bv8>, last: seq<bv8>)
    requires |last| >= 32
    ensures Checksum(pre + last) == Checksum(last)
    decreases |pre|
  {
    hide RunChecksum, ShiftLeft, Xor;
    ChecksumIsShiftedXor(pre + last);
    ChecksumIsShiftedXor(last);
    if pre == [] {
      DropNone(last);
    } else {
      var d := pre + last;
      assert d[1..] == pre[1..] + last;
      ChecksumOfLast32(pre[1..], last);
      ChecksumIsShiftedXor(d[1..]);
      ShiftedOut(Widen(d[0]), |d| - 1);
      XorLaws(ShiftedXor(d[1..]), 0, 0);
      XorLaws(0, ShiftedXor(d[1..]), 0);
    }
  }

  // For instance in the first of 33 bytes.
  lemma FirstOf33Missed(last: seq<bv8>)
    requires |last| == 32
    ensures [0] + last != [1] + last && Checksum([0] + last) == Checksum([1] + last)
  {
    hide Checksum;
    ChecksumOfLast32([0], last);
    ChecksumOfLast32([1], last);
    assert ([0] + last)[0] != ([1] + last)[0];
  }

  // Two inputs that differ in byte i only: their checksums differ by that difference, moved
  // left by the number of bytes behind it. So the change is noticed exactly when not all of
  // its bits have dropped out.
  lemma {:induction false} SingleByteDifference(a: seq<bv8>, b: seq<bv8>, i: nat)
    requires |a| == |b| && i < |a|
    requires forall k :: 0 <= k < |a| && k != i ==> a[k] == b[k]
    ensures Xor(ShiftedXor(a), ShiftedXor(b)) == ShiftLeft(Xor(Widen(a[i]), Widen(b[i])), |a| - 1 - i)
    decreases i
  {
    hide Xor, ShiftLeft, Widen;
    var n := |a| - 1;
    var ta, tb := ShiftedXor(a[1..]), ShiftedXor(b[1..]);
    var x, y := ShiftLeft(Widen(a[0]), n), ShiftLeft(Widen(b[0]), n);
    XorExchange(x, ta, y, tb);
    if i == 0 {
      assert a[1..] == b[1..];
      XorLaws(ta, ta, ta);
      XorLaws(Xor(x, y), 0, 0);
      ShiftLeftXor(Widen(a[0]), Widen(b[0]), n);
    } else {
      SingleByteDifference(a[1..], b[1..], i - 1);
      XorLaws(x, x, x);
      XorLaws(0, Xor(ta, tb), 0);
      XorLaws(Xor(ta, tb), 0, 0);
    }
  }

  lemma SingleByteDetected(a: seq<bv8>, b: seq<bv8>, i: nat)
    requires |a| == |b| && i < |a|
    requires forall k :: 0 <= k < |a| && k != i ==> a[k] == b[k]
    ensures Checksum(a) != Checksum(b) <==> ShiftLeft(Xor(Widen(a[i]), Widen(b[i])), |a| - 1 - i) != 0
  {
    hide RunChecksum, ShiftedXor, ShiftLeft, Xor, Widen;
    ChecksumIsShiftedXor(a);
    ChecksumIsShiftedXor(b);
    SingleByteDifference(a, b, i);
    XorCancels(ShiftedXor(a), ShiftedXor(b));
  }

  lemma RawTop(w: bv8)
    ensures w != 0 ==> (w as bv32) << 24 != 0
  {
  }

  lemma RawXorWiden(a: bv8, b: bv8)
    ensures a as bv32 ^ b as bv32 == (a ^ b) as bv32
    ensures a ^ b == 0 <==> a == b
  {
  }

  lemma RawSix(w: bv32)
    ensures (((((w << 4) << 4) << 4) << 4) << 4) << 4 == w << 24
  {
  }

  lemma ShiftLeft24(w: bv32)
    ensures ShiftLeft(w, 24) == w << 24
  {
    hide ShiftLeft;
    var a := w << 4;
    var b := a << 4;
    var c := b << 4;
    var d := c << 4;
    var e := d << 4;
    RawSix(w);
    ShiftLeft4(w);
    ShiftLeft4(a);
    ShiftLeft4(b);
    ShiftLeft4(c);
    ShiftLeft4(d);
    ShiftLeft4(e);
    ShiftLeftAdd(w, 4, 20);
    ShiftLeftAdd(a, 4, 16);
    ShiftLeftAdd(b, 4, 12);
    ShiftLeftAdd(c, 4, 8);
    ShiftLeftAdd(d, 4, 4);
  }

  // Any change of one byte among the last 25 is noticed.
  lemma RecentByteDetected(a: seq<bv8>, b: seq<bv8>, i: nat)
    requires |a| == |b| && i < |a| && |a| - 1 - i <= 24
    requires a[i] != b[i] && forall k :: 0 <= k < |a| && k != i ==> a[k] == b[k]
    ensures Checksum(a) != Checksum(b)
  {
    hide Checksum, ShiftLeft;
    var n, w := |a| - 1 - i, Xor(Widen(a[i]), Widen(b[i]));
    SingleByteDetected(a, b, i);
    ShiftLeftAdd(w, n, 24 - n);
    ShiftLeftZero(24 - n);
    ShiftLeft24(w);
    RawXorWiden(a[i], b[i]);
    RawTop(a[i] ^ b[i]);
  }

  // ---------- Player data ----------

  // The serialized fields; position is the 16 bytes of its four floats.
  datatype PlayerData = PlayerData(playerId: bv32, position: seq<bv8>, level: bv32, experience: bv32)

  function SerializePlayer(p: PlayerData): seq<bv8> {
    Le32(p.playerId) + (p.position + (Le32(p.level) + Le32(p.experience)))
  }

  function DeserializePlayer(data: seq<bv8>): Option<PlayerData> {
    if |data| < 28 then None else
    Some(PlayerData(FromLe32(data[..4]), data[4..20], FromLe32(data[20..24]), FromLe32(data[24..28])))
  }

  lemma PlayerRoundTrip(p: PlayerData, more: seq<bv8>)
    requires |p.position| == 16
    ensures DeserializePlayer(SerializePlayer(p) + more) == Some(p)
  {
    hide Le32, FromLe32;
    var id, level, exp := Le32(p.playerId), Le32(p.level), Le32(p.experience);
    var d := SerializePlayer(p) + more;
    assert d[..4] == id;
    assert forall k :: 0 <= k < 16 ==> d[4 + k] == p.position[k];
    assert d[4..20] == p.position;
    assert forall k :: 0 <= k < 4 ==> d[20 + k] == level[k] && d[24 + k] == exp[k];
    assert d[20..24] == level && d[24..28] == exp;
    Le32Inverse(p.playerId);
    Le32Inverse(p.level);
    Le32Inverse(p.experience);
  }
}
