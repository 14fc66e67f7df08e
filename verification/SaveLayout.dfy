// Where every field of a save file lies, byte by byte. The name has no fixed length, so all but
// the id stand behind its NUL.
module SaveLayout {
  import opened Seqs
  import opened SaveFormat

  // The k-th byte of a word, the lowest first.
  function Octet32(x: bv32, k: nat): bv8
    requires k < 4
  {
    if k == 0 then (x & 0xFF) as bv8
    else if k == 1 then ((x >> 8) & 0xFF) as bv8
    else if k == 2 then ((x >> 16) & 0xFF) as bv8
    else ((x >> 24) & 0xFF) as bv8
  }

  function Octet64(x: bv64, k: nat): bv8
    requires k < 8
  {
    if k == 0 then (x & 0xFF) as bv8
    else if k == 1 then ((x >> 8) & 0xFF) as bv8
    else if k == 2 then ((x >> 16) & 0xFF) as bv8
    else if k == 3 then ((x >> 24) & 0xFF) as bv8
    else if k == 4 then ((x >> 32) & 0xFF) as bv8
    else if k == 5 then ((x >> 40) & 0xFF) as bv8
    else if k == 6 then ((x >> 48) & 0xFF) as bv8
    else ((x >> 56) & 0xFF) as bv8
  }

  ghost predicate Word32At(f: File, i: nat, x: bv32) {
    i + 4 <= |f| && forall k :: 0 <= k < 4 ==> f[i + k] == Octet32(x, k)
  }

  ghost predicate Word64At(f: File, i: nat, x: bv64) {
    i + 8 <= |f| && forall k :: 0 <= k < 8 ==> f[i + k] == Octet64(x, k)
  }

  predicate FlagAt(f: File, i: nat, b: bool) {
    i < |f| && f[i] == if b then 1 else 0
  }

  ghost predicate BytesAt(f: File, i: nat, bytes: seq<bv8>) {
    i + |bytes| <= |f| && f[i..i + |bytes|] == bytes
  }

  lemma RawOctets(x: bv64)
    ensures (((x & 0xFFFF_FFFF) as bv32) & 0xFF) as bv8 == (x & 0xFF) as bv8
    ensures ((((x & 0xFFFF_FFFF) as bv32) >> 8) & 0xFF) as bv8 == ((x >> 8) & 0xFF) as bv8
    ensures ((((x & 0xFFFF_FFFF) as bv32) >> 16) & 0xFF) as bv8 == ((x >> 16) & 0xFF) as bv8
    ensures ((((x & 0xFFFF_FFFF) as bv32) >> 24) & 0xFF) as bv8 == ((x >> 24) & 0xFF) as bv8
    ensures (((x >> 32) as bv32) & 0xFF) as bv8 == ((x >> 32) & 0xFF) as bv8
    ensures ((((x >> 32) as bv32) >> 8) & 0xFF) as bv8 == ((x >> 40) & 0xFF) as bv8
    ensures ((((x >> 32) as bv32) >> 16) & 0xFF) as bv8 == ((x >> 48) & 0xFF) as bv8
    ensures ((((x >> 32) as bv32) >> 24) & 0xFF) as bv8 == ((x >> 56) & 0xFF) as bv8
  {
  }

  lemma Octets32(x: bv32)
    ensures forall k :: 0 <= k < 4 ==> Le32(x)[k] == Octet32(x, k)
  {
  }

  lemma HalfOctets(x: bv64, lo: bv32, hi: bv32)
    requires lo == (x & 0xFFFF_FFFF) as bv32 && hi == (x >> 32) as bv32
    ensures forall k :: 0 <= k < 4 ==> Octet32(lo, k) == Octet64(x, k)
    ensures forall k :: 4 <= k < 8 ==> Octet32(hi, k - 4) == Octet64(x, k)
  {
    RawOctets(x);
  }

  lemma Octets64(x: bv64)
    ensures forall k :: 0 <= k < 8 ==> Le64(x)[k] == Octet64(x, k)
  {
    hide Le32, Octet32, Octet64;
    var lo, hi := (x & 0xFFFF_FFFF) as bv32, (x >> 32) as bv32;
    Octets32(lo);
    Octets32(hi);
    HalfOctets(x, lo, hi);
    assert Le64(x) == Le32(lo) + Le32(hi);
    forall k | 0 <= k < 8 ensures Le64(x)[k] == Octet64(x, k) {
      assert Le64(x)[k] == if k < 4 then Le32(lo)[k] else Le32(hi)[k - 4];
    }
  }

  lemma Word32Is(f: File, i: nat, x: bv32)
    requires BytesAt(f, i, Le32(x))
    ensures Word32At(f, i, x)
  {
    hide Le32, Octet32;
    Octets32(x);
    var word := f[i..i + 4];
    assert forall k :: 0 <= k < 4 ==> word[k] == f[i + k];
  }

  lemma Word64Is(f: File, i: nat, x: bv64)
    requires BytesAt(f, i, Le64(x))
    ensures Word64At(f, i, x)
  {
    hide Le64, Octet64;
    Octets64(x);
    var word := f[i..i + 8];
    assert forall k :: 0 <= k < 8 ==> word[k] == f[i + k];
  }

  // One field after the other.
  lemma NextField(f: File, i: nat, bytes: seq<bv8>, rest: File)
    requires i <= |f| && f[i..] == bytes + rest
    ensures i + |bytes| <= |f| && BytesAt(f, i, bytes) && f[i + |bytes|..] == rest
  {
    Slice(f, i, bytes, rest);
  }

  lemma FlagIs(f: File, i: nat, b: bool)
    requires BytesAt(f, i, Flag(b))
    ensures FlagAt(f, i, b)
  {
    assert f[i] == f[i..i + 1][0];
  }

  lemma HeaderLayout(f: File, i: nat, s: SaveData, rest: File)
    requires i <= |f| && f[i..] == Header(s) + rest
    ensures Word32At(f, i, s.kind) && Word64At(f, i + 4, s.timestamp) && Word32At(f, i + 12, s.version)
    ensures FlagAt(f, i + 16, s.isCompressed) && FlagAt(f, i + 17, s.isEncrypted) && Word32At(f, i + 18, s.checksum)
    ensures i + 22 <= |f| && f[i + 22..] == rest
  {
    hide Le32, Le64, Word32At, Word64At, BytesAt, FlagAt;
    var f5 := Le32(s.checksum);
    var f4 := Flag(s.isEncrypted) + f5;
    var f3 := Flag(s.isCompressed) + f4;
    var f2 := Le32(s.version) + f3;
    var f1 := Le64(s.timestamp) + f2;
    Assoc(Le32(s.kind), f1, rest);
    NextField(f, i, Le32(s.kind), f1 + rest);
    Assoc(Le64(s.timestamp), f2, rest);
    NextField(f, i + 4, Le64(s.timestamp), f2 + rest);
    Assoc(Le32(s.version), f3, rest);
    NextField(f, i + 12, Le32(s.version), f3 + rest);
    Assoc(Flag(s.isCompressed), f4, rest);
    NextField(f, i + 16, Flag(s.isCompressed), f4 + rest);
    Assoc(Flag(s.isEncrypted), f5, rest);
    NextField(f, i + 17, Flag(s.isEncrypted), f5 + rest);
    NextField(f, i + 18, f5, rest);
    Word32Is(f, i, s.kind);
    Word64Is(f, i + 4, s.timestamp);
    Word32Is(f, i + 12, s.version);
    FlagIs(f, i + 16, s.isCompressed);
    FlagIs(f, i + 17, s.isEncrypted);
    Word32Is(f, i + 18, s.checksum);
  }

  lemma FrontLayout(f: File, s: SaveData, rest: File)
    requires f == Le32(s.saveId) + (s.saveName + ([0] + rest))
    ensures var n := |s.saveName|;
      && Word32At(f, 0, s.saveId) && BytesAt(f, 4, s.saveName) && n + 5 <= |f| && f[n + 4] == 0 && f[n + 5..] == rest
  {
    hide Le32, Word32At, BytesAt;
    var n := |s.saveName|;
    DropNone(f);
    NextField(f, 0, Le32(s.saveId), s.saveName + ([0] + rest));
    NextField(f, 4, s.saveName, [0] + rest);
    NextField(f, n + 4, [0], rest);
    Word32Is(f, 0, s.saveId);
    NulAt(f, n + 4);
  }

  lemma NulAt(f: File, i: nat)
    requires BytesAt(f, i, [0])
    ensures i < |f| && f[i] == 0
  {
    assert f[i] == f[i..i + 1][0];
  }

  lemma DataLayout(f: File, i: nat, data: seq<bv8>)
    requires |data| < 0x1_0000_0000 && i <= |f| && f[i..] == LeSize(|data|) + data
    ensures |f| == i + 4 + |data| && f[i + 4..] == data && SizeAt(f, i, |data|)
  {
    hide LeSize, SizeAt;
    NextField(f, i, LeSize(|data|), data);
    LeSizeInverse(|data|);
    SizeBytes(f, i, |data|);
  }

  predicate SizeAt(f: File, i: nat, size: nat) {
    i + 4 <= |f| && size
    == ByteValue(f[i]) + 0x100 * ByteValue(f[i + 1]) + 0x1_0000 * ByteValue(f[i + 2]) + 0x100_0000 * ByteValue(f[i + 3])
  }

  lemma SavedAs(s: SaveData)
    requires |s.data| < 0x1_0000_0000
    ensures Save(s) == Le32(s.saveId) + (s.saveName + ([0] + (Header(s) + (LeSize(|s.data|) + s.data))))
  {
    hide Le32, Header, LeSize;
    assert s.data[..|s.data|] == s.data;
  }

  // The whole file. The size field stands in front of the data it counts.
  lemma FileLayout(s: SaveData)
    requires |s.data| < 0x1_0000_0000
    ensures var f, n := Save(s), |s.saveName|;
      && |f| == n + |s.data| + 31
      && Word32At(f, 0, s.saveId) && BytesAt(f, 4, s.saveName) && f[n + 4] == 0
      && Word32At(f, n + 5, s.kind) && Word64At(f, n + 9, s.timestamp) && Word32At(f, n + 17, s.version)
      && FlagAt(f, n + 21, s.isCompressed) && FlagAt(f, n + 22, s.isEncrypted) && Word32At(f, n + 23, s.checksum)
      && SizeAt(f, n + 27, |s.data|) && f[n + 31..] == s.data
  {
    hide Save, Le32, Header, LeSize, Word32At, Word64At, FlagAt, BytesAt, SizeAt;
    var f, n := Save(s), |s.saveName|;
    var rest := LeSize(|s.data|) + s.data;
    SavedAs(s);
    FrontLayout(f, s, Header(s) + rest);
    HeaderLayout(f, n + 5, s, rest);
    DataLayout(f, n + 27, s.data);
  }

  lemma SizeBytes(f: File, i: nat, size: nat)
    requires size < 0x1_0000_0000 && BytesAt(f, i, LeSize(size)) && FromLeSize(LeSize(size)) == size
    ensures SizeAt(f, i, size)
  {
    hide LeSize, ByteValue;
    var s := LeSize(size);
    assert f[i..i + 4] == s;
    assert s[0] == f[i] && s[1] == f[i + 1] && s[2] == f[i + 2] && s[3] == f[i + 3];
  }
}
