/** exFAT directory entries: parsing a directory's bytes and building an entry set. */
module ExfatDentry {
  import opened Bytes
  import opened Utf16

  const EOD := 0x00
  const FILE := 0x85
  const STREAM := 0xC0
  const NAME := 0xC1

  const ATTR_DIRECTORY := 0x10
  const ATTR_ARCHIVE := 0x20

  datatype DirEntry = DirEntry(name: string, first: nat, size: nat, isDir: bool, off: nat, sec: nat)

  /** What the secondary entries read so far say about a file. */
  datatype SetInfo = SetInfo(first: nat, size: nat, nameLen: nat, nameData: seq<byte>)

  const NO_INFO := SetInfo(0, 0, 0, [])

  function AddSlot(info: SetInfo, s: seq<byte>): SetInfo
    requires |s| == 32
  {
    if s[0] == STREAM then info.(nameLen := s[3], size := FromLe(s[8..16]), first := FromLe(s[20..24]))
    else if s[0] == NAME then info.(nameData := info.nameData + s[2..32])
    else info
  }

  /** The inner loop of `parse_dir_entries` over n secondary entries, stopping at the end of the data. */
  function Scan(b: seq<byte>, i: nat, n: nat, info: SetInfo): (r: SetInfo)
    decreases n
  {
    if n == 0 || i + 32 > |b| then info else Scan(b, i + 32, n - 1, AddSlot(info, b[i..i + 32]))
  }

  function ScanEnd(b: seq<byte>, i: nat, n: nat): (r: nat)
    ensures i <= r && (i <= |b| ==> r <= |b|)
    ensures i + 32 * n <= |b| ==> r == i + 32 * n
    decreases n
  {
    if n == 0 || i + 32 > |b| then i else ScanEnd(b, i + 32, n - 1)
  }

  function InfoName(info: SetInfo): string {
    Decode(BytesUnits(info.nameData, info.nameLen))
  }

  predicate HasDirAttr(attrs: nat) { Bit(attrs, 4) }

  function EntryAt(b: seq<byte>, i: nat): (e: DirEntry)
    requires i + 32 <= |b|
    ensures e.off == i && e.sec == b[i + 1]
  {
    var info := Scan(b, i + 32, b[i + 1], NO_INFO);
    DirEntry(InfoName(info), info.first, info.size, HasDirAttr(FromLe(b[i + 4..i + 6])), i, b[i + 1])
  }

  /** The outer loop of `parse_dir_entries`, from byte i on. */
  function ParseFrom(b: seq<byte>, i: nat): (es: seq<DirEntry>)
    decreases |b| - i
  {
    if i + 32 > |b| || b[i] == EOD then []
    else if b[i] != FILE then ParseFrom(b, i + 32)
    else
      var e, rest := EntryAt(b, i), ParseFrom(b, ScanEnd(b, i + 32, b[i + 1]));
      if e.name == [] then rest else [e] + rest
  }

  /** `parse_dir_entries`. */
  function Parse(b: seq<byte>): seq<DirEntry> { ParseFrom(b, 0) }

  // --- replacing an entry never needs more room: arbitrary directory bytes ---

  function SlotsFor(units: nat): nat { 2 + DivCeil(units, 15) }

  lemma {:induction false} ScanCounts(b: seq<byte>, i: nat, n: nat, info: SetInfo)
    requires |info.nameData| % 30 == 0
    ensures var r := Scan(b, i, n, info);
      && |r.nameData| % 30 == 0
      && |r.nameData| / 30 + (if r.nameLen > 0 then 1 else 0) <= |info.nameData| / 30 + (if info.nameLen > 0 then 1 else 0) + n
    decreases n
  {
    if n > 0 && i + 32 <= |b| {
      ScanCounts(b, i + 32, n - 1, AddSlot(info, b[i..i + 32]));
    }
  }

  /** A set found in any directory has at least as many entries as a new set for a name of the same length. */
  lemma EntryHasRoom(b: seq<byte>, i: nat)
    requires i + 32 <= |b| && EntryAt(b, i).name != []
    ensures SlotsFor(|Encode(EntryAt(b, i).name)|) <= 1 + EntryAt(b, i).sec
  {
    var info := Scan(b, i + 32, b[i + 1], NO_INFO);
    ScanCounts(b, i + 32, b[i + 1], NO_INFO);
    EncodeDecodeLength(BytesUnits(info.nameData, info.nameLen));
  }

  lemma {:induction false} ParsedHasRoom(b: seq<byte>, i: nat, k: nat)
    requires k < |ParseFrom(b, i)|
    ensures SlotsFor(|Encode(ParseFrom(b, i)[k].name)|) <= 1 + ParseFrom(b, i)[k].sec
    decreases |b| - i
  {
    hide EntryAt, ScanEnd, Encode;
    if b[i] != FILE {
      ParsedHasRoom(b, i + 32, k);
    } else {
      var e := EntryAt(b, i);
      var next := ScanEnd(b, i + 32, b[i + 1]);
      if e.name == [] {
        ParsedHasRoom(b, next, k);
      } else if k == 0 {
        EntryHasRoom(b, i);
      } else {
        ParsedHasRoom(b, next, k - 1);
      }
    }
  }

  // --- checksum: section 6.3.3 of the exFAT specification ---

  function Rotate(c: nat, x: nat): (r: nat)
    ensures r < 0x1_0000
  {
    (c % 2 * 0x8000 + c / 2 + x) % 0x1_0000
  }

  function ChecksumFrom(b: seq<byte>, i: nat, c: nat): (r: nat)
    requires c < 0x1_0000
    ensures r < 0x1_0000
    decreases |b| - i
  {
    if i >= |b| then c
    else ChecksumFrom(b, i + 1, if i == 2 || i == 3 then c else Rotate(c, b[i]))
  }

  /** `entry_set_checksum`. */
  function Checksum(b: seq<byte>): (r: nat)
    ensures r < 0x1_0000
  {
    ChecksumFrom(b, 0, 0)
  }

  /** The checksum stored in the set's primary entry is the set's checksum. */
  predicate ChecksumOk(b: seq<byte>) {
    |b| >= 32 && Unit(b[2], b[3]) == Checksum(b)
  }

  function PutChecksum(b: seq<byte>): (r: seq<byte>)
    requires |b| >= 32
    ensures |r| == |b| && forall i :: 0 <= i < |b| && i != 2 && i != 3 ==> r[i] == b[i]
  {
    var lo: byte := Checksum(b) % 256;
    var hi: byte := Checksum(b) / 256;
    b[..2] + [lo, hi] + b[4..]
  }

  lemma {:induction false} ChecksumIgnores(b: seq<byte>, b': seq<byte>, i: nat, c: nat)
    requires |b| == |b'| && c < 0x1_0000
    requires forall j :: 0 <= j < |b| && j != 2 && j != 3 ==> b[j] == b'[j]
    ensures ChecksumFrom(b, i, c) == ChecksumFrom(b', i, c)
    decreases |b| - i
  {
    if i < |b| {
      ChecksumIgnores(b, b', i + 1, if i == 2 || i == 3 then c else Rotate(c, b[i]));
    }
  }

  /** Storing the checksum makes it correct, whatever was stored before. */
  lemma PutChecksumOk(b: seq<byte>)
    requires |b| >= 32
    ensures ChecksumOk(PutChecksum(b))
  {
    ChecksumIgnores(b, PutChecksum(b), 0, 0);
  }

  // --- building an entry set: sections 7.4, 7.6 and 7.7 of the exFAT specification ---

  function PrimarySlot(sec: byte, attrs: nat): (s: seq<byte>)
    ensures |s| == 32
  {
    [FILE, sec, 0, 0] + Le(attrs, 2) + Zeros(26)
  }

  function StreamSlot(units: byte, hash: nat, first: nat, size: nat): (s: seq<byte>)
    ensures |s| == 32
  {
    [STREAM, 1, 0, units] + Le(hash, 2) + Zeros(2) + Le(size, 8) + Zeros(4) + Le(first, 4) + Le(size, 8)
  }

  function NameSlot(u: seq<u16>): (s: seq<byte>)
    requires |u| <= 15
    ensures |s| == 32
  {
    [NAME, 0] + UnitBytes(u) + Zeros(30 - 2 * |u|)
  }

  function NameSlots(u: seq<u16>): (s: seq<byte>)
    ensures |s| == 32 * DivCeil(|u|, 15)
    decreases |u|
  {
    if u == [] then []
    else if |u| <= 15 then NameSlot(u)
    else NameSlot(u[..15]) + NameSlots(u[15..])
  }

  /** The set of `build_dentries` before its checksum is stored. */
  function RawSet(u: seq<u16>, hash: nat, first: nat, size: nat, attrs: nat): (s: seq<byte>)
    requires 1 <= |u| <= 255
    ensures |s| == 32 * SlotsFor(|u|) && s[0] == FILE && s[1] == SlotsFor(|u|) - 1
  {
    PrimarySlot(SlotsFor(|u|) - 1, attrs) + StreamSlot(|u|, hash, first, size) + NameSlots(u)
  }

  function EntrySet(u: seq<u16>, hash: nat, first: nat, size: nat, attrs: nat): (s: seq<byte>)
    requires 1 <= |u| <= 255
    ensures |s| == 32 * SlotsFor(|u|) && s[0] == FILE && s[1] == SlotsFor(|u|) - 1
    ensures ChecksumOk(s)
  {
    PutChecksumOk(RawSet(u, hash, first, size, attrs));
    PutChecksum(RawSet(u, hash, first, size, attrs))
  }

  predicate LegalChar(c: char) {
    c >= ' ' && c !in {'"', '*', '/', ':', '<', '>', '?', '\\', '|'}
  }

  /** `utf16_name_units`: 0, EINVAL or ENAMETOOLONG. */
  function NameStatus(name: string): (st: int)
  {
    if name == "" || name == "." || name == ".." then -22
    else if exists i :: 0 <= i < |name| && !LegalChar(name[i]) then -22
    else if |Encode(name)| > 255 then -36
    else 0
  }

  predicate LegalName(name: string) { NameStatus(name) == 0 }

  // --- parsing undoes building ---

  lemma {:induction false} ScanShift(b: seq<byte>, i: nat, b': seq<byte>, i': nat, n: nat, info: SetInfo)
    requires i + 32 * n <= |b| && i' + 32 * n <= |b'|
    requires b[i..i + 32 * n] == b'[i'..i' + 32 * n]
    ensures Scan(b, i, n, info) == Scan(b', i', n, info)
    decreases n
  {
    if n > 0 {
      var s, s' := b[i..i + 32 * n], b'[i'..i' + 32 * n];
      assert b[i..i + 32] == s[..32] && b'[i'..i' + 32] == s'[..32];
      assert b[i + 32..i + 32 + 32 * (n - 1)] == s[32..] && b'[i' + 32..i' + 32 + 32 * (n - 1)] == s'[32..];
      ScanShift(b, i + 32, b', i' + 32, n - 1, AddSlot(info, b[i..i + 32]));
    }
  }

  /** The 30-byte payloads of the name entries, joined. */
  function NamePayload(u: seq<u16>): (s: seq<byte>)
    decreases |u|
  {
    if u == [] then []
    else if |u| <= 15 then UnitBytes(u) + Zeros(30 - 2 * |u|)
    else UnitBytes(u[..15]) + NamePayload(u[15..])
  }

  lemma NameSlotAdds(u: seq<u16>, info: SetInfo)
    requires |u| <= 15
    ensures AddSlot(info, NameSlot(u)) == info.(nameData := info.nameData + UnitBytes(u) + Zeros(30 - 2 * |u|))
  {
    hide UnitBytes, Zeros;
    var x, y, d := UnitBytes(u), Zeros(30 - 2 * |u|), info.nameData;
    SlotTail(x, y);
    assert d + (x + y) == d + x + y;
  }

  lemma SlotTail(x: seq<byte>, y: seq<byte>)
    requires |x| + |y| == 30
    ensures ([NAME, 0] + x + y)[0] == NAME && ([NAME, 0] + x + y)[2..32] == x + y
  {
    var s := [NAME, 0] + x + y;
    assert s == [NAME, 0] + (x + y);
  }

  lemma {:induction false} ScanNames(b: seq<byte>, i: nat, u: seq<u16>, info: SetInfo)
    requires i + |NameSlots(u)| <= |b| && b[i..i + |NameSlots(u)|] == NameSlots(u)
    ensures Scan(b, i, DivCeil(|u|, 15), info) == info.(nameData := info.nameData + NamePayload(u))
    decreases |u|
  {
    hide UnitBytes, NameSlot, AddSlot, NamePayload, Zeros;
    PayloadUnfold(u, info.nameData);
    var s := b[i..i + |NameSlots(u)|];
    if u == [] {
      assert info.nameData + [] == info.nameData;
    } else if |u| <= 15 {
      assert b[i..i + 32] == NameSlot(u);
      NameSlotAdds(u, info);
    } else {
      assert b[i..i + 32] == s[..32] == NameSlot(u[..15]);
      assert b[i + 32..i + 32 + |NameSlots(u[15..])|] == s[32..] == NameSlots(u[15..]);
      NameSlotAdds(u[..15], info);
      NoPad(info.nameData + UnitBytes(u[..15]));
      ScanNames(b, i + 32, u[15..], AddSlot(info, b[i..i + 32]));
    }
  }

  lemma NoPad(d: seq<byte>)
    ensures d + Zeros(0) == d
  {
  }

  lemma PayloadUnfold(u: seq<u16>, d: seq<byte>)
    ensures u == [] ==> NamePayload(u) == []
    ensures 0 < |u| <= 15 ==> d + NamePayload(u) == d + UnitBytes(u) + Zeros(30 - 2 * |u|)
    ensures |u| > 15 ==> d + NamePayload(u) == d + UnitBytes(u[..15]) + NamePayload(u[15..])
  {
    hide UnitBytes, Zeros;
    if 0 < |u| <= 15 {
      assert d + (UnitBytes(u) + Zeros(30 - 2 * |u|)) == d + UnitBytes(u) + Zeros(30 - 2 * |u|);
    } else if |u| > 15 {
      assert d + (UnitBytes(u[..15]) + NamePayload(u[15..])) == d + UnitBytes(u[..15]) + NamePayload(u[15..]);
    }
  }

  lemma {:induction false} UnitBytesConcat(a: seq<u16>, b: seq<u16>)
    ensures UnitBytes(a + b) == UnitBytes(a) + UnitBytes(b)
  {
    if a == [] {
      assert a + b == b;
    } else {
      UnitBytesConcat(a[1..], b);
      assert (a + b)[1..] == a[1..] + b;
    }
  }

  lemma {:induction false} PayloadIs(u: seq<u16>) returns (pad: seq<byte>)
    ensures NamePayload(u) == UnitBytes(u) + pad
    decreases |u|
  {
    if u == [] {
      pad := [];
    } else if |u| <= 15 {
      pad := Zeros(30 - 2 * |u|);
    } else {
      pad := PayloadIs(u[15..]);
      UnitBytesConcat(u[..15], u[15..]);
      assert u == u[..15] + u[15..];
      assert UnitBytes(u[..15]) + (UnitBytes(u[15..]) + pad) == UnitBytes(u) + pad;
    }
  }

  lemma PayloadUnits(u: seq<u16>)
    ensures BytesUnits(NamePayload(u), |u|) == u
  {
    var pad := PayloadIs(u);
    UnitsRoundTrip(u, pad);
  }

  lemma StreamSlotAdds(n: byte, hash: nat, first: nat, size: nat)
    requires first < Pow256(4) && size < Pow256(8)
    ensures AddSlot(NO_INFO, StreamSlot(n, hash, first, size)) == SetInfo(first, size, n, [])
  {
    var s := StreamSlot(n, hash, first, size);
    assert s[8..16] == Le(size, 8);
    assert s[20..24] == Le(first, 4);
    LeRoundTrip(size, 8);
    LeRoundTrip(first, 4);
  }

  /** The set that `build_dentries` makes holds, for the parser, exactly what it was built from. */
  lemma BuiltEntry(b: seq<byte>, i: nat, name: string, hash: nat, first: nat, size: nat, attrs: nat)
    requires LegalName(name) && first < Pow256(4) && size < Pow256(8) && attrs < Pow256(2)
    requires var s := EntrySet(Encode(name), hash, first, size, attrs); i + |s| <= |b| && b[i..i + |s|] == s
    ensures EntryAt(b, i) == DirEntry(name, first, size, HasDirAttr(attrs), i, SlotsFor(|Encode(name)|) - 1)
  {
    hide UnitBytes, NameSlots, DivCeil, AddSlot, Checksum, NamePayload, StreamSlot;
    var u := Encode(name);
    var s, raw := EntrySet(u, hash, first, size, attrs), RawSet(u, hash, first, size, attrs);
    var names := NameSlots(u);
    SetParts(b, i, u, hash, first, size, attrs);
    StreamSlotAdds(|u|, hash, first, size);
    var info := SetInfo(first, size, |u|, []);
    ScanNames(b, i + 64, u, info);
    assert info.nameData + NamePayload(u) == NamePayload(u);
    assert Scan(b, i + 32, SlotsFor(|u|) - 1, NO_INFO) == Scan(b, i + 64, DivCeil(|u|, 15), info);
    PayloadUnits(u);
    DecodeEncode(name);
    LeRoundTrip(attrs, 2);
  }

  /** Where the parts of a built set lie. */
  lemma SetParts(b: seq<byte>, i: nat, u: seq<u16>, hash: nat, first: nat, size: nat, attrs: nat)
    requires 1 <= |u| <= 255
    requires var s := EntrySet(u, hash, first, size, attrs); i + |s| <= |b| && b[i..i + |s|] == s
    ensures b[i] == FILE && b[i + 1] == SlotsFor(|u|) - 1
    ensures b[i + 4..i + 6] == Le(attrs, 2)
    ensures b[i + 32..i + 64] == StreamSlot(|u|, hash, first, size)
    ensures i + 64 + |NameSlots(u)| <= |b| && b[i + 64..i + 64 + |NameSlots(u)|] == NameSlots(u)
  {
    hide NameSlots, Checksum, StreamSlot;
    var s, raw := EntrySet(u, hash, first, size, attrs), RawSet(u, hash, first, size, attrs);
    var names := NameSlots(u);
    assert forall j :: 0 <= j < |s| ==> b[i + j] == s[j];
    assert b[i + 4..i + 6] == raw[4..6] == Le(attrs, 2);
    assert b[i + 32..i + 64] == raw[32..64] == StreamSlot(|u|, hash, first, size);
    assert b[i + 64..i + 64 + |names|] == raw[64..] == names;
  }
}
