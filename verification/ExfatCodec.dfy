/** The loops over directory bytes: parsing, searching, checksums and building, as the driver runs them. */
module ExfatCodec {
  import opened Bytes
  import opened Utf16
  import opened ExfatDentry
  import opened ExfatDir
  import opened ExfatPath

  /** `parse_dir_entries`. */
  method ParseDir(b: seq<byte>) returns (es: seq<DirEntry>)
    ensures es == Parse(b)
  {
    hide EntryAt;
    es := [];
    var i := 0;
    while i + 32 <= |b| && b[i] != EOD
      invariant 0 <= i <= |b|
      invariant es + ParseFrom(b, i) == ParseFrom(b, 0)
      decreases |b| - i
    {
      if b[i] == FILE {
        var e, next := ParseSet(b, i);
        ghost var rest := ParseFrom(b, next);
        assert es + ([e] + rest) == es + [e] + rest;
        if e.name != [] {
          es := es + [e];
        }
        i := next;
      } else {
        i := i + 32;
      }
    }
    assert es + [] == es;
  }

  /** One entry set: the loop over its secondary entries. */
  method ParseSet(b: seq<byte>, i: nat) returns (e: DirEntry, next: nat)
    requires i + 32 <= |b|
    ensures e == EntryAt(b, i) && next == ScanEnd(b, i + 32, b[i + 1])
  {
    var sec := b[i + 1];
    var isDir := HasDirAttr(FromLe(b[i + 4..i + 6]));
    var info := NO_INFO;
    next := i + 32;
    var k := 0;
    while k < sec && next + 32 <= |b|
      invariant 0 <= k <= sec && next <= |b|
      invariant Scan(b, next, sec - k, info) == Scan(b, i + 32, sec, NO_INFO)
      invariant ScanEnd(b, next, sec - k) == ScanEnd(b, i + 32, sec)
    {
      info := AddSlot(info, b[next..next + 32]);
      next := next + 32;
      k := k + 1;
    }
    e := DirEntry(InfoName(info), info.first, info.size, isDir, i, sec);
  }

  /** `find_free_dentry_run`. */
  method SearchRun(b: seq<byte>, n: nat) returns (r: Option<nat>)
    ensures r == FindFreeRun(b, n)
  {
    if n == 0 {
      return None;
    }
    var need := 32 * n;
    var i, start, run := 0, 0, 0;
    while i + 32 <= |b|
      invariant 0 <= i
      invariant FindRun(b, i, start, run, need) == FindRun(b, 0, 0, 0, need)
      decreases |b| - i
    {
      if b[i] < 0x80 {
        if run == 0 {
          start := i;
        }
        run := run + 32;
        if run >= need {
          return Some(start);
        }
        if b[i] == EOD {
          if run + (|b| - (i + 32)) >= need {
            return Some(start);
          }
          return None;
        }
      } else {
        run := 0;
      }
      i := i + 32;
    }
    r := None;
  }

  /** `find_eod_offset`. */
  method SearchEod(b: seq<byte>) returns (r: nat)
    ensures r == FindEod(b, 0)
  {
    hide Aligned;
    var i := 0;
    while i + 32 <= |b|
      invariant 0 <= i
      invariant FindEod(b, i) == FindEod(b, 0)
      decreases |b| - i
    {
      if b[i] == EOD {
        return i;
      }
      i := i + 32;
    }
    r := |b|;
  }

  /** `entry_set_checksum`. */
  method SumSet(b: seq<byte>) returns (c: nat)
    ensures c == Checksum(b)
  {
    c := 0;
    for i := 0 to |b|
      invariant c < 0x1_0000
      invariant ChecksumFrom(b, i, c) == ChecksumFrom(b, 0, 0)
    {
      if i != 2 && i != 3 {
        c := Rotate(c, b[i]);
      }
    }
  }

  /** `upcase_unit`. */
  method FoldUnit(table: Option<seq<byte>>, unit: u16) returns (r: u16)
    ensures r == Upcase(table, unit)
  {
    if table.None? {
      return AsciiUp(unit);
    }
    var t := table.value;
    var off, logical := 0, 0;
    while off + 2 <= |t|
      invariant 0 <= off && 0 <= logical
      invariant UpcaseFrom(t, off, logical, unit) == UpcaseFrom(t, 0, 0, unit)
      decreases |t| - off
    {
      var value := Unit(t[off], t[off + 1]);
      if value == 0xFFFF {
        if off + 4 > |t| {
          return AsciiUp(unit);
        }
        var run := Unit(t[off + 2], t[off + 3]);
        if logical <= unit < logical + run {
          return unit;
        }
        off, logical := off + 4, logical + run;
      } else {
        if logical == unit {
          return value;
        }
        off, logical := off + 2, logical + 1;
      }
    }
    r := AsciiUp(unit);
  }

  /** `name_hash`. */
  method HashName(table: Option<seq<byte>>, u: seq<u16>) returns (h: nat)
    ensures h == NameHash(table, u)
  {
    h := 0;
    for i := 0 to |u|
      invariant h < 0x1_0000
      invariant HashFrom(table, u, i, h) == HashFrom(table, u, 0, 0)
    {
      var f := FoldUnit(table, u[i]);
      h := Rotate(Rotate(h, f % 256), f / 256);
    }
  }

  /** `find_entry_by_name`. */
  method FindName(table: Option<seq<byte>>, es: seq<DirEntry>, name: string) returns (r: Option<nat>)
    ensures r == FindIx(table, es, name)
  {
    hide NamesEqual;
    for i := 0 to |es|
      invariant forall j :: 0 <= j < i ==> !NamesEqual(table, es[j].name, name)
    {
      var eq := SameNames(table, es[i].name, name);
      if eq {
        return Some(i);
      }
    }
    r := None;
  }

  /** `names_equal`: both names folded unit by unit. */
  method SameNames(table: Option<seq<byte>>, a: string, b: string) returns (r: bool)
    ensures r == NamesEqual(table, a, b)
  {
    var x := FoldUnits(table, Encode(a));
    var y := FoldUnits(table, Encode(b));
    r := x == y;
  }

  method FoldUnits(table: Option<seq<byte>>, u: seq<u16>) returns (r: seq<u16>)
    ensures r == Fold(table, u)
  {
    r := [];
    for i := 0 to |u|
      invariant |r| == i && forall j :: 0 <= j < i ==> r[j] == Upcase(table, u[j])
    {
      var f := FoldUnit(table, u[i]);
      r := r + [f];
    }
  }

  // --- building an entry set ---

  /** A name entry that holds the first units of w so far. */
  ghost function PartSlot(w: seq<u16>, i: nat): (s: seq<byte>)
    requires i <= |w| <= 15
    ensures |s| == 32
  {
    [NAME, 0] + UnitBytes(w[..i]) + Zeros(30 - 2 * i)
  }

  lemma PartSlotStep(w: seq<u16>, i: nat)
    requires i < |w| <= 15
    ensures Splice(PartSlot(w, i), 2 + 2 * i, UnitBytes([w[i]])) == PartSlot(w, i + 1)
  {
    hide UnitBytes, Zeros;
    assert w[..i + 1] == w[..i] + [w[i]];
    UnitBytesConcat(w[..i], [w[i]]);
  }

  lemma LastPart(w: seq<u16>)
    requires |w| <= 15
    ensures PartSlot(w, |w|) == NameSlot(w)
  {
    assert w[..|w|] == w;
  }

  /** The inner loop of `build_dentries`: one name entry. */
  method FillSlot(a: seq<byte>, off: nat, w: seq<u16>) returns (d: seq<byte>)
    requires off + 32 <= |a| && |w| <= 15 && a[off..off + 32] == Zeros(32)
    ensures d == Splice(a, off, NameSlot(w))
  {
    hide UnitBytes, PartSlot, NameSlot, Zeros, Splice;
    d := Splice(a, off, [NAME, 0]);
    FirstPart(a, off, w);
    for i := 0 to |w|
      invariant d == Splice(a, off, PartSlot(w, i))
    {
      d := Splice(d, off + 2 + 2 * i, UnitBytes([w[i]]));
      PartSlotStep(w, i);
      SpliceInner(a, off, PartSlot(w, i), 2 + 2 * i, UnitBytes([w[i]]));
    }
    LastPart(w);
  }

  lemma FirstPart(b: seq<byte>, off: nat, w: seq<u16>)
    requires off + 32 <= |b| && |w| <= 15 && b[off..off + 32] == Zeros(32)
    ensures Splice(b, off, PartSlot(w, 0)) == Splice(b, off, [NAME, 0])
  {
    var s := PartSlot(w, 0);
    assert w[..0] == [] && UnitBytes([]) == [];
    forall j | 0 <= j < |b| ensures Splice(b, off, s)[j] == Splice(b, off, [NAME, 0])[j] {
      if off <= j < off + 32 { assert b[off..off + 32][j - off] == 0; }
    }
  }

  lemma SpliceInner(b: seq<byte>, off: nat, s: seq<byte>, k: nat, x: seq<byte>)
    requires off + |s| <= |b| && k + |x| <= |s|
    ensures Splice(Splice(b, off, s), off + k, x) == Splice(b, off, Splice(s, k, x))
  {
  }

  /** The first units of the name, in complete entries. */
  lemma {:induction false} NameSlotsStep(u: seq<u16>, k: nat)
    requires 15 * k < |u|
    ensures var n := Min(15 * k + 15, |u|); NameSlots(u[..n]) == NameSlots(u[..15 * k]) + NameSlot(u[15 * k..n])
    decreases k
  {
    hide NameSlot, NameSlots, DivCeil;
    var n := Min(15 * k + 15, |u|);
    if k == 0 {
      assert u[..0] == [] && u[..n] == u[0..n];
      NameSlotsUnfold(u[..n]);
      NameSlotsUnfold(u[..0]);
    } else {
      var u' := u[15..];
      NameSlotsStep(u', k - 1);
      assert u[..n][15..] == u'[..n - 15] && u[..15 * k][15..] == u'[..15 * (k - 1)];
      assert u[15 * k..n] == u'[15 * (k - 1)..n - 15] && u[..n][..15] == u[..15] == u[..15 * k][..15];
      NameSlotsUnfold(u[..n]);
      NameSlotsUnfold(u[..15 * k]);
    }
  }

  lemma NameSlotsUnfold(u: seq<u16>)
    ensures u == [] ==> NameSlots(u) == []
    ensures 0 < |u| <= 15 ==> NameSlots(u) == NameSlot(u)
    ensures |u| >= 15 ==> NameSlots(u) == NameSlot(u[..15]) + NameSlots(u[15..])
  {
    hide NameSlot;
    if |u| == 15 {
      assert u[..15] == u && NameSlots(u[15..]) == [];
    }
  }

  /** The primary and stream entries, field by field, in a zeroed buffer. */
  method FillHead(n: nat, sec: byte, attrs: nat, units: byte, hash: nat, first: nat, size: nat) returns (d: seq<byte>)
    ensures d == PrimarySlot(sec, attrs) + StreamSlot(units, hash, first, size) + Zeros(n)
  {
    hide PrimarySlot, StreamSlot, Le;
    d := Zeros(64 + n);
    d := Splice(d, 0, [FILE, sec]);
    d := Splice(d, 4, Le(attrs, 2));
    PrimaryIs(sec, attrs);
    ghost var p := PrimarySlot(sec, attrs);
    assert d == p + Zeros(32) + Zeros(n);
    d := FillStream(d, units, hash, first, size);
    assert d == p + StreamSlot(units, hash, first, size) + Zeros(n);
  }

  method FillStream(a: seq<byte>, units: byte, hash: nat, first: nat, size: nat) returns (d: seq<byte>)
    requires |a| >= 64 && a[32..64] == Zeros(32)
    ensures d == Splice(a, 32, StreamSlot(units, hash, first, size))
  {
    hide StreamSlot, Le, Splice, Zeros;
    d := Splice(a, 32, [STREAM, 1, 0, units]);
    d := Splice(d, 36, Le(hash, 2));
    d := Splice(d, 40, Le(size, 8));
    d := Splice(d, 52, Le(first, 4));
    d := Splice(d, 56, Le(size, 8));
    StreamIs(units, hash, first, size);
    ghost var r0 := Zeros(32);
    ghost var r1 := Splice(r0, 0, [STREAM, 1, 0, units]);
    ghost var r2 := Splice(r1, 4, Le(hash, 2));
    ghost var r3 := Splice(r2, 8, Le(size, 8));
    ghost var r4 := Splice(r3, 20, Le(first, 4));
    SpliceSelf(a, 32, r0);
    SpliceInner(a, 32, r0, 0, [STREAM, 1, 0, units]);
    SpliceInner(a, 32, r1, 4, Le(hash, 2));
    SpliceInner(a, 32, r2, 8, Le(size, 8));
    SpliceInner(a, 32, r3, 20, Le(first, 4));
    SpliceInner(a, 32, r4, 24, Le(size, 8));
  }

  lemma SpliceSelf(a: seq<byte>, off: nat, x: seq<byte>)
    requires off + |x| <= |a| && a[off..off + |x|] == x
    ensures Splice(a, off, x) == a
  {
  }

  lemma PrimaryIs(sec: byte, attrs: nat)
    ensures Splice(Splice(Zeros(32), 0, [FILE, sec]), 4, Le(attrs, 2)) == PrimarySlot(sec, attrs)
  {
    hide Le;
  }

  lemma StreamIs(units: byte, hash: nat, first: nat, size: nat)
    ensures Splice(Splice(Splice(Splice(Splice(Zeros(32), 0, [STREAM, 1, 0, units]), 4, Le(hash, 2)),
                                 8, Le(size, 8)), 20, Le(first, 4)), 24, Le(size, 8))
         == StreamSlot(units, hash, first, size)
  {
    hide Le;
    var r1 := Splice(Splice(Zeros(32), 0, [STREAM, 1, 0, units]), 4, Le(hash, 2));
    assert r1 == [STREAM, 1, 0, units] + Le(hash, 2) + Zeros(26);
    var r2 := Splice(Splice(r1, 8, Le(size, 8)), 20, Le(first, 4));
    assert r2 == [STREAM, 1, 0, units] + Le(hash, 2) + Zeros(2) + Le(size, 8) + Zeros(4) + Le(first, 4) + Zeros(8);
  }

  /** `utf16_name_units`: whether a name can be stored. */
  method CheckName(name: string) returns (st: int)
    ensures st == NameStatus(name)
  {
    if name == "" || name == "." || name == ".." {
      return -22;
    }
    for i := 0 to |name|
      invariant forall j :: 0 <= j < i ==> LegalChar(name[j])
    {
      if !LegalChar(name[i]) {
        return -22;
      }
    }
    st := if |Encode(name)| > 255 then -36 else 0;
  }

  /** The entries of the first k complete name slots, in a buffer whose rest is zero. */
  ghost predicate Filled(b: seq<byte>, head: seq<byte>, u: seq<u16>, k: nat)
  {
    var n := Min(15 * k, |u|);
    |NameSlots(u[..n])| == 32 * k && |head| == 64 && |b| >= 64 + 32 * k &&
    b == head + NameSlots(u[..n]) + Zeros(|b| - 64 - 32 * k)
  }

  lemma FilledStep(b: seq<byte>, head: seq<byte>, u: seq<u16>, k: nat)
    requires Filled(b, head, u, k) && 15 * k < |u| && |b| >= 96 + 32 * k
    ensures b[64 + 32 * k..96 + 32 * k] == Zeros(32)
    ensures Filled(Splice(b, 64 + 32 * k, NameSlot(u[15 * k..Min(15 * k + 15, |u|)])), head, u, k + 1)
  {
    hide NameSlot, NameSlots, DivCeil;
    NameSlotsStep(u, k);
    var s := NameSlots(u[..15 * k]);
    var x := NameSlot(u[15 * k..Min(15 * k + 15, |u|)]);
    var z := Zeros(|b| - 64 - 32 * k);
    assert Splice(head + s + z, 64 + 32 * k, x) == head + (s + x) + z[32..];
    assert z[32..] == Zeros(|b| - 96 - 32 * k);
    assert b[64 + 32 * k..96 + 32 * k] == z[..32] == Zeros(32);
  }

  /** `build_dentries`: the bytes of a directory entry set. */
  method BuildSet(table: Option<seq<byte>>, u: seq<u16>, first: nat, size: nat, attrs: nat) returns (d: seq<byte>)
    requires 1 <= |u| <= 255
    ensures d == EntrySet(u, NameHash(table, u), first, size, attrs)
  {
    hide NameSlot, NameSlots, NameHash, PrimarySlot, StreamSlot;
    var hash := HashName(table, u);
    var names := (|u| + 14) / 15;
    d := FillHead(32 * names, 1 + names, attrs, |u|, hash, first, size);
    ghost var head := PrimarySlot(1 + names, attrs) + StreamSlot(|u|, hash, first, size);
    NameSlotsUnfold(u[..0]);
    for k := 0 to names
      invariant |d| == 64 + 32 * names && Filled(d, head, u, k)
    {
      FilledStep(d, head, u, k);
      d := FillSlot(d, 64 + 32 * k, u[15 * k..Min(15 * k + 15, |u|)]);
    }
    FilledAll(d, head, u, names);
    d := StoreSum(d);
  }

  lemma FilledAll(d: seq<byte>, head: seq<byte>, u: seq<u16>, k: nat)
    requires Filled(d, head, u, k) && 15 * k >= |u| && |d| == 64 + 32 * k
    ensures d == head + NameSlots(u)
  {
    hide NameSlots;
    assert u[..|u|] == u;
  }

  method StoreSum(b: seq<byte>) returns (d: seq<byte>)
    requires |b| >= 32
    ensures d == PutChecksum(b)
  {
    hide Checksum;
    var c := SumSet(b);
    var lo: byte, hi: byte := c % 256, c / 256;
    d := Splice(b, 2, [lo, hi]);
  }

  /** `mark_dentry_range_deleted` on the copy that `choose_dentry_offset` searches. */
  method ClearInUse(b: seq<byte>, off: nat, n: nat) returns (r: seq<byte>)
    ensures r == MarkDeleted(b, off, n)
  {
    r := b;
    for i := 0 to n
      invariant MarkDeleted(r, off + 32 * i, n - i) == MarkDeleted(b, off, n)
    {
      if off + 32 * i < |r| {
        var t: byte := r[off + 32 * i] % 128;
        r := r[off + 32 * i := t];
      }
    }
  }
}
