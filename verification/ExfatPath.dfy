/** Paths, names and case folding. */
module ExfatPath {
  import opened Bytes
  import opened Utf16
  import opened ExfatDentry

  // --- paths ---

  /** The non-empty components of a path, given the component read so far. */
  function CompsFrom(s: string, cur: string): (r: seq<string>)
    decreases |s|
  {
    if s == [] then (if cur == [] then [] else [cur])
    else if s[0] != '/' then CompsFrom(s[1..], cur + [s[0]])
    else (if cur == [] then [] else [cur]) + CompsFrom(s[1..], [])
  }

  /** The components that `resolve_path` walks. */
  function Comps(path: string): seq<string> { CompsFrom(path, []) }

  /** `split_parent_name`. */
  function SplitParent(path: string): (r: (string, string)) {
    var p := LastSlash(path, |path|);
    if p.Some? then (path[..Max(p.value, 1)], path[p.value + 1..]) else ("/", path)
  }

  lemma {:induction false} CompsOfName(name: string, cur: string)
    requires forall i :: 0 <= i < |name| ==> name[i] != '/'
    ensures CompsFrom(name, cur) == if cur + name == [] then [] else [cur + name]
    decreases |name|
  {
    if name == [] {
      assert cur + name == cur;
    } else {
      CompsOfName(name[1..], cur + [name[0]]);
      assert cur + [name[0]] + name[1..] == cur + name;
    }
  }

  lemma {:induction false} CompsSplit(a: string, b: string, cur: string)
    ensures CompsFrom(a + ['/'] + b, cur) == CompsFrom(a, cur) + CompsFrom(b, [])
    decreases |a|
  {
    var s := a + ['/'] + b;
    if a == [] {
      assert s[1..] == b;
    } else {
      assert s[1..] == a[1..] + ['/'] + b;
      CompsSplit(a[1..], b, if a[0] != '/' then cur + [a[0]] else []);
    }
  }

  lemma RootComps()
    ensures Comps("/") == [] && Comps("") == []
  {
    assert CompsFrom("/", "") == [] + CompsFrom("/"[1..], "");
  }

  lemma SplitShape(path: string)
    ensures var (parent, name) := SplitParent(path); var p := LastSlash(path, |path|);
      && (forall i :: 0 <= i < |name| ==> name[i] != '/')
      && (if p.None? then parent == "/" && name == path
          else path == path[..p.value] + ['/'] + name && parent == if p.value == 0 then "/" else path[..p.value])
  {
    hide LastSlash;
    var p := LastSlash(path, |path|);
    if p.Some? {
      AroundSlash(path, p.value);
      var name := path[p.value + 1..];
      forall i | 0 <= i < |name| ensures name[i] != '/' { assert name[i] == path[p.value + 1 + i]; }
    }
  }

  lemma AroundSlash(path: string, p: nat)
    requires p < |path| && path[p] == '/'
    ensures path == path[..p] + ['/'] + path[p + 1..]
  {
  }

  /** The path names its last component inside the directory that the parent path names. */
  lemma SplitParentComps(path: string)
    requires SplitParent(path).1 != ""
    ensures Comps(path) == Comps(SplitParent(path).0) + [SplitParent(path).1]
  {
    hide CompsFrom, SplitParent, LastSlash;
    var (parent, name) := SplitParent(path);
    SplitShape(path);
    RootComps();
    CompsOfName(name, []);
    assert [] + name == name;
    var p := LastSlash(path, |path|);
    if p.Some? {
      CompsSplit(path[..p.value], name, []);
      if p.value == 0 { assert path[..0] == ""; }
    }
  }

  // --- case folding ---

  function AsciiUp(unit: u16): u16 {
    if 'a' as int <= unit <= 'z' as int then unit - 32 else unit
  }

  /** The loop of `upcase_unit` over the bytes of the up-case table. */
  function UpcaseFrom(table: seq<byte>, off: nat, logical: nat, unit: u16): (r: u16)
    decreases |table| - off
  {
    if off + 2 > |table| then AsciiUp(unit)
    else
      var value := Unit(table[off], table[off + 1]);
      if value == 0xFFFF then
        if off + 4 > |table| then AsciiUp(unit)
        else
          var run := Unit(table[off + 2], table[off + 3]);
          if logical <= unit < logical + run then unit
          else UpcaseFrom(table, off + 4, logical + run, unit)
      else if logical == unit then value
      else UpcaseFrom(table, off + 2, logical + 1, unit)
  }

  /** `upcase_unit`; no table means ASCII folding. */
  function Upcase(table: Option<seq<byte>>, unit: u16): u16 {
    if table.None? then AsciiUp(unit) else UpcaseFrom(table.value, 0, 0, unit)
  }

  /** The table decompressed from `off` on: FFFFh and a count stand for that many units mapped to themselves (section 7.2 of the exFAT specification). */
  function Expand(table: seq<byte>, off: nat, logical: nat): (m: seq<nat>)
    decreases |table| - off
  {
    if off + 2 > |table| then []
    else
      var value := Unit(table[off], table[off + 1]);
      if value != 0xFFFF then [value] + Expand(table, off + 2, logical + 1)
      else if off + 4 > |table| then []
      else
        var run := Unit(table[off + 2], table[off + 3]);
        Same(logical, run) + Expand(table, off + 4, logical + run)
  }

  /** n units from `logical` on, each mapped to itself. */
  function Same(logical: nat, n: nat): (m: seq<nat>)
    ensures |m| == n && forall i :: 0 <= i < n ==> m[i] == logical + i
  {
    seq(n, i requires 0 <= i => logical + i)
  }

  lemma ExpandUnit(table: seq<byte>, off: nat, logical: nat)
    requires off + 2 <= |table| && Unit(table[off], table[off + 1]) != 0xFFFF
    ensures Expand(table, off, logical) == [Unit(table[off], table[off + 1])] + Expand(table, off + 2, logical + 1)
  {
  }

  lemma ExpandRun(table: seq<byte>, off: nat, logical: nat)
    requires off + 4 <= |table| && Unit(table[off], table[off + 1]) == 0xFFFF
    ensures var run := Unit(table[off + 2], table[off + 3]);
      Expand(table, off, logical) == Same(logical, run) + Expand(table, off + 4, logical + run)
  {
  }

  lemma ExpandEnd(table: seq<byte>, off: nat, logical: nat)
    requires off + 2 > |table| || (off + 4 > |table| && Unit(table[off], table[off + 1]) == 0xFFFF)
    ensures Expand(table, off, logical) == []
  {
  }

  lemma {:induction false} UpcaseFromIs(table: seq<byte>, off: nat, logical: nat, unit: u16)
    requires logical <= unit
    ensures var m := Expand(table, off, logical);
      UpcaseFrom(table, off, logical, unit) == if unit - logical < |m| then m[unit - logical] else AsciiUp(unit)
    decreases |table| - off
  {
    hide Unit, Expand, AsciiUp;
    if off + 2 <= |table| && Unit(table[off], table[off + 1]) != 0xFFFF {
      ExpandUnit(table, off, logical);
      if logical < unit { UpcaseFromIs(table, off + 2, logical + 1, unit); }
    } else if off + 4 <= |table| {
      var run := Unit(table[off + 2], table[off + 3]);
      ExpandRun(table, off, logical);
      if logical + run <= unit { UpcaseFromIs(table, off + 4, logical + run, unit); }
    } else {
      ExpandEnd(table, off, logical);
    }
  }

  /** Folding a unit looks it up in the decompressed table; past the table's end only ASCII letters fold. */
  lemma UpcaseIsLookup(table: seq<byte>, unit: u16)
    ensures var m := Expand(table, 0, 0);
      Upcase(Some(table), unit) == if unit < |m| then m[unit] else AsciiUp(unit)
  {
    UpcaseFromIs(table, 0, 0, unit);
  }

  function Fold(table: Option<seq<byte>>, u: seq<u16>): (r: seq<u16>)
    ensures |r| == |u|
  {
    seq(|u|, i requires 0 <= i < |u| => Upcase(table, u[i]))
  }

  /** `names_equal`. */
  predicate NamesEqual(table: Option<seq<byte>>, a: string, b: string) {
    Fold(table, Encode(a)) == Fold(table, Encode(b))
  }

  function HashFrom(table: Option<seq<byte>>, u: seq<u16>, i: nat, h: nat): (r: nat)
    requires i <= |u| && h < 0x1_0000
    ensures r < 0x1_0000
    decreases |u| - i
  {
    if i == |u| then h
    else
      var f := Upcase(table, u[i]);
      HashFrom(table, u, i + 1, Rotate(Rotate(h, f % 256), f / 256))
  }

  /** `name_hash`. */
  function NameHash(table: Option<seq<byte>>, u: seq<u16>): (r: nat)
    ensures r < 0x1_0000
  {
    HashFrom(table, u, 0, 0)
  }

  /** The rotating 16-bit sum of bytes, continued from h. */
  function SumFrom(b: seq<byte>, h: nat): (r: nat)
    requires h < 0x1_0000
    ensures r < 0x1_0000
    decreases |b|
  {
    if b == [] then h else SumFrom(b[1..], Rotate(h, b[0]))
  }

  lemma {:induction false} HashFromIs(table: Option<seq<byte>>, u: seq<u16>, i: nat, h: nat)
    requires i <= |u| && h < 0x1_0000
    ensures HashFrom(table, u, i, h) == SumFrom(UnitBytes(Fold(table, u)[i..]), h)
    decreases |u| - i
  {
    hide Rotate, Upcase;
    if i < |u| {
      var f := Upcase(table, u[i]);
      var lo: byte, hi: byte := f % 256, f / 256;
      var rest := Fold(table, u)[i + 1..];
      assert Fold(table, u)[i..] == [f] + rest;
      assert ([f] + rest)[1..] == rest;
      assert UnitBytes([f] + rest) == [lo, hi] + UnitBytes(rest);
      SumTwo(lo, hi, UnitBytes(rest), h);
      HashFromIs(table, u, i + 1, Rotate(Rotate(h, lo), hi));
    }
  }

  lemma SumTwo(lo: byte, hi: byte, b: seq<byte>, h: nat)
    requires h < 0x1_0000
    ensures SumFrom([lo, hi] + b, h) == SumFrom(b, Rotate(Rotate(h, lo), hi))
  {
    hide Rotate;
    assert ([lo, hi] + b)[1..] == [hi] + b && ([hi] + b)[1..] == b;
  }

  /** The name hash is the rotating sum of the up-cased name's bytes, so names that are equal have equal hashes. */
  lemma HashOfFolded(table: Option<seq<byte>>, u: seq<u16>)
    ensures NameHash(table, u) == SumFrom(UnitBytes(Fold(table, u)), 0)
  {
    HashFromIs(table, u, 0, 0);
    assert Fold(table, u)[0..] == Fold(table, u);
  }

  lemma EqualNamesEqualHash(table: Option<seq<byte>>, a: string, b: string)
    requires NamesEqual(table, a, b)
    ensures NameHash(table, Encode(a)) == NameHash(table, Encode(b))
  {
    HashOfFolded(table, Encode(a));
    HashOfFolded(table, Encode(b));
  }

  /** Index of the first entry whose name equals `name`: `find_entry_by_name`. */
  function FindIx(table: Option<seq<byte>>, es: seq<DirEntry>, name: string): (r: Option<nat>)
    ensures r.Some? ==> r.value < |es| && NamesEqual(table, es[r.value].name, name)
    ensures forall i :: 0 <= i < (if r.Some? then r.value else |es|) ==> !NamesEqual(table, es[i].name, name)
  {
    if es == [] then None
    else if NamesEqual(table, es[0].name, name) then Some(0)
    else
      var r := FindIx(table, es[1..], name);
      if r.None? then None else Some(r.value + 1)
  }

  /**
   * For arbitrary directory bytes: an existing entry of an equal name has at least as many slots
   * as the new set, so replacing it never has to relocate.
   */
  lemma ReplacementFits(table: Option<seq<byte>>, b: seq<byte>, name: string)
    requires FindIx(table, Parse(b), name).Some?
    ensures SlotsFor(|Encode(name)|) <= 1 + Parse(b)[FindIx(table, Parse(b), name).value].sec
  {
    ParsedHasRoom(b, 0, FindIx(table, Parse(b), name).value);
  }
}
