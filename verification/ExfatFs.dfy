/** The operations of the exFAT driver, as functions from volume to volume. */
module ExfatFs {
  import opened Bytes
  import opened Utf16
  import opened ExfatChain
  import opened ExfatAlloc
  import opened ExfatSound
  import opened ExfatDentry
  import opened ExfatDir
  import opened ExfatPath

  /** The volume after an operation, and its status: 0 or a negative errno. */
  datatype Op = Op(v: Vol, st: int)

  /** A resolved entry, with the first cluster of the directory that holds it (0 for the root). */
  datatype Found = Found(e: DirEntry, parent: nat)

  // --- reading ---

  lemma ChainInHeap(g: Geo, v: Vol, first: nat)
    requires Shape(g, v)
    ensures InHeap(v.heap, Chain(g, v, first), g.bpc)
  {
    var chain := Chain(g, v, first);
    forall i | 0 <= i < |chain| ensures chain[i] < |v.heap| && |v.heap[chain[i]]| == g.bpc {
      assert chain[i] in chain;
    }
  }

  /** `read_chain`. */
  function ReadChain(g: Geo, v: Vol, first: nat): (b: seq<byte>)
    requires Shape(g, v)
    ensures |b| == Span(|Chain(g, v, first)|, g.bpc)
  {
    ChainInHeap(g, v, first);
    Flat(v.heap, Chain(g, v, first), g.bpc)
  }

  /** `read_extent` of the up-case table. */
  function UpTable(g: Geo, v: Vol): (t: Option<seq<byte>>)
    requires Shape(g, v)
  {
    if g.upcase.None? then None
    else if g.upcase.value.first < 2 || g.upcase.value.len == 0 then Some([])
    else
      var b := ReadChain(g, v, g.upcase.value.first);
      Some(b[..Min(g.upcase.value.len, |b|)])
  }

  function Entries(g: Geo, v: Vol, dir: nat): seq<DirEntry>
    requires Shape(g, v)
  {
    Parse(ReadChain(g, v, dir))
  }

  function RootFound(g: Geo): Found {
    Found(DirEntry("", g.root, 0, true, 0, 0), 0)
  }

  function ResolveFrom(g: Geo, v: Vol, comps: seq<string>, dir: nat): (r: Option<Found>)
    requires Shape(g, v) && comps != []
    decreases |comps|
  {
    var es := Entries(g, v, dir);
    var ix := FindIx(UpTable(g, v), es, comps[0]);
    if ix.None? then None
    else if |comps| == 1 then Some(Found(es[ix.value], dir))
    else if !es[ix.value].isDir then None
    else ResolveFrom(g, v, comps[1..], es[ix.value].first)
  }

  /** `resolve_path`, on the components of the path. */
  function Resolve(g: Geo, v: Vol, comps: seq<string>): (r: Option<Found>)
    requires Shape(g, v)
  {
    if comps == [] then Some(RootFound(g)) else ResolveFrom(g, v, comps, g.root)
  }

  /** `read_file`. */
  function ReadFile(g: Geo, v: Vol, path: string): (r: Result<seq<byte>, int>)
    requires Shape(g, v)
  {
    var f := Resolve(g, v, Comps(path));
    if f.None? then Err(-2)
    else if f.value.e.isDir then Err(-21)
    else
      var b := ReadChain(g, v, f.value.e.first);
      Ok(b[..Min(f.value.e.size, |b|)])
  }

  /** What `read_dir` shows of a directory. */
  function Listing(es: seq<DirEntry>): (r: seq<(string, bool)>)
    ensures |r| == |es| && forall i :: 0 <= i < |es| ==> r[i] == (es[i].name, es[i].isDir)
  {
    seq(|es|, i requires 0 <= i < |es| => (es[i].name, es[i].isDir))
  }

  /** `read_dir`: the names and kinds of a directory's entries. */
  function ReadDir(g: Geo, v: Vol, path: string): (r: Result<seq<(string, bool)>, int>)
    requires Shape(g, v)
  {
    var f := Resolve(g, v, Comps(path));
    if f.None? then Err(-2)
    else if !f.value.e.isDir then Err(-20)
    else
      Ok(Listing(Entries(g, v, f.value.e.first)))
  }

  // --- editing a directory ---

  /** `dir_entry_abs_off`: the cluster and the byte in it that hold byte off of the directory. */
  function Locate(g: Geo, v: Vol, dir: nat, off: nat): (r: Option<(nat, nat)>)
    requires g.bpc > 0 && Shape(g, v)
    ensures r.Some? ==> 2 <= r.value.0 < g.Max() && r.value.1 < g.bpc
  {
    var chain, ci := Chain(g, v, dir), Quot(off, g.bpc);
    if ci >= |chain| then None
    else assert chain[ci] in chain; Some((chain[ci], Rem(off, g.bpc)))
  }

  lemma PokeShape(g: Geo, v: Vol, c: nat, within: nat, x: seq<byte>)
    requires Shape(g, v) && 2 <= c < g.Max() && within + |x| <= g.bpc
    ensures Shape(g, v.(heap := Poke(v.heap, c, within, x)))
  {
  }

  /** `write_dentries_to_dir`, with the first w bytes already written. */
  function WriteDir(g: Geo, v: Vol, dir: nat, off: nat, d: seq<byte>, w: nat): (r: Op)
    requires g.Valid() && Shape(g, v) && w <= |d|
    ensures Shape(g, r.v)
    decreases |d| - w
  {
    if w == |d| then Op(v, 0)
    else
      var p := Locate(g, v, dir, off + w);
      if p.None? then Op(v, -28)
      else
        var (c, within) := p.value;
        var n := Min(g.bpc - within, |d| - w);
        PokeShape(g, v, c, within, d[w..w + n]);
        WriteDir(g, v.(heap := Poke(v.heap, c, within, d[w..w + n])), dir, off, d, w + n)
  }

  /** Clear the in-use bit of the entry at off, when the chain reaches that far. */
  function MarkOne(g: Geo, v: Vol, dir: nat, off: nat): (r: Vol)
    requires g.Valid() && Shape(g, v)
    ensures Shape(g, r)
  {
    var p := Locate(g, v, dir, off);
    if p.None? then v
    else
      var (c, within) := p.value;
      PokeShape(g, v, c, within, [v.heap[c][within] % 128]);
      v.(heap := Poke(v.heap, c, within, [v.heap[c][within] % 128]))
  }

  /** `mark_dentry_range_deleted`. */
  function MarkDir(g: Geo, v: Vol, dir: nat, off: nat, n: nat): (r: Vol)
    requires g.Valid() && Shape(g, v)
    ensures Shape(g, r)
    decreases n
  {
    if n == 0 then v else MarkDir(g, MarkOne(g, v, dir, off), dir, off + 32, n - 1)
  }

  /** `recompute_entry_checksum`; a set that runs past the chain is left alone. */
  function PutChecksumAt(g: Geo, v: Vol, dir: nat, off: nat, n: nat): (r: Vol)
    requires g.Valid() && Shape(g, v) && Aligned(off)
    ensures Shape(g, r)
  {
    var b := ReadChain(g, v, dir);
    if off + 32 * n > |b| || n == 0 then v
    else
      var ck := Checksum(b[off..off + 32 * n]);
      WriteDir(g, v, dir, off + 2, [ck % 256, ck / 256], 0).v
  }

  /** `update_stream_lengths`. */
  function UpdateLengths(g: Geo, v: Vol, f: Found, size: nat): (r: Vol)
    requires g.Valid() && Shape(g, v) && Aligned(f.e.off)
    ensures Shape(g, r)
  {
    if f.parent < 2 || f.e.sec == 0 then v
    else
      var p := Locate(g, v, f.parent, f.e.off + 32);
      if p.None? || v.heap[p.value.0][p.value.1] != STREAM then v
      else
        var (c, within) := p.value;
        SlotInCluster(f.e.off + 32, g.bpc);
        var v1 := v.(heap := Poke(v.heap, c, within + 8, Le(size, 8)));
        PokeShape(g, v, c, within + 8, Le(size, 8));
        PokeShape(g, v1, c, within + 24, Le(size, 8));
        var v2 := v1.(heap := Poke(v1.heap, c, within + 24, Le(size, 8)));
        PutChecksumAt(g, v2, f.parent, f.e.off, 1 + f.e.sec)
  }

  /** A 32-byte slot never straddles clusters. */
  lemma {:induction false} SlotInCluster(off: nat, bpc: nat)
    requires bpc > 0 && Aligned(bpc) && Aligned(off)
    ensures Rem(off, bpc) + 32 <= bpc && Aligned(Rem(off, bpc))
    decreases off
  {
    hide Rem, Quot;
    if off < bpc {
      QuotRemSmall(off, bpc);
    } else {
      QuotRemSub(off, bpc);
      SlotInCluster(off - bpc, bpc);
    }
  }

  /** `update_dir_size_after_expansion`. */
  function UpdateDirSize(g: Geo, v: Vol, f: Found): (r: Vol)
    requires g.Valid() && Shape(g, v) && Aligned(f.e.off)
    ensures Shape(g, r)
  {
    if f.parent < 2 then v
    else UpdateLengths(g, v, f, Span(|Chain(g, v, f.e.first)|, g.bpc))
  }

  // --- finding room ---

  datatype Room = Room(v: Vol, st: int, off: nat, grown: bool)

  /** `ensure_dentry_run`. */
  function EnsureRun(g: Geo, v: Vol, dir: nat, b: seq<byte>, n: nat): (r: Room)
    requires g.Valid() && Shape(g, v)
    ensures Shape(g, r.v)
  {
    var off := FindFreeRun(b, n);
    if off.Some? then Room(v, 0, off.value, false)
    else
      var eod := FindEod(b, 0);
      var end := eod + 32 * n;
      var extra := if end <= |b| then 0 else DivCeil(end - |b|, g.bpc);
      var a := Append(g, v, dir, extra);
      Room(a.v, a.st, eod, extra > 0)
  }

  /** `choose_dentry_offset`. */
  function ChooseOffset(g: Geo, v: Vol, dir: nat, b: seq<byte>, old': Option<DirEntry>, n: nat): (r: Room)
    requires g.Valid() && Shape(g, v)
    ensures Shape(g, r.v)
  {
    if old'.Some? then
      if 1 + old'.value.sec >= n then Room(v, 0, old'.value.off, false)
      else EnsureRun(g, v, dir, MarkDeleted(b, old'.value.off, 1 + old'.value.sec), n)
    else EnsureRun(g, v, dir, b, n)
  }

  /** The old file's clusters, when there are any. */
  function FreeOld(g: Geo, v: Vol, first: Option<nat>): (r: Vol)
    requires g.Valid() && Shape(g, v)
    ensures Shape(g, r)
  {
    if first.None? || first.value < 2 then v
    else
      ChainClusters(g, v, first.value);
      FreeAll(g, v, Chain(g, v, first.value))
  }

  lemma ChainClusters(g: Geo, v: Vol, first: nat)
    requires Shape(g, v)
    ensures Clusters(g, Chain(g, v, first))
  {
    var chain := Chain(g, v, first);
    forall i | 0 <= i < |chain| ensures 2 <= chain[i] < g.Max() { assert chain[i] in chain; }
  }

  /** The entries of the replaced set that the new one does not cover. */
  function MarkLeftover(g: Geo, v: Vol, dir: nat, e: DirEntry, off: nat, n: nat): (r: Vol)
    requires g.Valid() && Shape(g, v)
    ensures Shape(g, r)
  {
    if off != e.off then MarkDir(g, v, dir, e.off, 1 + e.sec)
    else if 1 + e.sec > n then MarkDir(g, v, dir, e.off + 32 * n, 1 + e.sec - n)
    else v
  }

  /** `insert_or_replace_dentries`. */
  function InsertOrReplace(g: Geo, v: Vol, parent: Found, name: string, d: seq<byte>, oldFirst: Option<nat>): (r: Op)
    requires g.Valid() && Shape(g, v) && Aligned(parent.e.off)
    ensures Shape(g, r.v)
  {
    var dir := parent.e.first;
    var b := ReadChain(g, v, dir);
    var es := Parse(b);
    var ix := FindIx(UpTable(g, v), es, name);
    var ex := if ix.Some? then Some(es[ix.value]) else None;
    if ex.Some? && ex.value.isDir && oldFirst.Some? then Op(v, -21)
    else
      var room := ChooseOffset(g, v, dir, b, ex, |d| / 32);
      if room.st != 0 then Op(room.v, room.st)
      else
        var w := WriteDir(g, room.v, dir, room.off, d, 0);
        if w.st != 0 then w
        else
          var v1 := if ex.Some? then FreeOld(g, MarkLeftover(g, w.v, dir, ex.value, room.off, |d| / 32), oldFirst) else w.v;
          Op(if room.grown then UpdateDirSize(g, v1, parent) else v1, 0)
  }

  // --- files and directories ---

  lemma {:induction false} ResolvedAligned(g: Geo, v: Vol, comps: seq<string>, dir: nat)
    requires Shape(g, v) && comps != []
    ensures var r := ResolveFrom(g, v, comps, dir); r.Some? ==> Aligned(r.value.e.off)
    decreases |comps|
  {
    var es := Entries(g, v, dir);
    var ix := FindIx(UpTable(g, v), es, comps[0]);
    if ix.Some? {
      ParsedAligned(ReadChain(g, v, dir), 0, ix.value);
      if |comps| > 1 { ResolvedAligned(g, v, comps[1..], es[ix.value].first); }
    }
  }

  lemma {:induction false} ParsedAligned(b: seq<byte>, i: nat, k: nat)
    requires Aligned(i) && k < |ParseFrom(b, i)|
    ensures Aligned(ParseFrom(b, i)[k].off)
    decreases |b| - i
  {
    hide EntryAt;
    if b[i] != FILE {
      ParsedAligned(b, i + 32, k);
    } else {
      var e, next := EntryAt(b, i), ScanEnd(b, i + 32, b[i + 1]);
      ScanEndAligned(b, i + 32, b[i + 1]);
      if e.name == [] { ParsedAligned(b, next, k); } else if k > 0 { ParsedAligned(b, next, k - 1); }
    }
  }

  lemma {:induction false} ScanEndAligned(b: seq<byte>, i: nat, n: nat)
    requires Aligned(i)
    ensures Aligned(ScanEnd(b, i, n))
    decreases n
  {
    if n > 0 && i + 32 <= |b| { ScanEndAligned(b, i + 32, n - 1); }
  }

  /** `resolve_parent_dir`. */
  function ResolveDir(g: Geo, v: Vol, path: string): (r: Option<Found>)
    requires Shape(g, v)
    ensures r.Some? ==> Aligned(r.value.e.off) && r.value.e.isDir
  {
    var f := Resolve(g, v, Comps(path));
    if Comps(path) != [] then ResolvedAligned(g, v, Comps(path), g.root); if f.Some? && f.value.e.isDir then f else None
    else f
  }

  /** `write_file`. */
  function WriteFile(g: Geo, v: Vol, path: string, contents: seq<byte>): (r: Op)
    requires g.Valid() && Shape(g, v)
    ensures Shape(g, r.v)
  {
    var (parent, name) := SplitParent(path);
    if NameStatus(name) != 0 then Op(v, NameStatus(name))
    else
      var p := ResolveDir(g, v, parent);
      if p.None? then Op(v, -2)
      else
        var es := Entries(g, v, p.value.e.first);
        var ix := FindIx(UpTable(g, v), es, name);
        if ix.Some? && es[ix.value].isDir then Op(v, -21)
        else
          StoreFile(g, v, p.value, name, contents, if ix.Some? && es[ix.value].first >= 2 then Some(es[ix.value].first) else None)
  }

  /** The second half of `write_file`: allocate, fill, and enter the file, or give the clusters back. */
  function StoreFile(g: Geo, v: Vol, p: Found, name: string, contents: seq<byte>, oldFirst: Option<nat>): (r: Op)
    requires g.Valid() && Shape(g, v) && Aligned(p.e.off) && NameStatus(name) == 0
    ensures Shape(g, r.v)
  {
    var a := AllocMany(g, v, DivCeil(|contents|, g.bpc), []);
    if !a.ok then Op(FreeAll(g, a.v, a.cs), -28)
    else
      var v1 := FillNew(g, a.v, a.cs, contents);
      var first := if a.cs == [] then 0 else a.cs[0];
      var d := EntrySet(Encode(name), NameHash(UpTable(g, v1), Encode(name)), first, |contents|, ATTR_ARCHIVE);
      var r := InsertOrReplace(g, v1, p, name, d, oldFirst);
      if r.st != 0 then Op(FreeAll(g, r.v, a.cs), r.st) else r
  }

  /** The claimed clusters, linked in order and filled with the contents. */
  function FillNew(g: Geo, v: Vol, cs: seq<nat>, contents: seq<byte>): (r: Vol)
    requires Shape(g, v) && Clusters(g, cs)
    ensures Shape(g, r)
  {
    LinkShape(g, v, cs);
    var l := Link(v, cs);
    Vol(l.fat, Fill(l.heap, cs, contents, g.bpc))
  }

  /** `create_dir`. */
  function CreateDir(g: Geo, v: Vol, path: string): (r: Op)
    requires g.Valid() && Shape(g, v)
    ensures Shape(g, r.v)
  {
    var (parent, name) := SplitParent(path);
    if NameStatus(name) != 0 then Op(v, NameStatus(name))
    else
      var p := ResolveDir(g, v, parent);
      if p.None? then Op(v, -2)
      else if FindIx(UpTable(g, v), Entries(g, v, p.value.e.first), name).Some? then Op(v, -17)
      else
        var c := FindFree(g, v, 2);
        if c.None? then Op(v, -28)
        else
          var v1 := Take(g, v, c.value);
          var v2 := Vol(v1.fat[c.value := FAT_EOC], v1.heap[c.value := Zeros(g.bpc)]);
          var d := EntrySet(Encode(name), NameHash(UpTable(g, v2), Encode(name)), c.value, g.bpc, ATTR_DIRECTORY + ATTR_ARCHIVE);
          var r := InsertOrReplace(g, v2, p.value, name, d, None);
          if r.st != 0 then Op(FreeOld(g, r.v, c), r.st) else r
  }
}
