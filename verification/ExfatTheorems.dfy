/** What `write_file` and `create_dir` do to a well-formed volume. */
module ExfatTheorems {
  import opened Bytes
  import opened Utf16
  import opened ExfatChain
  import opened ExfatAlloc
  import opened ExfatSound
  import opened ExfatDentry
  import opened ExfatDir
  import opened ExfatPath
  import opened ExfatFs
  import opened ExfatEdit
  import opened ExfatTree
  import opened ExfatWf
  import opened ExfatOps
  import opened ExfatResolve
  import opened ExfatStage

  lemma KeptUp(g: Geo, v: Vol, v1: Vol, o: Own, o1: Own)
    requires Sound(g, v, o.ch) && Sound(g, v1, o1.ch) && MetaOk(g, o) && MetaOk(g, o1) && Kept(g, v, v1, o, o1)
    ensures g.Valid() && Shape(g, v) && Shape(g, v1) && UpTable(g, v1) == UpTable(g, v)
  {
    hide Sound, SameOn, UpTable, Shape;
    SoundShape(g, v, o.ch);
    SoundShape(g, v1, o1.ch);
    if HasTable(g) {
      DirNotMeta(g, o, g.root);
      DirNotMeta(g, o1, g.root);
      assert g.upcase.value.first in Meta(g);
    }
    UpTableSame(g, v, v1, o.ch, o1.ch);
  }

  // --- the resolved parent directory ---

  lemma ParentFound(g: Geo, v: Vol, o: Own, pend: set<nat>, path: string)
    requires g.Valid() && Shape(g, v) && ResolveDir(g, v, path).Some? && Placed(g, v, o) && Wf(g, v, o, pend)
    ensures var f := ResolveDir(g, v, path).value; FoundIn(g, Table(g, v, o), f) && f.e.isDir && Aligned(f.e.off) && f.e.first in o.depth
  {
    hide Wf, Placed, Table, Shape, UpTable, RT;
    RootIn(g, v, o, pend);
    if Comps(path) != [] {
      ResolveIsRT(g, v, o, pend, Comps(path), g.root);
      RTFound(g, Table(g, v, o), UpTable(g, v), Comps(path), g.root);
    }
    FoundDir(g, v, o, pend, ResolveDir(g, v, path).value);
  }

  lemma RootIn(g: Geo, v: Vol, o: Own, pend: set<nat>)
    requires Wf(g, v, o, pend)
    ensures g.root in o.depth
  {
    hide Sound, DirsOk, TreeOk, Placed;
  }

  lemma FoundStays(g: Geo, t: Tab, t': Tab, f: Found)
    requires FoundIn(g, t, f) && t.Keys <= t'.Keys && forall d :: d in t ==> t'[d] == t[d]
    ensures FoundIn(g, t', f)
  {
  }

  // --- entry attributes ---

  lemma AttrBits()
    ensures !HasDirAttr(ATTR_ARCHIVE) && HasDirAttr(ATTR_DIRECTORY + ATTR_ARCHIVE)
    ensures ATTR_ARCHIVE < Pow256(2) && ATTR_DIRECTORY + ATTR_ARCHIVE < Pow256(2)
  {
    Pow256Values();
    assert Bit(32, 4) == Bit(16, 3) == Bit(8, 2) == Bit(4, 1) == Bit(2, 0);
    assert Bit(48, 4) == Bit(24, 3) == Bit(12, 2) == Bit(6, 1) == Bit(3, 0);
  }

  function FileSet(g: Geo, v: Vol, name: string, first: nat, size: nat): NewSet
    requires Shape(g, v)
  {
    NewSet(name, NameHash(UpTable(g, v), Encode(name)), first, size, ATTR_ARCHIVE)
  }

  /** A first cluster fits its 32-bit field. */
  lemma FirstFits(g: Geo, c: nat)
    requires g.Valid() && c < g.Max()
    ensures c < Pow256(4)
  {
    Pow256Values();
  }

  // --- the effect of a successful operation ---

  /** The listing gained one item, or had the item of an equal name replaced. */
  ghost predicate ListEdit(up: Up, es: seq<DirEntry>, es': seq<DirEntry>, e: DirEntry) {
    var l, l', x := Listing(es), Listing(es'), (e.name, e.isDir);
    var ix := FindIx(up, es, e.name);
    if ix.Some? then l' == l[ix.value := x] else exists k :: 0 <= k <= |l| && l' == l[..k] + [x] + l[k..]
  }

  lemma SimListing(es: seq<DirEntry>, es': seq<DirEntry>)
    requires SimList(es, es')
    ensures Listing(es') == Listing(es)
  {
  }

  lemma InsertListing(up: Up, es: seq<DirEntry>, es': seq<DirEntry>, k: nat, e: DirEntry)
    requires k <= |es| && FindIx(up, es, e.name).None? && SimList(es[..k] + [e] + es[k..], es')
    ensures ListEdit(up, es, es', e)
  {
    hide FindIx, SimList;
    SimListing(es[..k] + [e] + es[k..], es');
    var l := Listing(es);
    assert Listing(es[..k] + [e] + es[k..]) == l[..k] + [(e.name, e.isDir)] + l[k..];
  }

  lemma ReplaceListing(up: Up, es: seq<DirEntry>, k: nat, e: DirEntry)
    requires FindIx(up, es, e.name) == Some(k)
    ensures ListEdit(up, es, es[k := e], e)
  {
    hide FindIx;
    assert Listing(es[k := e]) == Listing(es)[k := (e.name, e.isDir)];
  }

  lemma InsTableAt(t: Tab, t': Tab, p: nat, k: nat, e: DirEntry)
    requires p in t && k <= |t[p]| && SimTable(InsTable(t, p, k, e), t')
    ensures p in t' && SimList(t[p][..k] + [e] + t[p][k..], t'[p])
  {
  }

  /** The tree after writing the file e under `name` in directory p. */
  ghost predicate Written(g: Geo, v: Vol, v1: Vol, o: Own, o1: Own, p: nat, e: DirEntry)
    requires Placed(g, v, o) && Shape(g, v)
  {
    && Wf(g, v1, o1, {}) && Placed(g, v1, o1) && Kept(g, v, v1, o, o1) && o1.depth == o.depth
    && TreeEdit(UpTable(g, v), Table(g, v, o), Table(g, v1, o1), p, e, e.name)
    && p in o.depth && ListEdit(UpTable(g, v), Table(g, v, o)[p], Table(g, v1, o1)[p], e)
  }

  lemma NewFileWritten(g: Geo, v: Vol, v1: Vol, v2: Vol, o: Own, o1: Own, o2: Own, pend: set<nat>, p: nat, k: nat, e: DirEntry)
    requires Shape(g, v) && Placed(g, v, o) && Placed(g, v1, o1) && p in o.depth && o1.depth == o.depth
    requires Table(g, v1, o1) == Table(g, v, o) && Kept(g, v, v1, o, o1) && pend - {e.first} == {}
    requires Inserted(g, v1, v2, o1, o2, pend, p, k, e) && FindIx(UpTable(g, v), Table(g, v, o)[p], e.name).None? && !e.isDir
    ensures Written(g, v, v2, o, o2, p, e)
  {
    hide Wf, Placed, Table, Kept, InsTable, SimTable, TreeEdit, UpTable, FindIx, Shape, ListEdit, SimList;
    KeptTrans(g, v, v1, v2, o, o1, o2);
    InsTableAt(Table(g, v, o), Table(g, v2, o2), p, k, e);
    InsertListing(UpTable(g, v), Table(g, v, o)[p], Table(g, v2, o2)[p], k, e);
    InsertEdit(UpTable(g, v), Table(g, v, o), Table(g, v2, o2), p, k, e);
  }

  lemma OldFileWritten(g: Geo, v: Vol, v1: Vol, v2: Vol, o: Own, o1: Own, pend: set<nat>, p: nat, k: nat, e: DirEntry)
    requires Shape(g, v) && Placed(g, v, o) && Placed(g, v1, o1) && p in o.depth && o1.depth == o.depth
    requires Table(g, v1, o1) == Table(g, v, o) && Kept(g, v, v1, o, o1) && pend - {e.first} == {}
    requires Replaced(g, v1, v2, o1, pend, p, k, e) && !e.isDir
    requires FindIx(UpTable(g, v), Table(g, v, o)[p], e.name) == Some(k) && !Table(g, v, o)[p][k].isDir
    ensures Written(g, v, v2, o, Without(o1, Table(g, v, o)[p][k]), p, e)
  {
    hide Wf, Placed, Table, Kept, TreeEdit, UpTable, FindIx, Shape, ListEdit;
    var o2 := Without(o1, Table(g, v, o)[p][k]);
    KeptTrans(g, v, v1, v2, o, o1, o2);
    ReplaceListing(UpTable(g, v), Table(g, v, o)[p], k, e);
    ReplaceEdit(UpTable(g, v), Table(g, v, o), p, k, e);
  }

  /** The volume before the new entry is written: same tree, possibly one pending chain. */
  ghost predicate Ready(g: Geo, v: Vol, v1: Vol, o: Own, o1: Own, pend: set<nat>)
    requires Placed(g, v, o)
  {
    && Wf(g, v1, o1, pend) && Placed(g, v1, o1) && o1.depth == o.depth
    && Table(g, v1, o1) == Table(g, v, o) && Kept(g, v, v1, o, o1)
  }

  lemma ReadyFacts(g: Geo, v: Vol, v1: Vol, o: Own, o1: Own, pend: set<nat>, p: nat)
    requires Placed(g, v, o) && Wf(g, v, o, {}) && Ready(g, v, v1, o, o1, pend) && p in o.depth
    ensures g.Valid() && Shape(g, v) && Shape(g, v1) && UpTable(g, v1) == UpTable(g, v)
    ensures Entries(g, v1, p) == Table(g, v, o)[p] == Entries(g, v, p) && Placed(g, v1, o1)
  {
    hide Wf, Placed, Table, Kept, Sound, MetaOk, DirsOk, TreeOk, UpTable, Shape, Parse, ReadChain, DirBytes;
    WfParts(g, v, o, {});
    WfParts(g, v1, o1, pend);
    KeptUp(g, v, v1, o, o1);
    DirChain(g, v, o, p);
    DirChain(g, v1, o1, p);
    WfDirAt(g, v, o, p);
    WfDirAt(g, v1, o1, p);
  }

  /** The pending chain is still there, with its bytes. */
  ghost predicate DataKept(v1: Vol, v2: Vol, o1: Own, o2: Own, first: nat) {
    first in o1.ch ==> first in o2.ch && o2.ch[first] == o1.ch[first] && SameOn(v1, v2, o1.ch[first])
  }

  lemma PendKept(g: Geo, v1: Vol, v2: Vol, o1: Own, o2: Own, first: nat)
    requires Kept(g, v1, v2, o1, o2) && MetaOk(g, o1) && first !in Meta(g) && first !in o1.depth && (first in o1.ch ==> first in o2.ch)
    ensures DataKept(v1, v2, o1, o2, first)
  {
    hide SameOn;
    NotMetaBitmap(g, first);
  }

  lemma OwnsNotDir(g: Geo, o: Own, pend: set<nat>, p: nat, ns: NewSet)
    requires Owns(g, o, pend, p, ns) && !HasDirAttr(ns.attrs) && ns.first in pend
    ensures ns.first !in Meta(g) && ns.first !in o.depth && ns.first in o.ch
  {
  }

  /** What writing the entry achieves. */
  ghost predicate PutOk(g: Geo, v: Vol, v1: Vol, v2: Vol, o: Own, o1: Own, o2: Own, p: nat, ns: NewSet, off: nat)
    requires Placed(g, v, o) && Shape(g, v)
  {
    Written(g, v, v2, o, o2, p, ns.Entry(off)) && (ns.first >= 2 ==> DataKept(v1, v2, o1, o2, ns.first))
  }

  lemma PutNewFile(g: Geo, v: Vol, v1: Vol, o: Own, o1: Own, pend: set<nat>, f: Found, ns: NewSet, oldFirst: Option<nat>) returns (o2: Own, off: nat)
    requires g.Valid() && Shape(g, v) && Shape(g, v1) && Placed(g, v, o) && Placed(g, v1, o1)
    requires ns.Valid() && !HasDirAttr(ns.attrs) && pend == (if ns.first >= 2 then {ns.first} else {}) && f.e.first in o.depth
    requires FoundIn(g, Table(g, v, o), f) && f.e.isDir && Aligned(f.e.off) && Owns(g, o1, pend, f.e.first, ns)
    requires Wf(g, v, o, {}) && Ready(g, v, v1, o, o1, pend) && FindIx(UpTable(g, v), Table(g, v, o)[f.e.first], ns.name).None?
    ensures var r := InsertOrReplace(g, v1, f, ns.name, ns.Data(), oldFirst);
      if r.st == 0 then PutOk(g, v, v1, r.v, o, o1, o2, f.e.first, ns, off)
      else r.st == -28 && Restored(g, v1, r.v, o1.ch) && Sound(g, r.v, o1.ch)
  {
    hide Wf, Placed, Table, Kept, FoundIn, Owns, InsertOrReplace, Restored, Sound, UpTable, FindIx, Shape, Written, Encode, EntrySet, Entries,
      InsTable, SimTable, MetaOk, DirsOk, TreeOk, DataKept;
    var p := f.e.first;
    ReadyFacts(g, v, v1, o, o1, pend, p);
    WfParts(g, v1, o1, pend);
    var k;
    o2, k, off := InsertNew(g, v1, o1, pend, f, ns, oldFirst);
    var r := InsertOrReplace(g, v1, f, ns.name, ns.Data(), oldFirst);
    if r.st == 0 {
      NewFileWritten(g, v, v1, r.v, o, o1, o2, pend, p, k, ns.Entry(off));
      if ns.first >= 2 {
        OwnsNotDir(g, o1, pend, p, ns);
        PendKept(g, v1, r.v, o1, o2, ns.first);
      }
    }
  }

  lemma PutOldFile(g: Geo, v: Vol, v1: Vol, o: Own, o1: Own, pend: set<nat>, f: Found, ns: NewSet, k: nat)
    requires g.Valid() && Shape(g, v) && Shape(g, v1) && Placed(g, v, o) && Placed(g, v1, o1)
    requires ns.Valid() && !HasDirAttr(ns.attrs) && pend == (if ns.first >= 2 then {ns.first} else {}) && f.e.first in o.depth
    requires Aligned(f.e.off) && Owns(g, o1, pend, f.e.first, ns)
    requires Wf(g, v, o, {}) && Ready(g, v, v1, o, o1, pend)
    requires FindIx(UpTable(g, v), Table(g, v, o)[f.e.first], ns.name) == Some(k) && !Table(g, v, o)[f.e.first][k].isDir
    ensures var old' := Table(g, v, o)[f.e.first][k];
      var r := InsertOrReplace(g, v1, f, ns.name, ns.Data(), if old'.first >= 2 then Some(old'.first) else None);
      r.st == 0 && PutOk(g, v, v1, r.v, o, o1, Without(o1, old'), f.e.first, ns, old'.off)
  {
    hide Wf, Placed, Table, Kept, Owns, InsertOrReplace, Sound, UpTable, FindIx, Shape, Written, Encode, EntrySet, Entries,
      MetaOk, DirsOk, TreeOk, DataKept;
    var p := f.e.first;
    ReadyFacts(g, v, v1, o, o1, pend, p);
    WfParts(g, v1, o1, pend);
    ReplaceOld(g, v1, o1, pend, f, ns, k);
    var old' := Table(g, v, o)[p][k];
    var r := InsertOrReplace(g, v1, f, ns.name, ns.Data(), if old'.first >= 2 then Some(old'.first) else None);
    OldFileWritten(g, v, v1, r.v, o, o1, pend, p, k, ns.Entry(old'.off));
    if ns.first >= 2 {
      OwnsNotDir(g, o1, pend, p, ns);
      if old'.first >= 2 { OldFile(g, v1, o1, pend, p, k); }
      PendKept(g, v1, r.v, o1, Without(o1, old'), ns.first);
    }
  }

  // --- write_file ---

  function OldFirst(es: seq<DirEntry>, ix: Option<nat>): Option<nat>
    requires ix.Some? ==> ix.value < |es|
  {
    if ix.Some? && es[ix.value].first >= 2 then Some(es[ix.value].first) else None
  }

  /** Past the checks of `write_file`. */
  ghost predicate CanWrite(g: Geo, v: Vol, path: string)
    requires Shape(g, v)
  {
    var (parent, name) := SplitParent(path);
    && NameStatus(name) == 0 && ResolveDir(g, v, parent).Some?
    && var es := Entries(g, v, ResolveDir(g, v, parent).value.e.first); var ix := FindIx(UpTable(g, v), es, name);
      ix.Some? ==> !es[ix.value].isDir
  }

  lemma WriteFileUnfold(g: Geo, v: Vol, path: string, contents: seq<byte>)
    requires g.Valid() && Shape(g, v) && CanWrite(g, v, path)
    ensures var (parent, name) := SplitParent(path); var f := ResolveDir(g, v, parent).value;
      var es := Entries(g, v, f.e.first); var ix := FindIx(UpTable(g, v), es, name);
      var a := AllocMany(g, v, DivCeil(|contents|, g.bpc), []);
      if !a.ok then WriteFile(g, v, path, contents) == Op(FreeAll(g, a.v, a.cs), -28)
      else
        var v1 := FillNew(g, a.v, a.cs, contents);
        var ns := FileSet(g, v1, name, if a.cs == [] then 0 else a.cs[0], |contents|);
        var r := InsertOrReplace(g, v1, f, name, ns.Data(), OldFirst(es, ix));
        WriteFile(g, v, path, contents) == if r.st != 0 then Op(FreeAll(g, r.v, a.cs), r.st) else r
  {
    hide Shape, AllocMany, FreeAll, FillNew, InsertOrReplace, ResolveDir, Entries, UpTable, FindIx, SplitParent, NameHash, EntrySet, Encode, NamesEqual;
  }

  lemma WriteFileRejects(g: Geo, v: Vol, path: string, contents: seq<byte>)
    requires g.Valid() && Shape(g, v) && !CanWrite(g, v, path)
    ensures WriteFile(g, v, path, contents).v == v && WriteFile(g, v, path, contents).st != 0
  {
    hide Shape, AllocMany, FreeAll, FillNew, InsertOrReplace, ResolveDir, Entries, UpTable, FindIx, SplitParent, NameHash, EntrySet, Encode, NamesEqual;
  }

  lemma StagedReady(g: Geo, v: Vol, v1: Vol, o: Own, cs: seq<nat>, p: nat, ns: NewSet)
    requires Placed(g, v, o) && MetaOk(g, o) && Staged(g, v, v1, o, cs) && ns.first == cs[0] && !HasDirAttr(ns.attrs) && cs[0] >= 2
    ensures Ready(g, v, v1, o, Own(o.ch[cs[0] := cs], o.depth), {cs[0]}) && Owns(g, Own(o.ch[cs[0] := cs], o.depth), {cs[0]}, p, ns)
  {
    hide Wf, Table, Kept, Taken, BmSeq;
  }

  lemma NothingReady(g: Geo, v: Vol, o: Own, p: nat, ns: NewSet)
    requires Placed(g, v, o) && Wf(g, v, o, {}) && ns.first == 0 && !HasDirAttr(ns.attrs)
    ensures Ready(g, v, v, o, o, {}) && Owns(g, o, {}, p, ns)
  {
    hide Wf, Table, Sound, DirsOk, TreeOk, MetaOk;
    WfParts(g, v, o, {});
    forall j | j in o.ch ensures SameOn(v, v, o.ch[j]) { ReflSame(g, v, o.ch, j); }
    KeptSame(g, v, o);
  }

  lemma ReflSame(g: Geo, v: Vol, ch: Chains, k: nat)
    requires Sound(g, v, ch) && k in ch
    ensures SameOn(v, v, ch[k])
  {
    hide Sound, InHeap;
    InUse(g, v, ch, k);
  }

  lemma InUse(g: Geo, v: Vol, ch: Chains, k: nat)
    requires Sound(g, v, ch) && k in ch
    ensures forall c :: c in ch[k] ==> 2 <= c < |v.heap|
  {
    hide ClusterIx, ByteIx, FBit, FatExact, BitmapExact, Disjoint, Owned;
  }

  lemma NoClusters(g: Geo, v: Vol, contents: seq<byte>)
    requires g.Valid() && Shape(g, v) && contents == []
    ensures DivCeil(|contents|, g.bpc) == 0 && AllocMany(g, v, 0, []) == Alloced(v, [], true) && FillNew(g, v, [], contents) == v
  {
    hide DivCeil, Shape;
    CeilOfZero(g.bpc);
  }

  lemma CeilOfZero(bpc: nat)
    requires bpc > 0
    ensures DivCeil(0, bpc) == 0
  {
    QuotRemSmall(bpc - 1, bpc);
  }

  /** The entry's chain holds the contents. */
  ghost predicate Holds(g: Geo, v: Vol, o: Own, first: nat, contents: seq<byte>) {
    if first < 2 then contents == []
    else first in o.ch && InHeap(v.heap, o.ch[first], g.bpc) && contents <= Flat(v.heap, o.ch[first], g.bpc)
  }

  lemma DataHolds(g: Geo, v1: Vol, v2: Vol, o1: Own, o2: Own, first: nat, contents: seq<byte>)
    requires DataKept(v1, v2, o1, o2, first) && Holds(g, v1, o1, first, contents)
    ensures Holds(g, v2, o2, first, contents)
  {
    hide SameOn, Flat, InHeap;
    if first >= 2 { FlatSame(g, v1, v2, o1.ch[first]); }
  }

  lemma FillHolds(g: Geo, v: Vol, o: Own, n: nat, contents: seq<byte>)
    requires Sound(g, v, o.ch) && n > 0 && g.Valid() && Shape(g, v) && AllocMany(g, v, n, []).ok && |contents| <= Span(n, g.bpc)
    ensures var a := AllocMany(g, v, n, []);
      && a.cs != [] && a.cs[0] >= 2 && a.cs[0] < g.Max()
      && Holds(g, FillNew(g, a.v, a.cs, contents), Own(o.ch[a.cs[0] := a.cs], o.depth), a.cs[0], contents)
  {
    hide Sound, AllocMany, FillNew, Flat, InHeap, Shape, Span;
    FillBytes(g, v, o.ch, n, contents);
  }

  /** A written file: its entry in the tree and its bytes in the chain. */
  ghost predicate FileDone(g: Geo, v: Vol, v1: Vol, o: Own, o1: Own, p: nat, e: DirEntry, contents: seq<byte>)
    requires Placed(g, v, o) && Shape(g, v)
  {
    Written(g, v, v1, o, o1, p, e) && !e.isDir && e.size == |contents| && Holds(g, v1, o1, e.first, contents)
  }

  /** Writing the entry of a file whose data is already in place. */
  lemma PutFile(g: Geo, v: Vol, v1: Vol, o: Own, o1: Own, pend: set<nat>, f: Found, ns: NewSet, contents: seq<byte>, es: seq<DirEntry>) returns (o2: Own, off: nat)
    requires g.Valid() && Shape(g, v) && Shape(g, v1) && Placed(g, v, o) && Placed(g, v1, o1)
    requires ns.Valid() && ns.attrs == ATTR_ARCHIVE && pend == (if ns.first >= 2 then {ns.first} else {}) && f.e.first in o.depth && ns.size == |contents|
    requires FoundIn(g, Table(g, v, o), f) && f.e.isDir && Aligned(f.e.off) && Owns(g, o1, pend, f.e.first, ns) && es == Table(g, v, o)[f.e.first]
    requires Wf(g, v, o, {}) && Ready(g, v, v1, o, o1, pend) && Holds(g, v1, o1, ns.first, contents)
    requires FindIx(UpTable(g, v), es, ns.name).Some? ==> !es[FindIx(UpTable(g, v), es, ns.name).value].isDir
    ensures var r := InsertOrReplace(g, v1, f, ns.name, ns.Data(), OldFirst(es, FindIx(UpTable(g, v), es, ns.name)));
      if r.st == 0 then FileDone(g, v, r.v, o, o2, f.e.first, ns.Entry(off), contents)
      else r.st == -28 && Restored(g, v1, r.v, o1.ch) && Sound(g, r.v, o1.ch)
  {
    hide Wf, Placed, Table, FoundIn, Owns, InsertOrReplace, Restored, Sound, UpTable, FindIx, Shape, Written, Encode, EntrySet, Ready, DataKept, Flat, InHeap;
    AttrBits();
    var ix := FindIx(UpTable(g, v), es, ns.name);
    var oldFirst := OldFirst(es, ix);
    if ix.None? {
      o2, off := PutNewFile(g, v, v1, o, o1, pend, f, ns, oldFirst);
    } else {
      PutOldFile(g, v, v1, o, o1, pend, f, ns, ix.value);
      o2, off := Without(o1, es[ix.value]), es[ix.value].off;
    }
    var r := InsertOrReplace(g, v1, f, ns.name, ns.Data(), oldFirst);
    if r.st == 0 && ns.first >= 2 { DataHolds(g, v1, r.v, o1, o2, ns.first, contents); }
  }

  lemma WriteEmpty(g: Geo, v: Vol, o: Own, path: string) returns (o2: Own, e: DirEntry)
    requires g.Valid() && Shape(g, v) && CanWrite(g, v, path) && Placed(g, v, o) && Wf(g, v, o, {})
    ensures var (parent, name) := SplitParent(path); var r := WriteFile(g, v, path, []);
      if r.st == 0 then e.name == name && FileDone(g, v, r.v, o, o2, ResolveDir(g, v, parent).value.e.first, e, [])
      else r.st == -28 && Restored(g, v, r.v, o.ch) && Sound(g, r.v, o.ch)
  {
    hide Wf, Placed, Table, Sound, UpTable, Shape, FoundIn, Owns, Ready, Restored, InsertOrReplace, AllocMany, FillNew, FileDone, WriteFile, Encode, ResolveDir,
      SplitParent, FindIx, Entries, DivCeil, NameHash, EntrySet;
    var (parent, name) := SplitParent(path);
    var f := ResolveDir(g, v, parent).value;
    ParentFound(g, v, o, {}, parent);
    WriteFileUnfold(g, v, path, []);
    NoClusters(g, v, []);
    Pow256Values();
    AttrBits();
    var ns := FileSet(g, v, name, 0, 0);
    NothingReady(g, v, o, f.e.first, ns);
    ReadyFacts(g, v, v, o, o, {}, f.e.first);
    var es := Entries(g, v, f.e.first);
    var off;
    o2, off := PutFile(g, v, v, o, o, {}, f, ns, [], es);
    e := ns.Entry(off);
  }

  lemma WriteData(g: Geo, v: Vol, o: Own, path: string, contents: seq<byte>) returns (o2: Own, e: DirEntry)
    requires g.Valid() && Shape(g, v) && CanWrite(g, v, path) && contents != [] && |contents| < Pow256(8)
    requires AllocMany(g, v, DivCeil(|contents|, g.bpc), []).ok && Placed(g, v, o) && Wf(g, v, o, {})
    ensures var (parent, name) := SplitParent(path); var r := WriteFile(g, v, path, contents);
      if r.st == 0 then e.name == name && FileDone(g, v, r.v, o, o2, ResolveDir(g, v, parent).value.e.first, e, contents)
      else r.st == -28 && Restored(g, v, r.v, o.ch) && Sound(g, r.v, o.ch)
  {
    hide Wf, Placed, Table, Sound, UpTable, Shape, FoundIn, Owns, Ready, Restored, InsertOrReplace, AllocMany, FillNew, FileDone, WriteFile, Encode, ResolveDir,
      SplitParent, FindIx, Entries, DivCeil, NameHash, EntrySet, Taken, BmSeq, FreeAll, Kept, Holds, MetaOk, DirsOk, TreeOk, Span;
    WfParts(g, v, o, {});
    var (parent, name) := SplitParent(path);
    var f := ResolveDir(g, v, parent).value;
    ParentFound(g, v, o, {}, parent);
    WriteFileUnfold(g, v, path, contents);
    var n := DivCeil(|contents|, g.bpc);
    CeilCovers(|contents|, g.bpc);
    FillStage(g, v, o, n, contents);
    FillHolds(g, v, o, n, contents);
    var a := AllocMany(g, v, n, []);
    var v1, o1 := FillNew(g, a.v, a.cs, contents), Own(o.ch[a.cs[0] := a.cs], o.depth);
    AttrBits();
    FirstFits(g, a.cs[0]);
    var ns := FileSet(g, v1, name, a.cs[0], |contents|);
    StagedReady(g, v, v1, o, a.cs, f.e.first, ns);
    ReadyFacts(g, v, v1, o, o1, {a.cs[0]}, f.e.first);
    var es := Entries(g, v, f.e.first);
    var off;
    o2, off := PutFile(g, v, v1, o, o1, {a.cs[0]}, f, ns, contents, es);
    e := ns.Entry(off);
    var r := InsertOrReplace(g, v1, f, name, ns.Data(), OldFirst(es, FindIx(UpTable(g, v), es, name)));
    if r.st != 0 {
      WfParts(g, v1, o1, {a.cs[0]});
      RollbackAll(g, v, v1, r.v, o.ch, a.cs);
    }
  }

  lemma RestoredSelf(g: Geo, v: Vol, ch: Chains)
    requires Sound(g, v, ch)
    ensures Restored(g, v, v, ch)
  {
    hide Owned, ChainsOk, Disjoint, FatExact, BitmapExact;
  }

  lemma WriteNoSpace(g: Geo, v: Vol, o: Own, path: string, contents: seq<byte>)
    requires g.Valid() && Shape(g, v) && CanWrite(g, v, path) && !AllocMany(g, v, DivCeil(|contents|, g.bpc), []).ok && Sound(g, v, o.ch)
    ensures var r := WriteFile(g, v, path, contents); r.st == -28 && Restored(g, v, r.v, o.ch) && Sound(g, r.v, o.ch)
  {
    hide Sound, Restored, AllocMany, FreeAll, FillNew, InsertOrReplace, WriteFile, UpTable, FindIx, Entries, DivCeil, Shape, CanWrite, Taken, BmSeq, Owned, ResolveDir, SplitParent, NameHash, EntrySet;
    var n := DivCeil(|contents|, g.bpc);
    WriteFileUnfold(g, v, path, contents);
    AllocSound(g, v, o.ch, n);
    NoneDirty(g, o.ch);
    RollbackSound(g, v, AllocMany(g, v, n, []).v, o.ch, AllocMany(g, v, n, []).cs, {});
  }

  lemma NoneDirty(g: Geo, ch: Chains)
    ensures forall c: nat :: c in {} ==> !Owned(ch, c)
  {
  }

  /** `write_file`: the file is in the tree with its contents, or the volume is restored. */
  lemma WriteFileEffect(g: Geo, v: Vol, o: Own, path: string, contents: seq<byte>) returns (o2: Own, e: DirEntry)
    requires g.Valid() && Shape(g, v) && |contents| < Pow256(8) && Placed(g, v, o) && Wf(g, v, o, {})
    ensures var (parent, name) := SplitParent(path); var r := WriteFile(g, v, path, contents);
      if r.st == 0 then
        CanWrite(g, v, path) && e.name == name && FileDone(g, v, r.v, o, o2, ResolveDir(g, v, parent).value.e.first, e, contents)
      else Restored(g, v, r.v, o.ch) && Sound(g, r.v, o.ch)
  {
    hide Wf, Placed, Sound, Shape, Restored, AllocMany, FileDone, WriteFile, ResolveDir, SplitParent, DivCeil, CanWrite, MetaOk, DirsOk, TreeOk, Table, Pow256;
    WfParts(g, v, o, {});
    o2, e := o, DirEntry("", 0, 0, false, 0, 0);
    if !CanWrite(g, v, path) {
      WriteFileRejects(g, v, path, contents);
      RestoredSelf(g, v, o.ch);
    } else if contents == [] {
      o2, e := WriteEmpty(g, v, o, path);
    } else if AllocMany(g, v, DivCeil(|contents|, g.bpc), []).ok {
      o2, e := WriteData(g, v, o, path, contents);
    } else {
      WriteNoSpace(g, v, o, path, contents);
    }
  }

  // --- reading afterwards ---

  lemma ReadSame(g: Geo, v: Vol, v1: Vol, o: Own, o1: Own, first: nat)
    requires Sound(g, v, o.ch) && Sound(g, v1, o1.ch) && Kept(g, v, v1, o, o1)
    requires first >= 2 ==> first in o.ch && first in o1.ch && first !in o.depth && (g.bitmap.Some? ==> first != g.bitmap.value.first)
    ensures Shape(g, v) && Shape(g, v1) && ReadChain(g, v1, first) == ReadChain(g, v, first)
  {
    hide Sound, SameOn, Flat, InHeap;
    SoundShape(g, v, o.ch);
    SoundShape(g, v1, o1.ch);
    if first >= 2 {
      ReadChainIs(g, v, o.ch, first);
      ReadChainIs(g, v1, o1.ch, first);
      FlatSame(g, v, v1, o.ch[first]);
    } else {
      NoChain(g, v, first);
      NoChain(g, v1, first);
    }
  }

  lemma NoChain(g: Geo, v: Vol, first: nat)
    requires Shape(g, v) && first < 2
    ensures ReadChain(g, v, first) == []
  {
  }

  lemma FileInTree(g: Geo, v: Vol, o: Own, f: Found)
    requires Placed(g, v, o) && Wf(g, v, o, {}) && FoundIn(g, Table(g, v, o), f) && !f.e.isDir && f.e.first >= 2
    ensures f.e.first in o.ch && f.e.first !in o.depth && f.e.first !in Meta(g)
  {
    hide Wf, Sound, DirsOk, MetaOk, TreeOk, Table, Placed, Meta;
    var t := Table(g, v, o);
    var i :| 0 <= i < |t[f.parent]| && t[f.parent][i] == f.e;
    OldFile(g, v, o, {}, f.parent, i);
  }

  /** Reading the found file. */
  function ReadFound(g: Geo, v: Vol, f: Option<Found>): Result<seq<byte>, int>
    requires Shape(g, v)
  {
    if f.None? then Err(-2)
    else if f.value.e.isDir then Err(-21)
    else (var b := ReadChain(g, v, f.value.e.first); Ok(b[..Min(f.value.e.size, |b|)]))
  }

  lemma OtherRead(g: Geo, v: Vol, v1: Vol, o: Own, o1: Own, a: Option<Found>, b: Option<Found>)
    requires Placed(g, v, o) && Placed(g, v1, o1) && Shape(g, v) && Shape(g, v1) && SimFound(a, b)
    requires a.Some? ==> FoundIn(g, Table(g, v, o), a.value) && FoundIn(g, Table(g, v1, o1), b.value)
    requires Wf(g, v, o, {}) && Wf(g, v1, o1, {}) && Kept(g, v, v1, o, o1)
    ensures ReadFound(g, v1, b) == ReadFound(g, v, a)
  {
    hide Wf, Placed, Table, Kept, FoundIn, ReadChain, Shape, Sound, MetaOk, DirsOk, TreeOk, Meta;
    WfParts(g, v, o, {});
    WfParts(g, v1, o1, {});
    if a.Some? && !a.value.e.isDir {
      if a.value.e.first >= 2 {
        FileInTree(g, v, o, a.value);
        FileInTree(g, v1, o1, b.value);
        NotMetaBitmap(g, a.value.e.first);
      }
      ReadSame(g, v, v1, o, o1, a.value.e.first);
    }
  }

  lemma HoldsRead(g: Geo, v: Vol, o: Own, e: DirEntry, parent: nat, contents: seq<byte>)
    requires Sound(g, v, o.ch) && Shape(g, v) && !e.isDir && e.size == |contents| && Holds(g, v, o, e.first, contents)
    ensures ReadFound(g, v, Some(Found(e, parent))) == Ok(contents)
  {
    hide Sound, Flat, InHeap, ReadChain, Shape;
    if e.first >= 2 {
      ReadChainIs(g, v, o.ch, e.first);
      var b := ReadChain(g, v, e.first);
      assert contents <= b && b[..|contents|] == contents;
    } else {
      NoChain(g, v, e.first);
    }
  }

  // --- the theorems, path by path ---

  /** The paths name the same entry: they lead to the same directory and end in equal names. */
  ghost predicate SameFile(g: Geo, v: Vol, path: string, q: string)
    requires Shape(g, v)
  {
    var c, (parent, name) := Comps(q), SplitParent(path);
    && c != []
    && var f, h := ResolveDir(g, v, parent), Resolve(g, v, c[..|c| - 1]);
      && f.Some? && h.Some? && h.value.e.isDir && h.value.e.first == f.value.e.first
      && NamesEqual(UpTable(g, v), name, c[|c| - 1])
  }

  lemma {:induction false} HitIs(t: Tab, up: Up, comps: seq<string>, d: nat, p: nat, name: string)
    requires comps != [] && d in t && forall x, i :: x in t && 0 <= i < |t[x]| && t[x][i].isDir ==> t[x][i].first in t
    ensures var n := |comps| - 1;
      Hit(t, up, comps, d, p, name) <==>
        && NamesEqual(up, name, comps[n])
        && (if n == 0 then d == p else var r := RT(t, up, comps[..n], d); r.Some? && r.value.e.isDir && r.value.e.first == p)
    decreases |comps|
  {
    hide NamesEqual, FindIx;
    var n := |comps| - 1;
    if n > 0 {
      var l := Look(up, t[d], comps[0]);
      if l.Some? && l.value.isDir {
        HitIs(t, up, comps[1..], l.value.first, p, name);
        assert comps[..n][1..] == comps[1..][..n - 1];
      }
    }
  }

  lemma TreeClosed(g: Geo, v: Vol, o: Own)
    requires Placed(g, v, o) && Wf(g, v, o, {})
    ensures var t := Table(g, v, o); forall x, i :: x in t && 0 <= i < |t[x]| && t[x][i].isDir ==> t[x][i].first in t
  {
    hide Wf, Placed, Table;
    var t: Tab := Table(g, v, o);
    forall x, i | x in t && 0 <= i < |t[x]| && t[x][i].isDir ensures t[x][i].first in t {
      DirEntryInTree(g, v, o, {}, x, i);
    }
  }

  /** On a well-formed volume, naming the same file is reaching the same place of the tree. */
  lemma SameFileHit(g: Geo, v: Vol, o: Own, path: string, q: string)
    requires g.Valid() && Shape(g, v) && Placed(g, v, o) && Wf(g, v, o, {}) && ResolveDir(g, v, SplitParent(path).0).Some? && Comps(q) != []
    ensures SameFile(g, v, path, q) <==>
      Hit(Table(g, v, o), UpTable(g, v), Comps(q), g.root, ResolveDir(g, v, SplitParent(path).0).value.e.first, SplitParent(path).1)
  {
    hide Wf, Placed, Table, UpTable, Shape, NamesEqual, RT, Hit, ResolveFrom, ResolveDir, SplitParent, Comps;
    var c, n := Comps(q), |Comps(q)| - 1;
    TreeClosed(g, v, o);
    RootIn(g, v, o, {});
    HitIs(Table(g, v, o), UpTable(g, v), c, g.root, ResolveDir(g, v, SplitParent(path).0).value.e.first, SplitParent(path).1);
    if n > 0 {
      ResolveIsRT(g, v, o, {}, c[..n], g.root);
    } else {
      assert c[..n] == [];
    }
  }

  lemma ReadIs(g: Geo, v: Vol, q: string)
    requires Shape(g, v)
    ensures ReadFile(g, v, q) == ReadFound(g, v, Resolve(g, v, Comps(q)))
  {
    hide Shape, ReadChain, Resolve, Comps;
  }

  /** After a successful write, the written path reads as the contents and every other path reads as before. */
  lemma ReadAfterWrite(g: Geo, v: Vol, v1: Vol, o: Own, o1: Own, path: string, e: DirEntry, contents: seq<byte>, q: string)
    requires g.Valid() && Shape(g, v) && Placed(g, v, o) && Wf(g, v, o, {})
    requires ResolveDir(g, v, SplitParent(path).0).Some? && e.name == SplitParent(path).1
    requires FileDone(g, v, v1, o, o1, ResolveDir(g, v, SplitParent(path).0).value.e.first, e, contents)
    ensures Shape(g, v1)
    ensures ReadFile(g, v1, q) == if SameFile(g, v, path, q) then Ok(contents) else ReadFile(g, v, q)
  {
    hide Wf, Placed, Table, UpTable, Shape, NamesEqual, RT, Hit, ResolveFrom, ResolveDir, SplitParent, Comps, Kept, TreeEdit, SameFile, ReadFound, ReadFile, ReadChain,
      Sound, MetaOk, DirsOk, TreeOk, FoundIn, Holds;
    WfParts(g, v, o, {});
    WfParts(g, v1, o1, {});
    KeptUp(g, v, v1, o, o1);
    RootIn(g, v, o, {});
    ReadIs(g, v, q);
    ReadIs(g, v1, q);
    var c, up, t, t1 := Comps(q), UpTable(g, v), Table(g, v, o), Table(g, v1, o1);
    var p := ResolveDir(g, v, SplitParent(path).0).value.e.first;
    if c == [] {
      RootReads(g, v, v1, path, q);
    } else {
      SameFileHit(g, v, o, path, q);
      ResolveIsRT(g, v, o, {}, c, g.root);
      ResolveIsRT(g, v1, o1, {}, c, g.root);
      EditResolve(up, t, t1, p, e, e.name, c, g.root);
      var r, r1 := RT(t, up, c, g.root), RT(t1, up, c, g.root);
      if Hit(t, up, c, g.root, p, e.name) {
        HoldsRead(g, v1, o1, e, p, contents);
        assert r1 == Some(Found(e, p));
      } else {
        RTFound(g, t, up, c, g.root);
        RTFound(g, t1, up, c, g.root);
        OtherRead(g, v, v1, o, o1, r, r1);
      }
    }
  }

  lemma RootReads(g: Geo, v: Vol, v1: Vol, path: string, q: string)
    requires Shape(g, v) && Shape(g, v1) && Comps(q) == []
    ensures !SameFile(g, v, path, q) && ReadFile(g, v1, q) == ReadFile(g, v, q)
  {
  }
}
