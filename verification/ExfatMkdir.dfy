/** `create_dir` on a well-formed volume. */
module ExfatMkdir {
  import opened Bytes
  import opened Utf16
  import opened ExfatChain
  import opened ExfatAlloc
  import opened ExfatSound
  import opened ExfatDentry
  import opened ExfatDir
  import opened ExfatPath
  import opened ExfatFs
  import opened ExfatEdit
  import opened ExfatTree
  import opened ExfatWf
  import opened ExfatOps
  import opened ExfatResolve
  import opened ExfatStage
  import opened ExfatTheorems

  // --- the new, empty directory ---

  lemma FillOne(g: Geo, v: Vol, c: nat)
    requires Shape(g, v) && 2 <= c < g.Max() && v.heap[c] == Zeros(g.bpc)
    ensures Vol(v.fat[c := FAT_EOC], v.heap[c := Zeros(g.bpc)]) == FillNew(g, v, [c], [])
  {
    hide Zeros;
    LinkOne(v.fat, c);
    var h := v.heap[c := Splice(v.heap[c], 0, [])];
    assert Splice(v.heap[c], 0, []) == v.heap[c];
    assert Fill(v.heap, [c], [], g.bpc) == Fill(h, [], [], g.bpc) == h;
  }

  lemma LinkOne(fat: seq<nat>, c: nat)
    requires c < |fat|
    ensures LinkFat(fat, [c], 0) == fat[c := FAT_EOC]
  {
    assert LinkFat(fat, [c], 0) == LinkFat(fat[c := FAT_EOC], [c], 1);
  }

  /** Claiming one cluster for a directory is the allocation stage with no contents. */
  lemma TakeIsFill(g: Geo, v: Vol)
    requires g.Valid() && Shape(g, v)
    ensures var c, a := FindFree(g, v, 2), AllocMany(g, v, 1, []);
      && (a.ok <==> c.Some?)
      && (c.Some? ==>
            && a.cs == [c.value] && a.v == Take(g, v, c.value)
            && Vol(a.v.fat[c.value := FAT_EOC], a.v.heap[c.value := Zeros(g.bpc)]) == FillNew(g, a.v, a.cs, []))
  {
    hide Shape, FindFree, FillNew, MarkBit;
    var c := FindFree(g, v, 2);
    if c.Some? {
      var v1 := Take(g, v, c.value);
      assert [] + [c.value] == [c.value];
      assert AllocMany(g, v1, 0, [c.value]) == Alloced(v1, [c.value], true);
      TakeZero(g, v, c.value);
      FillOne(g, v1, c.value);
    }
  }

  lemma TakeZero(g: Geo, v: Vol, c: nat)
    requires g.bpc > 0 && Shape(g, v) && 2 <= c < g.Max()
    ensures Take(g, v, c).heap[c] == Zeros(g.bpc)
  {
  }

  lemma ZeroDir(n: nat)
    requires Aligned(n)
    ensures WfDir(Zeros(n)) && Parse(Zeros(n)) == []
  {
    ZeroTail(Zeros(n), 0, 0);
  }

  ghost function WithDir(o: Own, c: nat, n: nat): (r: Own)
    ensures r.ch == o.ch
  {
    Own(o.ch, o.depth[c := n])
  }

  lemma NewDirBytes(g: Geo, v: Vol, o: Own, c: nat, n: nat)
    requires g.Valid() && Placed(g, v, o) && c in o.ch && c !in o.depth && o.ch[c] == [c] && c < |v.heap| && v.heap[c] == Zeros(g.bpc) && DirsOk(g, v, o)
    ensures Placed(g, v, WithDir(o, c, n)) && DirsOk(g, v, WithDir(o, c, n)) && Table(g, v, WithDir(o, c, n)) == Table(g, v, o)[c := []]
  {
    hide WfDir, Parse, Zeros, Flat;
    FlatOne(v.heap, c, g.bpc);
    ZeroDir(g.bpc);
  }

  lemma FlatOne(heap: seq<seq<byte>>, c: nat, bpc: nat)
    requires c < |heap| && heap[c] == Zeros(bpc)
    ensures InHeap(heap, [c], bpc) && Flat(heap, [c], bpc) == Zeros(bpc)
  {
    assert Flat(heap, [c], bpc) == heap[c] + [] == heap[c];
  }

  lemma RTableNew(t: Tab, c: nat)
    ensures RTable(t[c := []]) == RTable(t)[c := []]
  {
  }

  lemma WfNewDir(g: Geo, v: Vol, o: Own, c: nat, n: nat)
    requires g.Valid() && Placed(g, v, o) && c in o.ch && c !in o.depth && c !in Meta(g) && o.ch[c] == [c] && c < |v.heap| && v.heap[c] == Zeros(g.bpc)
    requires Wf(g, v, o, {c})
    ensures Wf(g, v, WithDir(o, c, n), {c}) && Placed(g, v, WithDir(o, c, n)) && Table(g, v, WithDir(o, c, n)) == Table(g, v, o)[c := []]
  {
    hide Sound, DirsOk, TreeOk, Wf, Table, RTable, Zeros, Placed;
    WfParts(g, v, o, {c});
    NewDirBytes(g, v, o, c, n);
    RTableNew(Table(g, v, o), c);
    TreeNewDir(g, RTable(Table(g, v, o)), o.ch.Keys, o.depth, {c}, c, n);
    MakeWf(g, v, WithDir(o, c, n), {c});
  }

  // --- unfolding ---

  ghost predicate CanMake(g: Geo, v: Vol, path: string)
    requires Shape(g, v)
  {
    var (parent, name) := SplitParent(path);
    && NameStatus(name) == 0 && ResolveDir(g, v, parent).Some?
    && FindIx(UpTable(g, v), Entries(g, v, ResolveDir(g, v, parent).value.e.first), name).None?
  }

  function DirSetOf(g: Geo, v: Vol, name: string, c: nat): NewSet
    requires Shape(g, v)
  {
    NewSet(name, NameHash(UpTable(g, v), Encode(name)), c, g.bpc, ATTR_DIRECTORY + ATTR_ARCHIVE)
  }

  lemma CreateDirRejects(g: Geo, v: Vol, path: string)
    requires g.Valid() && Shape(g, v) && !(CanMake(g, v, path) && FindFree(g, v, 2).Some?)
    ensures CreateDir(g, v, path).v == v && CreateDir(g, v, path).st != 0
  {
    hide Shape, FindFree, Take, InsertOrReplace, ResolveDir, Entries, UpTable, FindIx, SplitParent, NameHash, EntrySet, Encode, NamesEqual, FreeOld;
  }

  lemma CreateDirUnfold(g: Geo, v: Vol, path: string)
    requires g.Valid() && Shape(g, v) && CanMake(g, v, path) && AllocMany(g, v, 1, []).ok
    ensures var (parent, name) := SplitParent(path); var f := ResolveDir(g, v, parent).value;
      var a := AllocMany(g, v, 1, []); var v1 := FillNew(g, a.v, a.cs, []);
      && |a.cs| == 1
      && var ns := DirSetOf(g, v1, name, a.cs[0]);
        var r := InsertOrReplace(g, v1, f, name, ns.Data(), None);
        CreateDir(g, v, path) == if r.st != 0 then Op(FreeOld(g, r.v, Some(a.cs[0])), r.st) else r
  {
    hide Shape, FindFree, Take, InsertOrReplace, ResolveDir, Entries, UpTable, FindIx, SplitParent, NameHash, EntrySet, Encode, NamesEqual, FreeOld, FillNew, AllocMany;
    TakeIsFill(g, v);
  }

  // --- the effect ---

  /** The tree after making the directory e in directory p. */
  ghost predicate Made(g: Geo, v: Vol, v1: Vol, o: Own, o1: Own, p: nat, e: DirEntry)
    requires Placed(g, v, o) && Shape(g, v)
  {
    && Wf(g, v1, o1, {}) && Placed(g, v1, o1) && Kept(g, v, v1, o, o1) && p in o.depth && e.isDir && e.first !in o.depth
    && TreeEdit(UpTable(g, v), Table(g, v, o)[e.first := []], Table(g, v1, o1), p, e, e.name)
    && ListEdit(UpTable(g, v), Table(g, v, o)[p], Table(g, v1, o1)[p], e)
  }

  lemma KeptDir(g: Geo, v: Vol, v1: Vol, v2: Vol, o: Own, o1: Own, o2: Own, c: nat, n: nat)
    requires Kept(g, v, v1, o, o1) && Kept(g, v1, v2, WithDir(o1, c, n), o2) && o1.depth == o.depth && c !in o.ch && o2.ch.Keys <= o1.ch.Keys
    ensures Kept(g, v, v2, o, o2)
  {
    hide SameOn;
    forall j | j in o.ch && j in o2.ch && j !in o.depth && (g.bitmap.Some? ==> j != g.bitmap.value.first)
      ensures o2.ch[j] == o.ch[j] && SameOn(v, v2, o.ch[j])
    {
      assert j in o1.ch;
      SameOnTrans(v, v1, v2, o.ch[j]);
    }
  }

  lemma DirMade(g: Geo, v: Vol, v1: Vol, v2: Vol, o: Own, o1: Own, o2: Own, c: nat, n: nat, p: nat, k: nat, e: DirEntry)
    requires Shape(g, v) && Placed(g, v, o) && Placed(g, v1, WithDir(o1, c, n)) && p in o.depth && o1.depth == o.depth && c !in o.ch && c !in o.depth
    requires Table(g, v1, WithDir(o1, c, n)) == Table(g, v, o)[c := []] && Kept(g, v, v1, o, o1) && e.first == c && e.isDir
    requires Inserted(g, v1, v2, WithDir(o1, c, n), o2, {c}, p, k, e) && FindIx(UpTable(g, v), Table(g, v, o)[p], e.name).None?
    ensures Made(g, v, v2, o, o2, p, e)
  {
    hide Wf, Placed, Table, Kept, InsTable, SimTable, TreeEdit, UpTable, FindIx, Shape, ListEdit, SimList;
    var t := Table(g, v, o)[c := []];
    KeptDir(g, v, v1, v2, o, o1, o2, c, n);
    InsTableAt(t, Table(g, v2, o2), p, k, e);
    InsertListing(UpTable(g, v), t[p], Table(g, v2, o2)[p], k, e);
    InsertEdit(UpTable(g, v), t, Table(g, v2, o2), p, k, e);
    assert {c} - {c} == {};
  }

  lemma DirOwns(g: Geo, o: Own, p: nat, ns: NewSet, c: nat)
    requires MetaOk(g, o) && o.depth.Keys <= o.ch.Keys && p in o.depth && c !in o.ch && c >= 2 && ns.first == c && HasDirAttr(ns.attrs)
    ensures Owns(g, WithDir(Own(o.ch[c := [c]], o.depth), c, o.depth[p] + 1), {c}, p, ns)
  {
  }

  /** The stage of `create_dir` before the entry is written. */
  ghost predicate StagedDir(g: Geo, v: Vol, v1: Vol, o: Own, c: nat, n: nat)
    requires Placed(g, v, o)
  {
    && 2 <= c < g.Max() && c !in o.ch && c !in o.depth && Staged(g, v, v1, o, [c])
    && var o1 := Own(o.ch[c := [c]], o.depth);
      && Kept(g, v, v1, o, o1) && Sound(g, v1, o1.ch) && MetaOk(g, o1)
      && Wf(g, v1, WithDir(o1, c, n), {c}) && Placed(g, v1, WithDir(o1, c, n)) && Table(g, v1, WithDir(o1, c, n)) == Table(g, v, o)[c := []]
  }

  lemma DirStage(g: Geo, v: Vol, o: Own, p: nat)
    requires g.Valid() && Shape(g, v) && AllocMany(g, v, 1, []).ok && Placed(g, v, o) && p in o.depth && Wf(g, v, o, {})
    ensures var a := AllocMany(g, v, 1, []);
      |a.cs| == 1 && StagedDir(g, v, FillNew(g, a.v, a.cs, []), o, a.cs[0], o.depth[p] + 1)
  {
    hide Wf, Placed, Table, Sound, Shape, AllocMany, FillNew, Kept, Taken, BmSeq, TreeOk, DirsOk, Holds, Zeros, WithDir, MetaOk;
    WfParts(g, v, o, {});
    PlacedKeys(g, v, o);
    FillStage(g, v, o, 1, []);
    FillHolds(g, v, o, 1, []);
    var a := AllocMany(g, v, 1, []);
    var c, v1 := a.cs[0], FillNew(g, a.v, a.cs, []);
    assert a.cs == [c];
    var o1 := Own(o.ch[c := [c]], o.depth);
    WfParts(g, v1, o1, {c});
    NewKeyNotMeta(g, o, c);
    ZeroFilled(g, v);
    WfNewDir(g, v1, o1, c, o.depth[p] + 1);
  }

  lemma NewKeyNotMeta(g: Geo, o: Own, c: nat)
    requires MetaOk(g, o) && c !in o.ch
    ensures c !in Meta(g)
  {
  }

  lemma FillNewZero(g: Geo, v: Vol, c: nat)
    requires Shape(g, v) && 2 <= c < g.Max() && v.heap[c] == Zeros(g.bpc)
    ensures c < |FillNew(g, v, [c], []).heap| && FillNew(g, v, [c], []).heap[c] == Zeros(g.bpc)
  {
    hide FillNew, Zeros;
    FillOne(g, v, c);
  }

  lemma ZeroFilled(g: Geo, v: Vol)
    requires g.Valid() && Shape(g, v) && AllocMany(g, v, 1, []).ok
    ensures var a := AllocMany(g, v, 1, []);
      |a.cs| == 1 && a.cs[0] < |FillNew(g, a.v, a.cs, []).heap| && FillNew(g, a.v, a.cs, []).heap[a.cs[0]] == Zeros(g.bpc)
  {
    hide Shape, FindFree, Take, FillNew, Zeros, AllocMany;
    TakeIsFill(g, v);
    var c := FindFree(g, v, 2).value;
    TakeZero(g, v, c);
    FillNewZero(g, Take(g, v, c), c);
  }

  lemma CreateDirMakes(g: Geo, v: Vol, o: Own, path: string) returns (o2: Own, e: DirEntry)
    requires g.Valid() && Shape(g, v) && CanMake(g, v, path) && AllocMany(g, v, 1, []).ok && Placed(g, v, o) && Wf(g, v, o, {})
    ensures var (parent, name) := SplitParent(path); var r := CreateDir(g, v, path);
      if r.st == 0 then e.name == name && Made(g, v, r.v, o, o2, ResolveDir(g, v, parent).value.e.first, e)
      else r.st == -28 && Restored(g, v, r.v, o.ch) && Sound(g, r.v, o.ch)
  {
    hide Wf, Placed, Table, Sound, UpTable, Shape, FoundIn, Owns, Restored, InsertOrReplace, AllocMany, FillNew, CreateDir, Encode, ResolveDir,
      SplitParent, FindIx, Entries, NameHash, EntrySet, Kept, MetaOk, DirsOk, TreeOk, Made, FreeOld, WithDir, Inserted, Staged;
    WfParts(g, v, o, {});
    PlacedKeys(g, v, o);
    var (parent, name) := SplitParent(path);
    var f := ResolveDir(g, v, parent).value;
    var p := f.e.first;
    ParentFound(g, v, o, {}, parent);
    CreateDirUnfold(g, v, path);
    DirStage(g, v, o, p);
    var a := AllocMany(g, v, 1, []);
    var c, v1, n := a.cs[0], FillNew(g, a.v, a.cs, []), o.depth[p] + 1;
    var o1 := Own(o.ch[c := [c]], o.depth);
    assert a.cs == [c];
    AttrBits();
    FirstFits(g, c);
    Pow256Values();
    var ns := DirSetOf(g, v1, name, c);
    o2, e := o, ns.Entry(0);
    DirOwns(g, o, p, ns, c);
    FoundStays(g, Table(g, v, o), Table(g, v, o)[c := []], f);
    MakeReady(g, v, v1, o, o1, c, n, p);
    var k, off;
    o2, k, off := InsertNew(g, v1, WithDir(o1, c, n), {c}, f, ns, None);
    var r := InsertOrReplace(g, v1, f, name, ns.Data(), None);
    if r.st == 0 {
      e := ns.Entry(off);
      DirMade(g, v, v1, r.v, o, o1, o2, c, n, p, k, e);
    } else {
      UndoDir(g, v, v1, r.v, o, a.cs);
    }
  }

  lemma MakeReady(g: Geo, v: Vol, v1: Vol, o: Own, o1: Own, c: nat, n: nat, p: nat)
    requires Placed(g, v, o) && Wf(g, v, o, {}) && Sound(g, v1, o1.ch) && MetaOk(g, o1) && Kept(g, v, v1, o, o1) && p in o.depth && c != p && o1.depth == o.depth
    requires Wf(g, v1, WithDir(o1, c, n), {c}) && Placed(g, v1, WithDir(o1, c, n)) && Table(g, v1, WithDir(o1, c, n)) == Table(g, v, o)[c := []]
    ensures g.Valid() && Shape(g, v) && Shape(g, v1) && UpTable(g, v1) == UpTable(g, v)
    ensures Entries(g, v1, p) == Table(g, v, o)[p] == Entries(g, v, p) && p in WithDir(o1, c, n).depth
  {
    hide Wf, Placed, Table, Kept, Sound, MetaOk, DirsOk, TreeOk, UpTable, Shape, Parse, ReadChain, DirBytes;
    WfParts(g, v, o, {});
    WfParts(g, v1, WithDir(o1, c, n), {c});
    KeptUp(g, v, v1, o, o1);
    DirChain(g, v, o, p);
    DirChain(g, v1, WithDir(o1, c, n), p);
    WfDirAt(g, v, o, p);
    WfDirAt(g, v1, WithDir(o1, c, n), p);
  }

  lemma UndoDir(g: Geo, v: Vol, v1: Vol, v2: Vol, o: Own, cs: seq<nat>)
    requires g.Valid() && Shape(g, v2) && Placed(g, v, o) && Sound(g, v, o.ch) && |cs| == 1 && cs[0] >= 2 && Staged(g, v, v1, o, cs)
    requires Sound(g, v1, o.ch[cs[0] := [cs[0]]]) && Restored(g, v1, v2, o.ch[cs[0] := [cs[0]]]) && Sound(g, v2, o.ch[cs[0] := [cs[0]]])
    ensures var r := FreeOld(g, v2, Some(cs[0])); Restored(g, v, r, o.ch) && Sound(g, r, o.ch)
  {
    hide Wf, Placed, Table, Sound, Restored, Kept, Taken, BmSeq, FreeOld, FreeAll, Shape, Chain, ReadChain, Flat, InHeap;
    assert cs == [cs[0]];
    ReadChainIs(g, v2, o.ch[cs[0] := cs], cs[0]);
    FreeOldUnfold(g, v2, cs[0]);
    RollbackAll(g, v, v1, v2, o.ch, cs);
  }

  /** `create_dir`: an empty directory in the tree, or the volume is restored. */
  lemma CreateDirEffect(g: Geo, v: Vol, o: Own, path: string) returns (o2: Own, e: DirEntry)
    requires g.Valid() && Shape(g, v) && Placed(g, v, o) && Wf(g, v, o, {})
    ensures var (parent, name) := SplitParent(path); var r := CreateDir(g, v, path);
      if r.st == 0 then CanMake(g, v, path) && e.name == name && Made(g, v, r.v, o, o2, ResolveDir(g, v, parent).value.e.first, e)
      else Restored(g, v, r.v, o.ch) && Sound(g, r.v, o.ch)
  {
    hide Wf, Placed, Sound, Shape, Restored, AllocMany, Made, CreateDir, ResolveDir, SplitParent, CanMake, MetaOk, DirsOk, TreeOk, Table, FindFree, Take, FillNew;
    WfParts(g, v, o, {});
    TakeIsFill(g, v);
    o2, e := o, DirEntry("", 0, 0, false, 0, 0);
    if CanMake(g, v, path) && FindFree(g, v, 2).Some? {
      o2, e := CreateDirMakes(g, v, o, path);
    } else {
      CreateDirRejects(g, v, path);
      RestoredSelf(g, v, o.ch);
    }
  }
}
