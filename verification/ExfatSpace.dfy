/** When the exFAT operations succeed: exactly when the path allows it and the free clusters cover what is needed. */
module ExfatSpace {
  import opened Bytes
  import opened Utf16
  import opened ExfatChain
  import opened ExfatAlloc
  import opened ExfatSound
  import opened ExfatDentry
  import opened ExfatDir
  import opened ExfatPath
  import opened ExfatFs
  import opened ExfatEdit
  import opened ExfatTree
  import opened ExfatWf
  import opened ExfatOps
  import opened ExfatResolve
  import opened ExfatStage
  import opened ExfatTheorems
  import opened ExfatMkdir
  import opened ExfatMain

  // --- counting free clusters ---

  ghost function FreeSet(fat: seq<nat>): set<nat> { set c: nat | 2 <= c < |fat| && fat[c] == FAT_FREE }

  /** How many clusters the FAT has free. */
  ghost function Free(v: Vol): nat { |FreeSet(v.fat)| }

  ghost function Elems(cs: seq<nat>): set<nat> { set c | c in cs }

  lemma {:induction false} DistinctSize(cs: seq<nat>)
    requires Distinct(cs)
    ensures |Elems(cs)| == |cs|
    decreases |cs|
  {
    if cs != [] {
      var init, last := cs[..|cs| - 1], cs[|cs| - 1];
      DistinctSize(init);
      assert last !in Elems(init);
      assert cs == init + [last];
      assert Elems(cs) == Elems(init) + {last};
    }
  }

  /** Claiming clusters takes exactly that many from the free ones. */
  lemma FreeTaken(fat: seq<nat>, fat1: seq<nat>, cs: seq<nat>)
    requires |fat| == |fat1| && Distinct(cs) && (forall c :: c in cs ==> 2 <= c < |fat| && fat[c] == FAT_FREE && fat1[c] != FAT_FREE)
    requires forall c :: 0 <= c < |fat| && c !in cs ==> fat1[c] == fat[c]
    ensures |FreeSet(fat1)| == |FreeSet(fat)| - |cs|
  {
    hide Distinct;
    DistinctSize(cs);
    assert Elems(cs) <= FreeSet(fat);
    assert FreeSet(fat1) == FreeSet(fat) - Elems(cs);
  }

  lemma TakenFree(g: Geo, v: Vol, ch: Chains, n: nat)
    requires Sound(g, v, ch)
    ensures var a := AllocMany(g, v, n, []); Free(a.v) == Free(v) - |a.cs|
  {
    hide Sound, AllocMany, BmFits, BitsFlip, Owned, FreeSet, InHeap;
    SoundShape(g, v, ch);
    AllocSound(g, v, ch, n);
    var a := AllocMany(g, v, n, []);
    forall c | c in a.cs ensures a.v.fat[c] != FAT_FREE {
      var i :| 0 <= i < |a.cs| && a.cs[i] == c;
    }
    FreeTaken(v.fat, a.v.fat, a.cs);
  }

  lemma {:induction false} FailedScan(g: Geo, v: Vol, n: nat, cs: seq<nat>)
    requires g.bpc > 0 && Shape(g, v) && Clusters(g, cs) && !AllocMany(g, v, n, cs).ok
    ensures FindFree(g, AllocMany(g, v, n, cs).v, 2).None?
    decreases n
  {
    hide FindFree, Take, Shape;
    var c := FindFree(g, v, 2);
    if c.Some? { FailedScan(g, Take(g, v, c.value), n - 1, cs + [c.value]); }
  }

  /** In a sound volume a cluster that the FAT has free is free in the bitmap too, also while clusters are being claimed. */
  lemma FreeIsFree(g: Geo, v: Vol, v1: Vol, ch: Chains, cs: seq<nat>, c: nat)
    requires Sound(g, v, ch) && Taken(g, BmSeq(g, ch), v, v1, cs, {}) && 2 <= c < g.Max() && c !in cs && v.fat[c] == FAT_FREE
    ensures g.bpc > 0 && Shape(g, v1) && BitAt(g, v1, c) != Some(true)
  {
    hide ClusterIx, ByteIx, Owned, ChainsOk, Disjoint, IsChain;
    var bm := BmSeq(g, ch);
    assert !Owned(ch, c);
    if g.bitmap.Some? {
      BitPosIs(g, v1, bm, c);
      assert FBit(v1.heap, bm, g.bpc, c - 2) <==> FBit(v.heap, bm, g.bpc, c - 2);
    }
  }

  /** Allocation succeeds exactly when there are enough free clusters. */
  lemma AllocExactly(g: Geo, v: Vol, ch: Chains, n: nat)
    requires Sound(g, v, ch)
    ensures AllocMany(g, v, n, []).ok <==> n <= Free(v)
  {
    hide Sound, AllocMany, Taken, BmSeq, Owned, FreeSet, BitAt, FindFree;
    SoundShape(g, v, ch);
    AllocSound(g, v, ch, n);
    TakenFree(g, v, ch, n);
    if !AllocMany(g, v, n, []).ok {
      FailedScan(g, v, n, []);
      NoneLeft(g, v, ch, n);
    }
  }

  lemma NoneLeft(g: Geo, v: Vol, ch: Chains, n: nat)
    requires Sound(g, v, ch) && FindFree(g, AllocMany(g, v, n, []).v, 2).None?
    ensures Free(AllocMany(g, v, n, []).v) == 0
  {
    hide Sound, AllocMany, BmSeq, Owned, BitAt, BmFits, BitsFlip, InHeap;
    SoundShape(g, v, ch);
    AllocSound(g, v, ch, n);
    var a := AllocMany(g, v, n, []);
    forall c: nat | c in FreeSet(a.v.fat) ensures false {
      assert c !in a.cs;
      FreeIsFree(g, v, a.v, ch, a.cs, c);
    }
    assert FreeSet(a.v.fat) == {};
  }

  // --- room for an entry ---

  /** The clusters that a directory of bytes b must grow by to take n more slots. */
  function Growth(b: seq<byte>, n: nat, bpc: nat): nat
    requires bpc > 0
  {
    if FindFreeRun(b, n).Some? then 0 else DivCeil(Max(0, FindEod(b, 0) + 32 * n - |b|), bpc)
  }

  lemma EnsureExactly(g: Geo, v: Vol, o: Own, p: nat, n: nat)
    requires Sound(g, v, o.ch) && Placed(g, v, o) && DirsOk(g, v, o) && MetaOk(g, o) && p in o.depth && p in o.ch && n > 0
    ensures g.Valid() && Shape(g, v)
    ensures var b := DirBytes(g, v, o, p); EnsureRun(g, v, p, b, n).st == 0 <==> Growth(b, n, g.bpc) <= Free(v)
  {
    hide Sound, Placed, DirsOk, MetaOk, DirBytes, WfDir, FreeRun, GrownBy, Restored, Append, Span, Shape, FindFreeRun, FindEod, AllocMany, Free, DivCeil;
    SoundShape(g, v, o.ch);
    WfDirAt(g, v, o, p);
    DirNotMeta(g, o, p);
    var b := DirBytes(g, v, o, p);
    FindFreeRunSpec(b, n);
    if FindFreeRun(b, n).None? {
      var missing := FindEod(b, 0) + 32 * n - |b|;
      var extra := DivCeil(missing, g.bpc);
      CeilCovers(missing, g.bpc);
      AllocExactly(g, v, o.ch, extra);
      if AllocMany(g, v, extra, []).ok { AppendGrows(g, v, o.ch, p, extra); } else { AppendFull(g, v, o.ch, p, extra); }
    }
  }

  /** Inserting a new name succeeds exactly when the free clusters cover the directory's growth. */
  lemma InsertExactly(g: Geo, v: Vol, o: Own, pend: set<nat>, f: Found, ns: NewSet, oldFirst: Option<nat>)
    requires Wf(g, v, o, pend) && Placed(g, v, o) && FoundIn(g, Table(g, v, o), f) && f.e.isDir && Aligned(f.e.off) && f.e.first in o.depth
    requires ns.Valid() && Owns(g, o, pend, f.e.first, ns)
    requires g.Valid() && Shape(g, v) && FindIx(UpTable(g, v), Entries(g, v, f.e.first), ns.name).None?
    ensures InsertOrReplace(g, v, f, ns.name, ns.Data(), oldFirst).st == 0 <==> Growth(DirBytes(g, v, o, f.e.first), ns.Slots(), g.bpc) <= Free(v)
  {
    hide Wf, Placed, Table, DirBytes, FoundIn, Owns, InsertOrReplace, Restored, Sound, EnsureRun, WriteDir, UpdateDirSize, ReadChain,
      Entries, UpTable, FindIx, FreeRun, GrownBy, InsTable, DirsOk, MetaOk, TreeOk, Shape, Zeros, Span, IsChain, InHeap, EntrySet, Encode, Inserted, Growth, Free;
    WfParts(g, v, o, pend);
    PlacedKeys(g, v, o);
    var p, d := f.e.first, ns.Data();
    DirChain(g, v, o, p);
    InsertUnfold(g, v, f, ns.name, d, oldFirst);
    var room := EnsureRun(g, v, p, ReadChain(g, v, p), |d| / 32);
    RoomIs(g, v, o, p, ns.Slots());
    EnsureExactly(g, v, o, p, ns.Slots());
    if room.st == 0 && !room.grown {
      var k := InsertHasRoom(g, v, o, pend, p, ns, room.off);
    } else if room.st == 0 {
      var cs :| GrownBy(g, v, room.v, o.ch, p, cs) && FreeRun(DirBytes(g, v, o, p) + Zeros(Span(|cs|, g.bpc)), 0, room.off, ns.Slots());
      var k := InsertAfterGrowth(g, v, room.v, o, pend, p, cs, ns, room.off);
    }
  }

  // --- after the data is in place ---

  /** The staged chain took exactly its clusters, and left the directories' bytes alone. */
  lemma StagedFree(g: Geo, v: Vol, v1: Vol, o: Own, o1: Own, cs: seq<nat>, p: nat)
    requires Placed(g, v, o) && Wf(g, v, o, {}) && Staged(g, v, v1, o, cs) && p in o.depth
    requires Placed(g, v1, o1) && p in o1.depth && p in o1.ch && p in o.ch && o1.ch == o.ch[cs[0] := cs]
    ensures Free(v1) == Free(v) - |cs| && DirBytes(g, v1, o1, p) == DirBytes(g, v, o, p)
  {
    hide Wf, Placed, Table, Kept, Sound, MetaOk, DirsOk, TreeOk, FreeSet, Taken, BmSeq, SameOn, InHeap, Flat, IsChain;
    WfParts(g, v, o, {});
    WfParts(g, v1, Own(o.ch[cs[0] := cs], o.depth), {cs[0]});
    StagedTaken(g, v, v1, o.ch, cs);
    DirNotMeta(g, o, p);
    TakenSame(g, v, v1, o.ch, cs, p);
    DirChain(g, v, o, p);
    FlatSame(g, v, v1, o.ch[p]);
    assert p != cs[0];
  }

  lemma StagedTaken(g: Geo, v: Vol, v1: Vol, ch: Chains, cs: seq<nat>)
    requires Sound(g, v, ch) && Taken(g, BmSeq(g, ch), v, v1, cs, {}) && cs != [] && Sound(g, v1, ch[cs[0] := cs])
    ensures Free(v1) == Free(v) - |cs|
  {
    hide FreeSet, BmFits, BitsFlip, Owned, BmSeq, FatExact, BitmapExact, Disjoint, InHeap, Distinct;
    assert cs == ch[cs[0] := cs][cs[0]];
    assert IsChain(v1.fat, cs);
    forall c | c in cs ensures v1.fat[c] != FAT_FREE { ChainUsed(v1.fat, cs, c); }
    FreeTaken(v.fat, v1.fat, cs);
  }

  // --- when the operations succeed ---

  /** The clusters that a new entry called `name` makes directory p grow by: none when an equal name is replaced. */
  ghost function EntryCost(g: Geo, v: Vol, p: nat, name: string): nat
    requires g.Valid() && Shape(g, v)
  {
    if FindIx(UpTable(g, v), Entries(g, v, p), name).Some? then 0
    else Growth(ReadChain(g, v, p), SlotsFor(|Encode(name)|), g.bpc)
  }

  /** The status of `write_file`, read off the volume before the call. */
  ghost function WriteStatus(g: Geo, v: Vol, path: string, size: nat): int
    requires g.Valid() && Shape(g, v)
  {
    var (parent, name) := SplitParent(path);
    if NameStatus(name) != 0 then NameStatus(name)
    else if ResolveDir(g, v, parent).None? then -2
    else if !CanWrite(g, v, path) then -21
    else if Free(v) < DivCeil(size, g.bpc) + EntryCost(g, v, ResolveDir(g, v, parent).value.e.first, name) then -28
    else 0
  }

  /** The status of `create_dir`, read off the volume before the call. */
  ghost function MakeStatus(g: Geo, v: Vol, path: string): int
    requires g.Valid() && Shape(g, v)
  {
    var (parent, name) := SplitParent(path);
    if NameStatus(name) != 0 then NameStatus(name)
    else if ResolveDir(g, v, parent).None? then -2
    else if !CanMake(g, v, path) then -17
    else if Free(v) < 1 + EntryCost(g, v, ResolveDir(g, v, parent).value.e.first, name) then -28
    else 0
  }

  /** Putting the entry of a file whose data is in place. */
  lemma PutExactly(g: Geo, v: Vol, v1: Vol, o: Own, o1: Own, pend: set<nat>, f: Found, ns: NewSet, es: seq<DirEntry>)
    requires g.Valid() && Shape(g, v) && Shape(g, v1) && Placed(g, v, o) && Placed(g, v1, o1)
    requires ns.Valid() && ns.attrs == ATTR_ARCHIVE && pend == (if ns.first >= 2 then {ns.first} else {}) && f.e.first in o.depth
    requires FoundIn(g, Table(g, v, o), f) && f.e.isDir && Aligned(f.e.off) && Owns(g, o1, pend, f.e.first, ns) && es == Table(g, v, o)[f.e.first]
    requires Wf(g, v, o, {}) && Ready(g, v, v1, o, o1, pend)
    requires FindIx(UpTable(g, v), es, ns.name).Some? ==> !es[FindIx(UpTable(g, v), es, ns.name).value].isDir
    ensures var ix := FindIx(UpTable(g, v), es, ns.name);
      var r := InsertOrReplace(g, v1, f, ns.name, ns.Data(), OldFirst(es, ix));
      r.st == 0 <==> ix.Some? || Growth(DirBytes(g, v1, o1, f.e.first), ns.Slots(), g.bpc) <= Free(v1)
  {
    hide Wf, Placed, Table, FoundIn, Owns, InsertOrReplace, Sound, UpTable, FindIx, Shape, Encode, EntrySet, Entries, DirBytes, Growth, Free, PutOk, Kept;
    AttrBits();
    var ix := FindIx(UpTable(g, v), es, ns.name);
    ReadyFacts(g, v, v1, o, o1, pend, f.e.first);
    if ix.None? {
      InsertExactly(g, v1, o1, pend, f, ns, OldFirst(es, ix));
    } else {
      PutOldFile(g, v, v1, o, o1, pend, f, ns, ix.value);
    }
  }

  lemma CostIs(g: Geo, v: Vol, o: Own, p: nat, name: string)
    requires g.Valid() && Shape(g, v) && Placed(g, v, o) && Wf(g, v, o, {}) && p in o.depth
    ensures Entries(g, v, p) == Table(g, v, o)[p]
    ensures EntryCost(g, v, p, name) ==
      if FindIx(UpTable(g, v), Table(g, v, o)[p], name).Some? then 0 else Growth(DirBytes(g, v, o, p), SlotsFor(|Encode(name)|), g.bpc)
  {
    hide Wf, Placed, Table, Sound, MetaOk, DirsOk, TreeOk, UpTable, FindIx, Shape, Encode, Entries, DirBytes, ReadChain, Growth, SlotsFor;
    WfParts(g, v, o, {});
    EntriesIs(g, v, o, p);
    DirChain(g, v, o, p);
  }

  lemma WriteEmptyExactly(g: Geo, v: Vol, o: Own, path: string)
    requires g.Valid() && Shape(g, v) && CanWrite(g, v, path) && Placed(g, v, o) && Wf(g, v, o, {})
    ensures WriteFile(g, v, path, []).st == 0 <==>
      EntryCost(g, v, ResolveDir(g, v, SplitParent(path).0).value.e.first, SplitParent(path).1) <= Free(v)
  {
    hide Wf, Placed, Table, UpTable, Shape, FoundIn, Owns, Ready, InsertOrReplace, AllocMany, FillNew, WriteFile, Encode, ResolveDir,
      SplitParent, FindIx, Entries, DivCeil, NameHash, EntrySet, EntryCost, Growth, Free, DirBytes, FreeAll;
    var (parent, name) := SplitParent(path);
    var f := ResolveDir(g, v, parent).value;
    ParentFound(g, v, o, {}, parent);
    WriteFileUnfold(g, v, path, []);
    NoClusters(g, v, []);
    Pow256Values();
    var ns := FileSet(g, v, name, 0, 0);
    AttrBits();
    NothingReady(g, v, o, f.e.first, ns);
    CostIs(g, v, o, f.e.first, name);
    PutExactly(g, v, v, o, o, {}, f, ns, Entries(g, v, f.e.first));
  }

  lemma WriteDataExactly(g: Geo, v: Vol, o: Own, path: string, contents: seq<byte>)
    requires g.Valid() && Shape(g, v) && CanWrite(g, v, path) && contents != [] && |contents| < Pow256(8)
    requires AllocMany(g, v, DivCeil(|contents|, g.bpc), []).ok && Placed(g, v, o) && Wf(g, v, o, {})
    ensures WriteFile(g, v, path, contents).st == 0 <==>
      EntryCost(g, v, ResolveDir(g, v, SplitParent(path).0).value.e.first, SplitParent(path).1) <= Free(v) - DivCeil(|contents|, g.bpc)
  {
    hide Wf, Placed, Table, Sound, UpTable, Shape, FoundIn, Owns, Ready, InsertOrReplace, AllocMany, FillNew, WriteFile, Encode, ResolveDir,
      SplitParent, FindIx, Entries, DivCeil, NameHash, EntrySet, Taken, BmSeq, FreeAll, Kept, MetaOk, DirsOk, TreeOk, Span, EntryCost, Growth, Free, DirBytes;
    WfParts(g, v, o, {});
    PlacedKeys(g, v, o);
    var (parent, name) := SplitParent(path);
    var f := ResolveDir(g, v, parent).value;
    ParentFound(g, v, o, {}, parent);
    WriteFileUnfold(g, v, path, contents);
    var n := DivCeil(|contents|, g.bpc);
    CeilCovers(|contents|, g.bpc);
    FillStage(g, v, o, n, contents);
    var a := AllocMany(g, v, n, []);
    var v1, o1 := FillNew(g, a.v, a.cs, contents), Own(o.ch[a.cs[0] := a.cs], o.depth);
    FirstFits(g, a.cs[0]);
    var ns := FileSet(g, v1, name, a.cs[0], |contents|);
    AttrBits();
    StagedReady(g, v, v1, o, a.cs, f.e.first, ns);
    StagedFree(g, v, v1, o, o1, a.cs, f.e.first);
    CostIs(g, v, o, f.e.first, name);
    PutExactly(g, v, v1, o, o1, {a.cs[0]}, f, ns, Entries(g, v, f.e.first));
  }

  lemma WriteNoRoom(g: Geo, v: Vol, o: Own, path: string, contents: seq<byte>)
    requires g.Valid() && Shape(g, v) && CanWrite(g, v, path) && |contents| < Pow256(8) && Placed(g, v, o) && Wf(g, v, o, {})
    ensures WriteFile(g, v, path, contents).st in {0, -28}
  {
    hide Wf, Placed, Sound, Shape, Restored, AllocMany, FileDone, WriteFile, ResolveDir, SplitParent, DivCeil, CanWrite, MetaOk, DirsOk, TreeOk, Table, Pow256;
    WfParts(g, v, o, {});
    if contents == [] {
      var o2, e := WriteEmpty(g, v, o, path);
    } else if AllocMany(g, v, DivCeil(|contents|, g.bpc), []).ok {
      var o2, e := WriteData(g, v, o, path, contents);
    } else {
      WriteNoSpace(g, v, o, path, contents);
    }
  }

  lemma WriteRejectStatus(g: Geo, v: Vol, path: string, contents: seq<byte>)
    requires g.Valid() && Shape(g, v) && !CanWrite(g, v, path)
    ensures WriteFile(g, v, path, contents).st == WriteStatus(g, v, path, |contents|)
  {
    hide Shape, AllocMany, FreeAll, FillNew, InsertOrReplace, ResolveDir, Entries, UpTable, FindIx, SplitParent, NameHash, EntrySet, Encode, NamesEqual,
      EntryCost, Free, DivCeil;
  }

  /**
   * `write_file` returns exactly the status that the volume before the call predicts. It succeeds if and only if the name
   * is legal, the parent is a directory, no directory has the name, and the free clusters cover the data and the growth
   * of the parent; the clusters of a file that is replaced do not help.
   */
  lemma WriteFileStatus(g: Geo, v: Vol, path: string, contents: seq<byte>)
    requires WfVol(g, v) && |contents| < 0x1_0000_0000_0000_0000
    ensures g.Valid() && Shape(g, v)
    ensures WriteFile(g, v, path, contents).st == WriteStatus(g, v, path, |contents|)
  {
    hide Wf, Placed, Table, Shape, Sound, WriteFile, ResolveDir, SplitParent, CanWrite, NameStatus, AllocMany, Free, EntryCost, DivCeil, MetaOk, DirsOk, TreeOk;
    var o :| Wf(g, v, o, {});
    WfValid(g, v, o);
    WfParts(g, v, o, {});
    Pow256Values();
    if !CanWrite(g, v, path) {
      WriteRejectStatus(g, v, path, contents);
    } else {
      CanWriteIs(g, v, path);
      WriteNoRoom(g, v, o, path, contents);
      AllocExactly(g, v, o.ch, DivCeil(|contents|, g.bpc));
      if contents == [] {
        CeilOfZero(g.bpc);
        WriteEmptyExactly(g, v, o, path);
      } else if AllocMany(g, v, DivCeil(|contents|, g.bpc), []).ok {
        WriteDataExactly(g, v, o, path, contents);
      } else {
        WriteNoSpace(g, v, o, path, contents);
      }
    }
  }

  lemma CanWriteIs(g: Geo, v: Vol, path: string)
    requires Shape(g, v) && CanWrite(g, v, path)
    ensures NameStatus(SplitParent(path).1) == 0 && ResolveDir(g, v, SplitParent(path).0).Some?
  {
    hide Shape, ResolveDir, Entries, UpTable, FindIx, SplitParent, NameStatus;
  }

  lemma CanMakeIs(g: Geo, v: Vol, path: string)
    requires Shape(g, v) && CanMake(g, v, path)
    ensures NameStatus(SplitParent(path).1) == 0 && ResolveDir(g, v, SplitParent(path).0).Some?
    ensures FindIx(UpTable(g, v), Entries(g, v, ResolveDir(g, v, SplitParent(path).0).value.e.first), SplitParent(path).1).None?
  {
    hide Shape, ResolveDir, Entries, UpTable, FindIx, SplitParent, NameStatus;
  }

  lemma MakeExactly(g: Geo, v: Vol, o: Own, path: string)
    requires g.Valid() && Shape(g, v) && CanMake(g, v, path) && AllocMany(g, v, 1, []).ok && Placed(g, v, o) && Wf(g, v, o, {})
    ensures CreateDir(g, v, path).st == 0 <==>
      EntryCost(g, v, ResolveDir(g, v, SplitParent(path).0).value.e.first, SplitParent(path).1) <= Free(v) - 1
  {
    hide Wf, Placed, Table, Sound, UpTable, Shape, FoundIn, Owns, InsertOrReplace, AllocMany, FillNew, CreateDir, Encode, ResolveDir,
      SplitParent, FindIx, Entries, NameHash, EntrySet, Kept, MetaOk, DirsOk, TreeOk, FreeOld, Staged, EntryCost, Growth, Free, DirBytes;
    WfParts(g, v, o, {});
    PlacedKeys(g, v, o);
    var (parent, name) := SplitParent(path);
    var f := ResolveDir(g, v, parent).value;
    var p := f.e.first;
    ParentFound(g, v, o, {}, parent);
    CreateDirUnfold(g, v, path);
    DirStage(g, v, o, p);
    var a := AllocMany(g, v, 1, []);
    var c, v1, n := a.cs[0], FillNew(g, a.v, a.cs, []), o.depth[p] + 1;
    var o1 := Own(o.ch[c := [c]], o.depth);
    assert a.cs == [c];
    AttrBits();
    FirstFits(g, c);
    Pow256Values();
    var ns := DirSetOf(g, v1, name, c);
    DirOwns(g, o, p, ns, c);
    FoundStays(g, Table(g, v, o), Table(g, v, o)[c := []], f);
    MakeReady(g, v, v1, o, o1, c, n, p);
    StagedFree(g, v, v1, o, WithDir(o1, c, n), a.cs, p);
    CostIs(g, v, o, p, name);
    InsertExactly(g, v1, WithDir(o1, c, n), {c}, f, ns, None);
  }

  lemma MakeRejectStatus(g: Geo, v: Vol, path: string)
    requires g.Valid() && Shape(g, v) && !(CanMake(g, v, path) && FindFree(g, v, 2).Some?) && (CanMake(g, v, path) ==> Free(v) == 0)
    ensures CreateDir(g, v, path).st == MakeStatus(g, v, path)
  {
    hide Shape, FindFree, Take, InsertOrReplace, ResolveDir, Entries, UpTable, FindIx, SplitParent, NameHash, EntrySet, Encode, NamesEqual, FreeOld, EntryCost, Free;
  }

  /** `create_dir` likewise, with one cluster for the new directory. */
  lemma CreateDirStatus(g: Geo, v: Vol, path: string)
    requires WfVol(g, v)
    ensures g.Valid() && Shape(g, v)
    ensures CreateDir(g, v, path).st == MakeStatus(g, v, path)
  {
    hide Wf, Placed, Table, Shape, Sound, CreateDir, ResolveDir, SplitParent, CanMake, NameStatus, AllocMany, Free, EntryCost, MetaOk, DirsOk, TreeOk, FindFree,
      Take, FillNew, Restored, Made;
    var o :| Wf(g, v, o, {});
    WfValid(g, v, o);
    WfParts(g, v, o, {});
    AllocExactly(g, v, o.ch, 1);
    TakeIsFill(g, v);
    if CanMake(g, v, path) && FindFree(g, v, 2).Some? {
      CanMakeIs(g, v, path);
      var o2, e := CreateDirMakes(g, v, o, path);
      MakeExactly(g, v, o, path);
    } else {
      MakeRejectStatus(g, v, path);
    }
  }

  // --- everything that one call promises ---

  /** v1 and st are what `write_file` owes a caller on volume v. */
  ghost predicate WriteDone(g: Geo, v: Vol, v1: Vol, path: string, contents: seq<byte>, st: int)
    requires g.Valid() && Shape(g, v) && Shape(g, v1)
  {
    && WfVol(g, v1) && st == WriteStatus(g, v, path, |contents|)
    && (st != 0 ==> Untouched(g, v, v1))
    && (st == 0 ==> ReadFile(g, v1, path) == Ok(contents) && ResolveDir(g, v, SplitParent(path).0).Some? && OthersSame(g, v, v1, path, false))
  }

  lemma WriteFileDone(g: Geo, v: Vol, path: string, contents: seq<byte>)
    requires WfVol(g, v) && |contents| < 0x1_0000_0000_0000_0000
    ensures g.Valid() && Shape(g, v)
    ensures var r := WriteFile(g, v, path, contents); WriteDone(g, v, r.v, path, contents, r.st)
  {
    hide WfVol, Shape, WriteFile, WriteStatus, Untouched, ReadFile, ResolveDir, SplitParent, OthersSame;
    WriteFileCorrect(g, v, path, contents);
    WriteFileStatus(g, v, path, contents);
  }

  /** v1 and st are what `create_dir` owes a caller on volume v. */
  ghost predicate MakeDone(g: Geo, v: Vol, v1: Vol, path: string, st: int)
    requires g.Valid() && Shape(g, v) && Shape(g, v1)
  {
    && WfVol(g, v1) && st == MakeStatus(g, v, path)
    && (st != 0 ==> Untouched(g, v, v1))
    && (st == 0 ==> ReadDir(g, v1, path) == Ok([]) && ResolveDir(g, v, SplitParent(path).0).Some? && OthersSame(g, v, v1, path, true))
  }

  lemma CreateDirDone(g: Geo, v: Vol, path: string)
    requires WfVol(g, v)
    ensures g.Valid() && Shape(g, v)
    ensures var r := CreateDir(g, v, path); MakeDone(g, v, r.v, path, r.st)
  {
    hide WfVol, Shape, CreateDir, MakeStatus, Untouched, ReadDir, ResolveDir, SplitParent, OthersSame;
    CreateDirCorrect(g, v, path);
    CreateDirStatus(g, v, path);
  }
}
