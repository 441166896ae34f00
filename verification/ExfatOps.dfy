/** `insert_or_replace_dentries` on a well-formed volume. */
module ExfatOps {
  import opened Bytes
  import opened Utf16
  import opened ExfatChain
  import opened ExfatAlloc
  import opened ExfatSound
  import opened ExfatDentry
  import opened ExfatDir
  import opened ExfatPath
  import opened ExfatFs
  import opened ExfatEdit
  import opened ExfatTree
  import opened ExfatWf

  type Tab = map<nat, seq<DirEntry>>

  /** Same entry, except that a directory's recorded size may differ. */
  ghost predicate SimEntry(a: DirEntry, b: DirEntry) {
    b == a || (a.isDir && b == a.(size := b.size))
  }

  ghost predicate SimTable(t: Tab, t': Tab) {
    t'.Keys == t.Keys && forall d :: d in t ==> |t'[d]| == |t[d]| && forall i :: 0 <= i < |t[d]| ==> SimEntry(t[d][i], t'[d][i])
  }

  /** Chains other than directories and the bitmap keep their clusters and their bytes. */
  ghost predicate Kept(g: Geo, v: Vol, v1: Vol, o: Own, o1: Own) {
    forall j :: j in o.ch && j in o1.ch && j !in o.depth && (g.bitmap.Some? ==> j != g.bitmap.value.first)
      ==> o1.ch[j] == o.ch[j] && SameOn(v, v1, o.ch[j])
  }

  lemma SameOnTrans(v: Vol, v1: Vol, v2: Vol, s: seq<nat>)
    requires SameOn(v, v1, s) && SameOn(v1, v2, s)
    ensures SameOn(v, v2, s)
  {
  }

  lemma KeptTrans(g: Geo, v: Vol, v1: Vol, v2: Vol, o: Own, o1: Own, o2: Own)
    requires Kept(g, v, v1, o, o1) && Kept(g, v1, v2, o1, o2) && o1.depth == o.depth && o2.ch.Keys <= o1.ch.Keys
    ensures Kept(g, v, v2, o, o2)
  {
    hide SameOn;
    forall j | j in o.ch && j in o2.ch && j !in o.depth && (g.bitmap.Some? ==> j != g.bitmap.value.first)
      ensures o2.ch[j] == o.ch[j] && SameOn(v, v2, o.ch[j])
    {
      assert j in o1.ch;
      SameOnTrans(v, v1, v2, o.ch[j]);
    }
  }

  lemma KeptSet(g: Geo, v: Vol, v1: Vol, o: Own, p: nat, b: seq<byte>)
    requires Sound(g, v, o.ch) && p in o.ch && p in o.depth && DirSet(g, v, v1, o.ch[p], b)
    ensures Kept(g, v, v1, o, o)
  {
    hide Sound, DirSet, SameOn;
    forall j | j in o.ch && j !in o.depth ensures SameOn(v, v1, o.ch[j]) {
      OtherChainSame(g, v, v1, o.ch, p, j, b);
    }
  }

  lemma KeptGrow(g: Geo, v: Vol, v1: Vol, o: Own, p: nat, cs: seq<nat>)
    requires Sound(g, v, o.ch) && p in o.ch && p in o.depth && GrownBy(g, v, v1, o.ch, p, cs)
    ensures Kept(g, v, v1, o, Own(o.ch[p := o.ch[p] + cs], o.depth))
  {
    hide Sound, GrownBy, SameOn;
    forall j | j in o.ch && j !in o.depth && (g.bitmap.Some? ==> j != g.bitmap.value.first) ensures SameOn(v, v1, o.ch[j]) {
      GrownSame(g, v, v1, o.ch, p, cs, j);
    }
  }

  lemma KeptSame(g: Geo, v: Vol, o: Own)
    requires forall j :: j in o.ch ==> SameOn(v, v, o.ch[j])
    ensures Kept(g, v, v, o, o)
  {
    hide SameOn;
  }

  // --- the directory that an operation works on ---

  /** f is the root, or an entry found in a directory. */
  ghost predicate FoundIn(g: Geo, t: Tab, f: Found) {
    || f == RootFound(g)
    || (f.parent in t && exists i :: 0 <= i < |t[f.parent]| && t[f.parent][i] == f.e)
  }

  /** A found directory is one of the tree's, and its parent is another. */
  lemma FoundDir(g: Geo, v: Vol, o: Own, pend: set<nat>, f: Found)
    requires Wf(g, v, o, pend) && Placed(g, v, o) && FoundIn(g, Table(g, v, o), f) && f.e.isDir
    ensures f.e.first in o.depth && f.e.first in o.ch
    ensures f != RootFound(g) ==> f.parent in o.depth && f.parent != f.e.first && f.parent >= 2
  {
    hide Sound, DirsOk, Unique, Reached, Table, Placed;
    WfParts(g, v, o, pend);
    PlacedKeys(g, v, o);
    if f != RootFound(g) {
      var t := Table(g, v, o);
      var i :| 0 <= i < |t[f.parent]| && t[f.parent][i] == f.e;
      RTableAt(t, f.parent);
      assert RTable(t)[f.parent][i] == RefOf(f.e);
      DirCluster(g, v, o, f.parent);
    }
  }

  lemma PlacedKeys(g: Geo, v: Vol, o: Own)
    requires Placed(g, v, o)
    ensures o.depth.Keys <= o.ch.Keys
  {
  }

  lemma DirCluster(g: Geo, v: Vol, o: Own, d: nat)
    requires Sound(g, v, o.ch) && Placed(g, v, o) && d in o.depth
    ensures d >= 2
  {
    hide ClusterIx, ByteIx, FBit, FatExact, BitmapExact, Owned, Disjoint;
    assert IsChain(v.fat, o.ch[d]) && o.ch[d][0] == d;
  }

  // --- room for the new set ---

  lemma {:induction false} CeilCovers(m: nat, bpc: nat)
    requires bpc > 0
    ensures Span(DivCeil(m, bpc), bpc) >= m
    ensures m > 0 ==> DivCeil(m, bpc) > 0
    decreases m
  {
    hide Quot, Rem, Span;
    var q := Quot(m + bpc - 1, bpc);
    SpanQuot(m + bpc - 1, bpc);
    QuotIs(m + bpc - 1, bpc);
    if m > 0 { QuotRemSub(m + bpc - 1, bpc); }
  }

  lemma QuotIs(a: nat, b: nat)
    requires b > 0
    ensures Quot(a, b) == a / b
  {
  }

  // --- the set to be written ---

  datatype NewSet = NewSet(name: string, hash: nat, first: nat, size: nat, attrs: nat) {
    predicate Valid() { LegalName(name) && first < Pow256(4) && size < Pow256(8) && attrs < Pow256(2) }

    function Slots(): nat { SlotsFor(|Encode(name)|) }

    function Data(): (d: seq<byte>)
      requires LegalName(name)
      ensures |d| == 32 * Slots()
    {
      EntrySet(Encode(name), hash, first, size, attrs)
    }

    function Entry(off: nat): DirEntry {
      DirEntry(name, first, size, HasDirAttr(attrs), off, Slots() - 1)
    }
  }

  /** The new entry owns the pending chain, if there is one. */
  ghost predicate Owns(g: Geo, o: Own, pend: set<nat>, p: nat, ns: NewSet) {
    var r := Ref(HasDirAttr(ns.attrs), ns.first);
    && (Live(r) ==> GoodRef(g, r, p, o.ch.Keys, o.depth) && ns.first in pend)
    && (ns.first in pend ==> Live(r))
  }

  lemma OwnsRef(g: Geo, o: Own, pend: set<nat>, p: nat, ns: NewSet, off: nat)
    requires Owns(g, o, pend, p, ns)
    ensures var e := ns.Entry(off);
      && (Live(RefOf(e)) ==> GoodRef(g, RefOf(e), p, o.ch.Keys, o.depth) && e.first in pend)
      && (e.first in pend ==> Live(RefOf(e)))
  {
    hide GoodRef;
  }

  lemma DirChain(g: Geo, v: Vol, o: Own, p: nat)
    requires Sound(g, v, o.ch) && Placed(g, v, o) && p in o.depth
    ensures p in o.ch && IsChain(v.fat, o.ch[p]) && o.ch[p] != [] && o.ch[p][0] == p && InHeap(v.heap, o.ch[p], g.bpc)
    ensures ReadChain(g, v, p) == DirBytes(g, v, o, p) && |DirBytes(g, v, o, p)| == Span(|o.ch[p]|, g.bpc)
    ensures Chain(g, v, p) == o.ch[p]
  {
    hide ClusterIx, ByteIx, FBit, FatExact, BitmapExact, Owned, Disjoint, ReadChain, Walk;
    ReadChainIs(g, v, o.ch, p);
  }

  /** The set written into free slots. */
  lemma InsertAtRoom(g: Geo, v: Vol, o: Own, pend: set<nat>, p: nat, ns: NewSet, off: nat) returns (k: nat)
    requires Wf(g, v, o, pend) && Placed(g, v, o) && p in o.depth && ns.Valid() && Owns(g, o, pend, p, ns)
    requires FreeRun(DirBytes(g, v, o, p), 0, off, ns.Slots())
    ensures g.Valid() && Shape(g, v)
    ensures var w := WriteDir(g, v, p, off, ns.Data(), 0);
      && w.st == 0 && Wf(g, w.v, o, pend - {ns.first}) && Placed(g, w.v, o) && Kept(g, v, w.v, o, o)
      && Table(g, w.v, o).Keys == Table(g, v, o).Keys
      && Table(g, w.v, o) == Table(g, v, o)[p := Table(g, w.v, o)[p]]
      && InsertedAt(Table(g, v, o)[p], Table(g, w.v, o)[p], ns.Entry(off), k)
  {
    hide Sound, Wf, Placed, DirBytes, Table, WfDir, Parse, FreeRun, DirSet, IsChain, InHeap, Shape, WriteDir, Owns, DirsOk, TreeOk, MetaOk,
      InsertedAt, EntrySet, GoodRef, Splice, Kept, Span;
    WfParts(g, v, o, pend);
    DirChain(g, v, o, p);
    WfDirAt(g, v, o, p);
    var b, d := DirBytes(g, v, o, p), ns.Data();
    k := InsertParse(b, off, ns.name, ns.hash, ns.first, ns.size, ns.attrs);
    var w := WriteDir(g, v, p, off, d, 0);
    WriteDirFlat(g, v, o, p, off, d);
    OwnsRef(g, o, pend, p, ns, off);
    WfInsert(g, v, w.v, o, pend, p, Splice(b, off, d), ns.Entry(off), k);
    KeptSet(g, v, w.v, o, p, Splice(b, off, d));
  }

  lemma WriteDirFlat(g: Geo, v: Vol, o: Own, p: nat, off: nat, d: seq<byte>)
    requires Sound(g, v, o.ch) && Placed(g, v, o) && p in o.depth && g.Valid() && Shape(g, v) && off + |d| <= |DirBytes(g, v, o, p)|
    ensures var w := WriteDir(g, v, p, off, d, 0);
      w.st == 0 && DirSet(g, v, w.v, o.ch[p], Splice(DirBytes(g, v, o, p), off, d))
  {
    hide Sound, DirSet, IsChain, InHeap, Shape, WriteDir, Splice, Span, Flat;
    DirChain(g, v, o, p);
    WriteDirEffect(g, v, o.ch[p], off, d, 0);
    assert d[0..] == d;
  }

  // --- no entry of that name yet ---

  ghost function InsTable(t: Tab, p: nat, k: nat, e: DirEntry): Tab
    requires p in t && k <= |t[p]|
  {
    t[p := t[p][..k] + [e] + t[p][k..]]
  }

  lemma SimRefl(t: Tab)
    ensures SimTable(t, t)
  {
  }

  lemma InsertedIs(t: Tab, t': Tab, p: nat, k: nat, e: DirEntry)
    requires p in t && p in t' && t' == t[p := t'[p]] && InsertedAt(t[p], t'[p], e, k)
    ensures k <= |t[p]| && t' == InsTable(t, p, k, e)
  {
  }

  /** What an insertion achieves: the new entry, nothing else changed but recorded directory sizes. */
  ghost predicate Inserted(g: Geo, v: Vol, v1: Vol, o: Own, o1: Own, pend: set<nat>, p: nat, k: nat, e: DirEntry)
    requires Placed(g, v, o) && p in o.depth
  {
    && Wf(g, v1, o1, pend - {e.first}) && Placed(g, v1, o1) && Kept(g, v, v1, o, o1)
    && o1.depth == o.depth && o1.ch.Keys == o.ch.Keys
    && k <= |Table(g, v, o)[p]| && SimTable(InsTable(Table(g, v, o), p, k, e), Table(g, v1, o1))
  }

  /** Room in the directory as it is. */
  lemma InsertHasRoom(g: Geo, v: Vol, o: Own, pend: set<nat>, p: nat, ns: NewSet, off: nat) returns (k: nat)
    requires Wf(g, v, o, pend) && Placed(g, v, o) && p in o.depth && ns.Valid() && Owns(g, o, pend, p, ns)
    requires FreeRun(DirBytes(g, v, o, p), 0, off, ns.Slots())
    ensures g.Valid() && Shape(g, v)
    ensures var w := WriteDir(g, v, p, off, ns.Data(), 0);
      w.st == 0 && Inserted(g, v, w.v, o, o, pend, p, k, ns.Entry(off))
  {
    hide Wf, Placed, DirBytes, Table, FreeRun, WriteDir, Owns, InsertedAt, Kept, InsTable, SimTable;
    k := InsertAtRoom(g, v, o, pend, p, ns, off);
    var w := WriteDir(g, v, p, off, ns.Data(), 0);
    InsertedIs(Table(g, v, o), Table(g, w.v, o), p, k, ns.Entry(off));
    SimRefl(Table(g, w.v, o));
  }

  /** Room after the directory has grown. */
  lemma InsertAfterGrowth(g: Geo, v: Vol, v1: Vol, o: Own, pend: set<nat>, p: nat, cs: seq<nat>, ns: NewSet, off: nat) returns (k: nat)
    requires Wf(g, v, o, pend) && Placed(g, v, o) && p in o.depth && ns.Valid() && Owns(g, o, pend, p, ns)
    requires GrownBy(g, v, v1, o.ch, p, cs)
    requires FreeRun(DirBytes(g, v, o, p) + Zeros(Span(|cs|, g.bpc)), 0, off, ns.Slots())
    ensures g.Valid() && Shape(g, v1)
    ensures var w, o1 := WriteDir(g, v1, p, off, ns.Data(), 0), Own(o.ch[p := o.ch[p] + cs], o.depth);
      && w.st == 0 && Inserted(g, v, w.v, o, o1, pend, p, k, ns.Entry(off))
      && Table(g, w.v, o1) == InsTable(Table(g, v, o), p, k, ns.Entry(off))
  {
    hide Wf, Placed, DirBytes, Table, FreeRun, WriteDir, Owns, InsertedAt, Kept, InsTable, SimTable, GrownBy, Zeros, Span, Sound;
    WfParts(g, v, o, pend);
    PlacedKeys(g, v, o);
    var o1 := Own(o.ch[p := o.ch[p] + cs], o.depth);
    WfGrow(g, v, v1, o, pend, p, cs);
    KeptGrow(g, v, v1, o, p, cs);
    OwnsSame(g, o, o1, pend, p, ns);
    k := InsertAtRoom(g, v1, o1, pend, p, ns, off);
    var w := WriteDir(g, v1, p, off, ns.Data(), 0);
    InsertedIs(Table(g, v1, o1), Table(g, w.v, o1), p, k, ns.Entry(off));
    KeptTrans(g, v, v1, w.v, o, o1, o1);
    SimRefl(Table(g, w.v, o1));
    assert o1.ch.Keys == o.ch.Keys;
  }

  lemma OwnsSame(g: Geo, o: Own, o1: Own, pend: set<nat>, p: nat, ns: NewSet)
    requires Owns(g, o, pend, p, ns) && o1.depth == o.depth && p in o.ch && p in o1.ch && o1.ch == o.ch[p := o1.ch[p]]
    ensures Owns(g, o1, pend, p, ns)
  {
    assert o1.ch.Keys == o.ch.Keys;
  }

  // --- the parent's recorded size ---

  lemma SimUpdate(t: Tab, d: nat, i: nat, size: nat)
    requires d in t && i < |t[d]| && t[d][i].isDir
    ensures SimTable(t, t[d := t[d][i := t[d][i].(size := size)]])
  {
  }

  lemma InsOther(t: Tab, p: nat, k: nat, e: DirEntry, d: nat)
    requires p in t && k <= |t[p]| && d in t && d != p
    ensures d in InsTable(t, p, k, e) && InsTable(t, p, k, e)[d] == t[d]
  {
  }

  /** After growth, the parent directory's own entry records its new size; nothing else changes. */
  lemma SizeUpdated(g: Geo, v: Vol, o: Own, pend: set<nat>, d: nat, i: nat, size: nat, f: Found)
    requires Wf(g, v, o, pend) && Placed(g, v, o) && d in o.depth && i < |Table(g, v, o)[d]| && Table(g, v, o)[d][i] == f.e && f.parent == d
    requires Aligned(f.e.off)
    ensures g.Valid() && Shape(g, v) && f.e.off + SetLen(f.e.sec) <= |DirBytes(g, v, o, d)|
    ensures var v1, t := UpdateLengths(g, v, f, size), Table(g, v, o);
      && Wf(g, v1, o, pend) && Placed(g, v1, o) && Kept(g, v, v1, o, o)
      && Table(g, v1, o) == t[d := t[d][i := f.e.(size := NewSize(DirBytes(g, v, o, d), f.e, size))]]
  {
    hide Wf, Placed, DirBytes, Table, Kept, UpdateLengths, Sound, WfDir, Parse, DirsOk, TreeOk, MetaOk, IsChain, InHeap, DirSet, Span, Shape, LengthsAt, NewSize;
    WfParts(g, v, o, pend);
    DirChain(g, v, o, d);
    WfDirAt(g, v, o, d);
    var b := DirBytes(g, v, o, d);
    LengthsParse(b, i, size);
    UpdateLengthsBytes(g, v, o, d, f, size);
    var v1 := UpdateLengths(g, v, f, size);
    WfLengths(g, v, v1, o, pend, d, i, size);
    KeptSet(g, v, v1, o, d, LengthsAt(b, f.e.off, f.e.sec, size));
  }

  lemma UpdateLengthsBytes(g: Geo, v: Vol, o: Own, d: nat, f: Found, size: nat)
    requires Sound(g, v, o.ch) && Placed(g, v, o) && d in o.depth && f.parent == d && Aligned(f.e.off) && g.Valid() && Shape(g, v)
    requires f.e.off + SetLen(f.e.sec) <= |DirBytes(g, v, o, d)|
    ensures DirSet(g, v, UpdateLengths(g, v, f, size), o.ch[d], LengthsAt(DirBytes(g, v, o, d), f.e.off, f.e.sec, size))
  {
    hide Sound, DirSet, IsChain, InHeap, Shape, UpdateLengths, LengthsAt, Span, Flat;
    DirChain(g, v, o, d);
    UpdateLengthsEffect(g, v, o.ch[d], f, size);
  }

  // --- case: no entry of that name ---

  lemma InsertUnfold(g: Geo, v: Vol, f: Found, name: string, d: seq<byte>, oldFirst: Option<nat>)
    requires g.Valid() && Shape(g, v) && Aligned(f.e.off) && FindIx(UpTable(g, v), Entries(g, v, f.e.first), name).None?
    ensures var b := ReadChain(g, v, f.e.first);
      var room := EnsureRun(g, v, f.e.first, b, |d| / 32);
      var r := InsertOrReplace(g, v, f, name, d, oldFirst);
      if room.st != 0 then r == Op(room.v, room.st)
      else
        var w := WriteDir(g, room.v, f.e.first, room.off, d, 0);
        if w.st != 0 then r == w
        else r == Op(if room.grown then UpdateDirSize(g, w.v, f) else w.v, 0)
  {
    hide EnsureRun, WriteDir, UpdateDirSize, ReadChain, UpTable, FindIx, Shape, Parse;
  }

  /** How the new set finds room: in place, after growth, or not at all. */
  lemma RoomIs(g: Geo, v: Vol, o: Own, p: nat, n: nat)
    requires Sound(g, v, o.ch) && Placed(g, v, o) && DirsOk(g, v, o) && MetaOk(g, o) && p in o.depth && p in o.ch && n > 0
    ensures g.Valid() && Shape(g, v)
    ensures var b := DirBytes(g, v, o, p); var room := EnsureRun(g, v, p, b, n);
      || (room.st == 0 && !room.grown && room.v == v && FreeRun(b, 0, room.off, n))
      || (room.st == 0 && room.grown && exists cs :: GrownBy(g, v, room.v, o.ch, p, cs) && FreeRun(b + Zeros(Span(|cs|, g.bpc)), 0, room.off, n))
      || (room.st == -28 && Restored(g, v, room.v, o.ch) && Sound(g, room.v, o.ch))
  {
    hide Sound, Placed, DirsOk, MetaOk, DirBytes, WfDir, FreeRun, GrownBy, Restored, Append, Span, Shape, FindFreeRun, FindEod, AllocMany;
    SoundShape(g, v, o.ch);
    WfDirAt(g, v, o, p);
    DirNotMeta(g, o, p);
    var b := DirBytes(g, v, o, p);
    FindFreeRunSpec(b, n);
    if FindFreeRun(b, n).None? {
      var missing := FindEod(b, 0) + 32 * n - |b|;
      var extra := DivCeil(missing, g.bpc);
      CeilCovers(missing, g.bpc);
      AppendSound(g, v, o.ch, p, extra);
      GrowthFits(g, b, extra, n);
    }
  }

  lemma GrowthFits(g: Geo, b: seq<byte>, extra: nat, n: nat)
    requires g.Valid() && WfDir(b) && FindEod(b, 0) + 32 * n <= |b| + Span(extra, g.bpc)
    ensures FreeRun(b + Zeros(Span(extra, g.bpc)), 0, FindEod(b, 0), n)
  {
    hide WfDir, FreeRun, FindEod, Zeros;
    SpanAligned(extra, g.bpc);
    GrownRun(b, Span(extra, g.bpc), n);
  }

  /** The entry of directory f records the length of its chain, when its set has the usual one stream entry. */
  ghost predicate SizeRecorded(g: Geo, v: Vol, v1: Vol, o: Own, f: Found)
    requires Placed(g, v, o) && Placed(g, v1, o)
  {
    && f.parent in o.depth && f.e.first in o.ch && f.e.off + SetLen(f.e.sec) <= |DirBytes(g, v, o, f.parent)|
    && exists i :: 0 <= i < |Table(g, v, o)[f.parent]| && Table(g, v, o)[f.parent][i] == f.e
        && Table(g, v1, o)[f.parent] == Table(g, v, o)[f.parent][i := f.e.(size :=
          NewSize(DirBytes(g, v, o, f.parent), f.e, Span(|o.ch[f.e.first]|, g.bpc)))]
  }

  /** The size update of a grown directory keeps what the insertion achieved, and records the directory's new length. */
  lemma InsertedSized(g: Geo, v: Vol, v1: Vol, o: Own, o1: Own, pend: set<nat>, f: Found, k: nat, e: DirEntry)
    requires Wf(g, v, o, pend) && Placed(g, v, o) && FoundIn(g, Table(g, v, o), f) && f.e.isDir && Aligned(f.e.off) && f.e.first in o.depth
    requires Inserted(g, v, v1, o, o1, pend, f.e.first, k, e)
    requires Table(g, v1, o1) == InsTable(Table(g, v, o), f.e.first, k, e)
    ensures g.Valid() && Shape(g, v1)
    ensures Inserted(g, v, UpdateDirSize(g, v1, f), o, o1, pend, f.e.first, k, e)
    ensures f != RootFound(g) ==> SizeRecorded(g, v1, UpdateDirSize(g, v1, f), o1, f)
  {
    hide Wf, Placed, Table, Kept, SimTable, UpdateLengths, Shape, Chain, Span, NewSize, DirBytes;
    WfParts(g, v1, o1, pend - {e.first});
    if f != RootFound(g) {
      FoundDir(g, v, o, pend, f);
      var t, p := Table(g, v, o), f.e.first;
      var i :| 0 <= i < |t[f.parent]| && t[f.parent][i] == f.e;
      InsOther(t, p, k, e, f.parent);
      DirChain(g, v1, o1, p);
      var size := Span(|Chain(g, v1, p)|, g.bpc);
      SizeUpdated(g, v1, o1, pend - {e.first}, f.parent, i, size, f);
      SimUpdate(InsTable(t, p, k, e), f.parent, i, NewSize(DirBytes(g, v1, o1, f.parent), f.e, size));
      KeptTrans(g, v, v1, UpdateLengths(g, v1, f, size), o, o1, o1);
    }
  }

  /**
   * Inserting a set under a new name: it succeeds with exactly one new entry, or it fails with ENOSPC
   * and the volume is as before.
   */
  lemma InsertNew(g: Geo, v: Vol, o: Own, pend: set<nat>, f: Found, ns: NewSet, oldFirst: Option<nat>) returns (o1: Own, k: nat, off: nat)
    requires Wf(g, v, o, pend) && Placed(g, v, o) && FoundIn(g, Table(g, v, o), f) && f.e.isDir && Aligned(f.e.off) && f.e.first in o.depth
    requires ns.Valid() && Owns(g, o, pend, f.e.first, ns)
    requires g.Valid() && Shape(g, v) && FindIx(UpTable(g, v), Entries(g, v, f.e.first), ns.name).None?
    ensures var r := InsertOrReplace(g, v, f, ns.name, ns.Data(), oldFirst);
      if r.st == 0 then Inserted(g, v, r.v, o, o1, pend, f.e.first, k, ns.Entry(off))
      else r.st == -28 && Restored(g, v, r.v, o.ch) && Sound(g, r.v, o.ch)
  {
    hide Wf, Placed, Table, DirBytes, FoundIn, Owns, Inserted, InsertOrReplace, Restored, Sound, EnsureRun, WriteDir, UpdateDirSize, ReadChain,
      Entries, UpTable, FindIx, FreeRun, GrownBy, InsTable, DirsOk, MetaOk, TreeOk, Shape, Zeros, Span, IsChain, InHeap, EntrySet, Encode;
    WfParts(g, v, o, pend);
    PlacedKeys(g, v, o);
    var p, d := f.e.first, ns.Data();
    DirChain(g, v, o, p);
    InsertUnfold(g, v, f, ns.name, d, oldFirst);
    var room := EnsureRun(g, v, p, ReadChain(g, v, p), |d| / 32);
    RoomIs(g, v, o, p, ns.Slots());
    o1, k, off := o, 0, room.off;
    if room.st == 0 && !room.grown {
      k := InsertHasRoom(g, v, o, pend, p, ns, off);
    } else if room.st == 0 {
      var cs :| GrownBy(g, v, room.v, o.ch, p, cs) && FreeRun(DirBytes(g, v, o, p) + Zeros(Span(|cs|, g.bpc)), 0, room.off, ns.Slots());
      o1 := Own(o.ch[p := o.ch[p] + cs], o.depth);
      k := InsertAfterGrowth(g, v, room.v, o, pend, p, cs, ns, off);
      InsertedSized(g, v, WriteDir(g, room.v, p, off, d, 0).v, o, o1, pend, f, k, ns.Entry(off));
    }
  }

  // --- case: an entry of that name exists ---

  lemma ReplaceUnfold(g: Geo, v: Vol, f: Found, name: string, d: seq<byte>, old': DirEntry, oldFirst: Option<nat>)
    requires g.Valid() && Shape(g, v) && Aligned(f.e.off)
    requires var ix := FindIx(UpTable(g, v), Entries(g, v, f.e.first), name);
      ix.Some? && Entries(g, v, f.e.first)[ix.value] == old'
    requires !old'.isDir && |d| / 32 <= 1 + old'.sec
    ensures var w := WriteDir(g, v, f.e.first, old'.off, d, 0);
      InsertOrReplace(g, v, f, name, d, oldFirst) ==
        if w.st != 0 then w else Op(FreeOld(g, MarkLeftover(g, w.v, f.e.first, old', old'.off, |d| / 32), oldFirst), 0)
  {
    hide EnsureRun, WriteDir, UpdateDirSize, ReadChain, UpTable, FindIx, Shape, Parse, FreeOld, MarkLeftover;
  }

  lemma RewriteIs(b: seq<byte>, off: nat, d: seq<byte>, slots: nat, n: nat)
    requires |d| == 32 * n && n <= slots && off + |d| <= |b|
    ensures |d| / 32 == n && Rewrite(b, off, d, slots) == MarkDeleted(Splice(b, off, d), off + 32 * n, slots - n)
  {
  }

  lemma LeftoverIs(g: Geo, v: Vol, p: nat, e: DirEntry, n: nat)
    requires g.Valid() && Shape(g, v) && n <= Count(e.sec)
    ensures MarkLeftover(g, v, p, e, e.off, n) == MarkDir(g, v, p, e.off + 32 * n, Count(e.sec) - n)
  {
  }

  /** Writing over the old set and marking its leftover entries is one rewrite of the directory's bytes. */
  lemma RewriteBytes(g: Geo, v: Vol, o: Own, p: nat, e: DirEntry, d: seq<byte>, n: nat)
    requires Sound(g, v, o.ch) && Placed(g, v, o) && p in o.depth && g.Valid() && Shape(g, v)
    requires |d| == 32 * n && n <= Count(e.sec) && e.off + SetLen(e.sec) <= |DirBytes(g, v, o, p)|
    ensures |d| / 32 == n
    ensures var w := WriteDir(g, v, p, e.off, d, 0);
      && w.st == 0
      && DirSet(g, v, MarkLeftover(g, w.v, p, e, e.off, n), o.ch[p], Rewrite(DirBytes(g, v, o, p), e.off, d, Count(e.sec)))
  {
    hide Sound, DirSet, IsChain, InHeap, Shape, WriteDir, Span, Flat, MarkDir, Splice, MarkDeleted, Rewrite, MarkLeftover;
    DirChain(g, v, o, p);
    var b := DirBytes(g, v, o, p);
    WriteDirFlat(g, v, o, p, e.off, d);
    var w := WriteDir(g, v, p, e.off, d, 0);
    var b1 := Splice(b, e.off, d);
    DirSetHeap(g, v, w.v, o.ch[p], b1);
    MarkDirEffect(g, w.v, o.ch[p], e.off + 32 * n, Count(e.sec) - n);
    LeftoverIs(g, w.v, p, e, n);
    RewriteIs(b, e.off, d, Count(e.sec), n);
    DirSetTrans(g, v, w.v, MarkLeftover(g, w.v, p, e, e.off, n), o.ch[p], b1, Rewrite(b, e.off, d, Count(e.sec)));
  }

  ghost predicate Replaced(g: Geo, v: Vol, v1: Vol, o: Own, pend: set<nat>, p: nat, k: nat, e: DirEntry)
    requires Placed(g, v, o) && p in o.depth
  {
    var t := Table(g, v, o);
    && k < |t[p]|
    && var o1 := Without(o, t[p][k]);
      && Wf(g, v1, o1, pend - {e.first}) && Placed(g, v1, o1) && Kept(g, v, v1, o, o1)
      && Table(g, v1, o1) == t[p := t[p][k := e]]
  }

  lemma KeptDrop(g: Geo, v: Vol, v1: Vol, o: Own, k: nat)
    requires k in o.ch && Sound(g, v, o.ch) && (g.bitmap.Some? ==> k != g.bitmap.value.first) && Freed(g, BmSeq(g, o.ch), v, v1, o.ch[k])
    ensures Kept(g, v, v1, o, Own(o.ch - {k}, o.depth))
  {
    hide Sound, Freed, BmSeq, SameOn;
    forall j | j in o.ch && j != k && (g.bitmap.Some? ==> j != g.bitmap.value.first) ensures SameOn(v, v1, o.ch[j]) {
      FreedSame(g, v, v1, o.ch, k, j);
    }
  }

  /** The entry that a live reference names is a chain in use, no metadata and no directory. */
  lemma OldFile(g: Geo, v: Vol, o: Own, pend: set<nat>, p: nat, k: nat)
    requires Wf(g, v, o, pend) && Placed(g, v, o) && p in o.depth && k < |Table(g, v, o)[p]|
    requires !Table(g, v, o)[p][k].isDir && Table(g, v, o)[p][k].first >= 2
    ensures var c := Table(g, v, o)[p][k].first; c in o.ch && c !in o.depth && c !in Meta(g) && c !in pend
  {
    hide Sound, DirsOk, Unique, Reached, Table, Placed, MetaOk;
    WfParts(g, v, o, pend);
    var t := Table(g, v, o);
    RTableAt(t, p);
    assert RTable(t)[p][k] == RefOf(t[p][k]);
  }

  lemma FreeOldUnfold(g: Geo, v: Vol, c: nat)
    requires g.Valid() && Shape(g, v) && c >= 2
    ensures Clusters(g, Chain(g, v, c)) && FreeOld(g, v, Some(c)) == FreeAll(g, v, Chain(g, v, c))
  {
    hide FreeAll, Shape, Chain, Clusters;
    ChainClusters(g, v, c);
  }

  /** The directory holds the new entry; the old chain, if any, is freed. */
  lemma ReplaceAndDrop(g: Geo, v: Vol, v1: Vol, o: Own, pend: set<nat>, p: nat, k: nat, b: seq<byte>, e: DirEntry)
    requires Wf(g, v, o, pend) && Placed(g, v, o) && p in o.depth && k < |Table(g, v, o)[p]| && !Table(g, v, o)[p][k].isDir
    requires DirSet(g, v, v1, o.ch[p], b) && WfDir(b) && Parse(b) == Table(g, v, o)[p][k := e]
    requires Live(RefOf(e)) ==> GoodRef(g, RefOf(e), p, o.ch.Keys, o.depth) && e.first in pend
    requires e.first in pend ==> Live(RefOf(e))
    ensures g.Valid() && Shape(g, v1)
    ensures var c := Table(g, v, o)[p][k].first;
      Replaced(g, v, FreeOld(g, v1, if c >= 2 then Some(c) else None), o, pend, p, k, e)
  {
    hide Sound, Placed, Table, DirBytes, DirSet, WfDir, Parse, GoodRef, TreeOk, DirsOk, MetaOk, Wf, RTable, Kept, Shape, Freed, FreeAll, Chain;
    WfParts(g, v, o, pend);
    WfReplace(g, v, v1, o, pend, p, k, b, e);
    SoundShape(g, v1, o.ch);
    PlacedKeys(g, v, o);
    KeptSet(g, v, v1, o, p, b);
    var c := Table(g, v, o)[p][k].first;
    if c >= 2 {
      OldFile(g, v, o, pend, p, k);
      NotMetaBitmap(g, c);
      var o1 := Own(o.ch - {c}, o.depth);
      assert o1.ch.Keys == o.ch.Keys - {c};
      WfDrop(g, v1, o, pend - {e.first}, c);
      DropChain(g, v1, o.ch, c);
      FreeOldUnfold(g, v1, c);
      KeptDrop(g, v1, FreeAll(g, v1, o.ch[c]), o, c);
      KeptTrans(g, v, v1, FreeAll(g, v1, o.ch[c]), o, o, o1);
    } else {
      MakeWf(g, v1, o, pend - {e.first});
    }
  }

  /** Replacing a file of an equal name is always in place, and frees exactly the old file's chain. */
  lemma ReplaceOld(g: Geo, v: Vol, o: Own, pend: set<nat>, f: Found, ns: NewSet, k: nat)
    requires Wf(g, v, o, pend) && Placed(g, v, o) && f.e.first in o.depth && Aligned(f.e.off)
    requires ns.Valid() && Owns(g, o, pend, f.e.first, ns) && g.Valid() && Shape(g, v)
    requires k < |Table(g, v, o)[f.e.first]| && !Table(g, v, o)[f.e.first][k].isDir
    requires FindIx(UpTable(g, v), Table(g, v, o)[f.e.first], ns.name) == Some(k)
    ensures var old' := Table(g, v, o)[f.e.first][k];
      var r := InsertOrReplace(g, v, f, ns.name, ns.Data(), if old'.first >= 2 then Some(old'.first) else None);
      r.st == 0 && Replaced(g, v, r.v, o, pend, f.e.first, k, ns.Entry(old'.off))
  {
    hide Wf, Placed, Table, DirBytes, Owns, Replaced, InsertOrReplace, Sound, WriteDir, ReadChain, MarkLeftover, FreeOld, Rewrite,
      UpTable, FindIx, DirsOk, MetaOk, TreeOk, Shape, Span, IsChain, InHeap, EntrySet, Encode, DirSet, WfDir, Parse, GoodRef;
    WfParts(g, v, o, pend);
    var p, d := f.e.first, ns.Data();
    DirChain(g, v, o, p);
    WfDirAt(g, v, o, p);
    var b := DirBytes(g, v, o, p);
    var old' := Table(g, v, o)[p][k];
    var oldFirst := if old'.first >= 2 then Some(old'.first) else None;
    ReplacementFits(UpTable(g, v), b, ns.name);
    ReplaceUnfold(g, v, f, ns.name, d, old', oldFirst);
    ReplaceParse(b, k, ns.name, ns.hash, ns.first, ns.size, ns.attrs);
    RewriteBytes(g, v, o, p, old', d, ns.Slots());
    var v1 := MarkLeftover(g, WriteDir(g, v, p, old'.off, d, 0).v, p, old', old'.off, |d| / 32);
    OwnsRef(g, o, pend, p, ns, old'.off);
    ReplaceAndDrop(g, v, v1, o, pend, p, k, Rewrite(b, old'.off, d, Count(old'.sec)), ns.Entry(old'.off));
  }
}
