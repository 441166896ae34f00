/** Well-formed volumes, and what each stage of an operation does to them. */
module ExfatWf {
  import opened Bytes
  import opened ExfatChain
  import opened ExfatAlloc
  import opened ExfatSound
  import opened ExfatDentry
  import opened ExfatDir
  import opened ExfatPath
  import opened ExfatFs
  import opened ExfatEdit
  import opened ExfatTree

  /** The chains in use, and the depth of every directory below the root. */
  datatype Own = Own(ch: Chains, depth: map<nat, nat>)

  ghost predicate Placed(g: Geo, v: Vol, o: Own) {
    o.depth.Keys <= o.ch.Keys && forall d :: d in o.depth ==> InHeap(v.heap, o.ch[d], g.bpc)
  }

  ghost function DirBytes(g: Geo, v: Vol, o: Own, d: nat): seq<byte>
    requires Placed(g, v, o) && d in o.depth
  {
    Flat(v.heap, o.ch[d], g.bpc)
  }

  /** The entries of every directory. */
  ghost function Table(g: Geo, v: Vol, o: Own): (t: map<nat, seq<DirEntry>>)
    requires Placed(g, v, o)
    ensures t.Keys == o.depth.Keys
  {
    map d | d in o.depth :: Parse(DirBytes(g, v, o, d))
  }

  ghost predicate DirsOk(g: Geo, v: Vol, o: Own)
    requires Placed(g, v, o)
  {
    forall d :: d in o.depth ==> WfDir(DirBytes(g, v, o, d))
  }

  ghost predicate MetaOk(g: Geo, o: Own) {
    && g.root in o.depth && o.depth[g.root] == 0
    && Meta(g) <= o.ch.Keys && Meta(g) !! o.depth.Keys
    && (g.bitmap.Some? && g.upcase.Some? && g.upcase.value.first >= 2 && g.upcase.value.len > 0 ==> g.bitmap.value.first != g.upcase.value.first)
  }

  /**
   * A well-formed volume: chains acyclic and disjoint, exactly the allocated clusters, directories well
   * formed, and every chain but the pending ones metadata, the root, or referenced by exactly one entry
   * of a directory reachable from the root.
   */
  ghost predicate Wf(g: Geo, v: Vol, o: Own, pend: set<nat>) {
    && Sound(g, v, o.ch) && Placed(g, v, o) && MetaOk(g, o) && DirsOk(g, v, o)
    && TreeOk(g, RTable(Table(g, v, o)), o.ch.Keys, o.depth, pend)
  }

  // --- reading a sound volume ---

  lemma ReadChainIs(g: Geo, v: Vol, ch: Chains, k: nat)
    requires Sound(g, v, ch) && k in ch
    ensures InHeap(v.heap, ch[k], g.bpc) && Chain(g, v, k) == ch[k] && ReadChain(g, v, k) == Flat(v.heap, ch[k], g.bpc)
  {
    hide ClusterIx, ByteIx, FBit, Owned, FatExact, BitmapExact, Disjoint, Walk;
    ChainIs(g, v, ch[k]);
    ChainInHeap(g, v, k);
  }

  /** A chain that is not the bitmap's shares no cluster with it. */
  lemma NotBitmap(g: Geo, v: Vol, ch: Chains, k: nat)
    requires Sound(g, v, ch) && k in ch && (g.bitmap.Some? ==> k != g.bitmap.value.first)
    ensures forall c :: c in ch[k] ==> c !in BmSeq(g, ch)
  {
    hide ClusterIx, ByteIx, FBit, Owned, FatExact, BitmapExact;
  }

  ghost predicate SameOn(v: Vol, v1: Vol, s: seq<nat>) {
    forall c :: c in s ==> c < |v.heap| && c < |v1.heap| && v1.heap[c] == v.heap[c]
  }

  lemma FlatSame(g: Geo, v: Vol, v1: Vol, s: seq<nat>)
    requires InHeap(v.heap, s, g.bpc) && SameOn(v, v1, s)
    ensures InHeap(v1.heap, s, g.bpc) && Flat(v1.heap, s, g.bpc) == Flat(v.heap, s, g.bpc)
  {
    forall i | 0 <= i < |s| ensures s[i] < |v1.heap| && v1.heap[s[i]] == v.heap[s[i]] { assert s[i] in s; }
    FlatFrame(v.heap, v1.heap, s, g.bpc);
  }

  predicate HasTable(g: Geo) { g.upcase.Some? && g.upcase.value.first >= 2 && g.upcase.value.len > 0 }

  /** The up-case table reads the same as long as its chain and its clusters do. */
  lemma UpTableSame(g: Geo, v: Vol, v1: Vol, ch: Chains, ch1: Chains)
    requires Sound(g, v, ch) && Sound(g, v1, ch1)
    requires HasTable(g) ==> g.upcase.value.first in ch && g.upcase.value.first in ch1
    requires HasTable(g) ==> ch1[g.upcase.value.first] == ch[g.upcase.value.first] && SameOn(v, v1, ch[g.upcase.value.first])
    ensures UpTable(g, v1) == UpTable(g, v)
  {
    hide Sound, ReadChain, SameOn, Shape;
    SoundShape(g, v, ch);
    SoundShape(g, v1, ch1);
    if HasTable(g) {
      var k := g.upcase.value.first;
      ReadChainIs(g, v, ch, k);
      ReadChainIs(g, v1, ch1, k);
      FlatSame(g, v, v1, ch[k]);
    }
  }

  lemma SoundShape(g: Geo, v: Vol, ch: Chains)
    requires Sound(g, v, ch)
    ensures g.Valid() && Shape(g, v)
  {
  }

  // --- tables under change ---

  /** Directories whose chains and bytes are unchanged keep their entries. */
  lemma TableSame(g: Geo, v: Vol, v1: Vol, o: Own, o1: Own)
    requires Placed(g, v, o) && o1.depth == o.depth && o.depth.Keys <= o1.ch.Keys
    requires forall d :: d in o.depth ==> o1.ch[d] == o.ch[d] && SameOn(v, v1, o.ch[d])
    ensures Placed(g, v1, o1) && Table(g, v1, o1) == Table(g, v, o)
    ensures DirsOk(g, v, o) ==> DirsOk(g, v1, o1)
  {
    hide SameOn, WfDir, Parse;
    forall d | d in o.depth ensures InHeap(v1.heap, o1.ch[d], g.bpc) && Flat(v1.heap, o1.ch[d], g.bpc) == Flat(v.heap, o.ch[d], g.bpc) {
      FlatSame(g, v, v1, o.ch[d]);
    }
  }

  /** The chain holds the same bytes in both volumes. */
  ghost predicate SameFlat(g: Geo, v: Vol, v1: Vol, s: seq<nat>) {
    InHeap(v.heap, s, g.bpc) && InHeap(v1.heap, s, g.bpc) && Flat(v1.heap, s, g.bpc) == Flat(v.heap, s, g.bpc)
  }

  /** When only directory p holds other bytes, only its entries change. */
  lemma TableChange(g: Geo, v: Vol, v1: Vol, o: Own, o1: Own, p: nat, b: seq<byte>)
    requires Placed(g, v, o) && p in o.depth && o1.depth == o.depth && o.depth.Keys <= o1.ch.Keys
    requires forall d :: d in o.depth && d != p ==> o1.ch[d] == o.ch[d] && SameFlat(g, v, v1, o.ch[d])
    requires InHeap(v1.heap, o1.ch[p], g.bpc) && Flat(v1.heap, o1.ch[p], g.bpc) == b
    ensures Placed(g, v1, o1) && Table(g, v1, o1) == Table(g, v, o)[p := Parse(b)] && DirBytes(g, v1, o1, p) == b
    ensures DirsOk(g, v, o) && WfDir(b) ==> DirsOk(g, v1, o1)
  {
    hide WfDir, Parse, Flat, InHeap;
  }

  /** Changing the bytes of one directory changes its entries only. */
  lemma TableSet(g: Geo, v: Vol, v1: Vol, o: Own, p: nat, b: seq<byte>)
    requires Sound(g, v, o.ch) && Placed(g, v, o) && p in o.depth && DirSet(g, v, v1, o.ch[p], b)
    ensures Placed(g, v1, o) && Table(g, v1, o) == Table(g, v, o)[p := Parse(b)] && DirBytes(g, v1, o, p) == b
    ensures DirsOk(g, v, o) && WfDir(b) ==> DirsOk(g, v1, o)
  {
    hide Sound, WfDir, Parse, DirSet, Flat, InHeap, SameOn, DirBytes, Table, DirsOk;
    forall d | d in o.depth && d != p ensures SameFlat(g, v, v1, o.ch[d]) {
      OtherChainSame(g, v, v1, o.ch, p, d, b);
      FlatSame(g, v, v1, o.ch[d]);
    }
    DirSetFlat(g, v, v1, o.ch[p], b);
    TableChange(g, v, v1, o, o, p, b);
  }

  lemma DirSetFlat(g: Geo, v: Vol, v1: Vol, chain: seq<nat>, b: seq<byte>)
    requires DirSet(g, v, v1, chain, b)
    ensures InHeap(v1.heap, chain, g.bpc) && Flat(v1.heap, chain, g.bpc) == b
  {
  }

  /** Setting one chain's bytes leaves every other chain's bytes alone. */
  lemma OtherChainSame(g: Geo, v: Vol, v1: Vol, ch: Chains, p: nat, k: nat, b: seq<byte>)
    requires Sound(g, v, ch) && p in ch && k in ch && k != p && DirSet(g, v, v1, ch[p], b)
    ensures SameOn(v, v1, ch[k])
  {
    hide ClusterIx, ByteIx, FBit, Owned, FatExact, BitmapExact;
    forall c | c in ch[k] ensures c < |v.heap| && c < |v1.heap| && v1.heap[c] == v.heap[c] {
      ChainUsed(v.fat, ch[k], c);
      assert c !in ch[p];
    }
  }

  lemma SoundSet(g: Geo, v: Vol, v1: Vol, ch: Chains, p: nat, b: seq<byte>)
    requires Sound(g, v, ch) && p in ch && DirSet(g, v, v1, ch[p], b) && (g.bitmap.Some? ==> p != g.bitmap.value.first)
    ensures Sound(g, v1, ch)
  {
    hide ClusterIx, ByteIx, FBit, Owned, FatExact, ChainsOk, Disjoint;
    if g.bitmap.Some? {
      BitmapOwned(g, v, ch);
      OtherChainSame(g, v, v1, ch, p, g.bitmap.value.first, b);
    }
    SoundHeap(g, v, v1, ch);
  }

  lemma WfParts(g: Geo, v: Vol, o: Own, pend: set<nat>)
    requires Wf(g, v, o, pend)
    ensures Sound(g, v, o.ch) && Placed(g, v, o) && MetaOk(g, o) && DirsOk(g, v, o) && g.Valid() && Shape(g, v)
    ensures TreeOk(g, RTable(Table(g, v, o)), o.ch.Keys, o.depth, pend)
  {
    hide TreeOk, Placed, DirsOk, MetaOk;
  }

  lemma MakeWf(g: Geo, v: Vol, o: Own, pend: set<nat>)
    requires Sound(g, v, o.ch) && Placed(g, v, o) && MetaOk(g, o) && DirsOk(g, v, o)
    requires TreeOk(g, RTable(Table(g, v, o)), o.ch.Keys, o.depth, pend)
    ensures Wf(g, v, o, pend)
  {
    hide Sound, TreeOk, Placed, DirsOk, MetaOk, RTable, Table;
  }

  lemma DirNotMeta(g: Geo, o: Own, p: nat)
    requires MetaOk(g, o) && p in o.depth
    ensures g.bitmap.Some? ==> p != g.bitmap.value.first
    ensures HasTable(g) ==> p != g.upcase.value.first && g.upcase.value.first in o.ch
    ensures HasTable(g) && g.bitmap.Some? ==> g.bitmap.value.first != g.upcase.value.first
  {
    assert g.bitmap.Some? ==> g.bitmap.value.first in Meta(g);
    assert HasTable(g) ==> g.upcase.value.first in Meta(g);
  }

  lemma RTableUpdate(t: map<nat, seq<DirEntry>>, p: nat, es: seq<DirEntry>)
    requires p in t
    ensures RTable(t[p := es]) == RTable(t)[p := RefsOf(es)]
  {
  }

  lemma RefsInsert(es: seq<DirEntry>, es': seq<DirEntry>, e: DirEntry, k: nat)
    requires InsertedAt(es, es', e, k)
    ensures k <= |RefsOf(es)| && RefsOf(es') == InsRef(RefsOf(es), k, RefOf(e))
  {
  }

  // --- stage: a new chain, not yet referenced ---

  lemma WfPend(g: Geo, v: Vol, v1: Vol, o: Own, cs: seq<nat>)
    requires Wf(g, v, o, {}) && cs != [] && cs[0] !in o.ch && Sound(g, v1, o.ch[cs[0] := cs])
    requires forall d :: d in o.depth && d in o.ch ==> SameOn(v, v1, o.ch[d])
    ensures Wf(g, v1, Own(o.ch[cs[0] := cs], o.depth), {cs[0]})
    ensures Placed(g, v, o) && Placed(g, v1, Own(o.ch[cs[0] := cs], o.depth))
    ensures Table(g, v1, Own(o.ch[cs[0] := cs], o.depth)) == Table(g, v, o)
  {
    hide Sound, SameOn, TreeOk, DirsOk, Table, RTable, Wf;
    WfParts(g, v, o, {});
    var o1 := Own(o.ch[cs[0] := cs], o.depth);
    TableSame(g, v, v1, o, o1);
    TreePend(g, RTable(Table(g, v, o)), o.ch.Keys, o.depth, cs[0]);
    assert o1.ch.Keys == o.ch.Keys + {cs[0]};
    MakeWf(g, v1, o1, {cs[0]});
  }

  // --- stage: a set written into free slots ---

  lemma WfInsert(g: Geo, v: Vol, v1: Vol, o: Own, pend: set<nat>, p: nat, b: seq<byte>, e: DirEntry, k: nat)
    requires Wf(g, v, o, pend) && p in o.depth && Placed(g, v, o)
    requires DirSet(g, v, v1, o.ch[p], b) && WfDir(b) && InsertedAt(Table(g, v, o)[p], Parse(b), e, k)
    requires Live(RefOf(e)) ==> GoodRef(g, RefOf(e), p, o.ch.Keys, o.depth) && e.first in pend
    requires e.first in pend ==> Live(RefOf(e))
    ensures Wf(g, v1, o, pend - {e.first}) && Placed(g, v1, o) && Table(g, v1, o) == Table(g, v, o)[p := Parse(b)]
  {
    hide Sound, TreeOk, DirsOk, Wf, DirSet, WfDir, Parse, InsertedAt, GoodRef, InsRef, RefsOf, DirBytes, Live, MetaOk;
    WfParts(g, v, o, pend);
    DirNotMeta(g, o, p);
    TableSet(g, v, v1, o, p, b);
    SoundSet(g, v, v1, o.ch, p, b);
    var t := Table(g, v, o);
    RTableUpdate(t, p, Parse(b));
    RefsInsert(t[p], Parse(b), e, k);
    TreeInsert(g, RTable(t), o.ch.Keys, o.depth, pend, p, k, RefOf(e));
    MakeWf(g, v1, o, pend - {e.first});
  }

  // --- stage: a directory grown by zero-filled clusters ---

  lemma GrownDir(g: Geo, v: Vol, v1: Vol, ch: Chains, p: nat, cs: seq<nat>)
    requires Sound(g, v, ch) && p in ch && GrownBy(g, v, v1, ch, p, cs) && (g.bitmap.Some? ==> p != g.bitmap.value.first)
    ensures InHeap(v.heap, ch[p], g.bpc) && InHeap(v1.heap, ch[p] + cs, g.bpc)
    ensures Flat(v1.heap, ch[p] + cs, g.bpc) == Flat(v.heap, ch[p], g.bpc) + Zeros(Span(|cs|, g.bpc))
  {
    hide Sound, Owned, BmSeq, Span;
    ReadChainIs(g, v, ch, p);
    GrownSame(g, v, v1, ch, p, cs, p);
    FlatSame(g, v, v1, ch[p]);
    SoundShape(g, v1, ch[p := ch[p] + cs]);
    NewInHeap(g, v1, cs);
    FlatZeros(v1.heap, cs, g.bpc);
    FlatConcat(v1.heap, ch[p], cs, g.bpc);
  }

  lemma NewInHeap(g: Geo, v: Vol, cs: seq<nat>)
    requires Shape(g, v) && Clusters(g, cs)
    ensures InHeap(v.heap, cs, g.bpc)
  {
  }

  lemma GrownSame(g: Geo, v: Vol, v1: Vol, ch: Chains, p: nat, cs: seq<nat>, k: nat)
    requires Sound(g, v, ch) && p in ch && GrownBy(g, v, v1, ch, p, cs) && k in ch && (g.bitmap.Some? ==> k != g.bitmap.value.first)
    ensures SameOn(v, v1, ch[k])
  {
    hide ClusterIx, ByteIx, FBit, FatExact, BitmapExact, Owned, BmSeq;
    NotBitmap(g, v, ch, k);
    forall c | c in ch[k] ensures c < |v.heap| && c < |v1.heap| && v1.heap[c] == v.heap[c] {
      ChainUsed(v.fat, ch[k], c);
      OwnedBy(ch, k, c);
    }
  }

  lemma {:induction false} SpanAligned(n: nat, bpc: nat)
    requires Aligned(bpc)
    ensures Aligned(Span(n, bpc))
  {
    if n > 0 { SpanAligned(n - 1, bpc); }
  }

  lemma TableGrow(g: Geo, v: Vol, v1: Vol, o: Own, p: nat, cs: seq<nat>)
    requires Sound(g, v, o.ch) && MetaOk(g, o) && Placed(g, v, o) && DirsOk(g, v, o) && p in o.depth && GrownBy(g, v, v1, o.ch, p, cs)
    ensures var o1 := Own(o.ch[p := o.ch[p] + cs], o.depth);
      && Placed(g, v1, o1) && DirsOk(g, v1, o1) && Table(g, v1, o1) == Table(g, v, o)
      && DirBytes(g, v1, o1, p) == DirBytes(g, v, o, p) + Zeros(Span(|cs|, g.bpc))
  {
    hide Sound, WfDir, Parse, GrownBy, MetaOk, SameOn, Aligned, Flat, InHeap, Table, DirsOk;
    SoundShape(g, v, o.ch);
    DirNotMeta(g, o, p);
    GrownDir(g, v, v1, o.ch, p, cs);
    forall d | d in o.depth && d != p ensures SameFlat(g, v, v1, o.ch[d]) {
      DirNotMeta(g, o, d);
      GrownSame(g, v, v1, o.ch, p, cs, d);
      FlatSame(g, v, v1, o.ch[d]);
    }
    var b := DirBytes(g, v, o, p);
    var b1 := b + Zeros(Span(|cs|, g.bpc));
    TableChange(g, v, v1, o, Own(o.ch[p := o.ch[p] + cs], o.depth), p, b1);
    ClusterAligned(g);
    SpanAligned(|cs|, g.bpc);
    WfDirAt(g, v, o, p);
    GrowParse(b, Span(|cs|, g.bpc));
  }

  lemma WfDirAt(g: Geo, v: Vol, o: Own, p: nat)
    requires Placed(g, v, o) && DirsOk(g, v, o) && p in o.depth
    ensures WfDir(DirBytes(g, v, o, p)) && Table(g, v, o)[p] == Parse(DirBytes(g, v, o, p))
    ensures Table(g, v, o)[p := Parse(DirBytes(g, v, o, p))] == Table(g, v, o)
  {
    hide WfDir, Parse, Flat;
  }

  lemma ClusterAligned(g: Geo)
    requires g.Valid()
    ensures Aligned(g.bpc)
  {
  }

  lemma WfGrow(g: Geo, v: Vol, v1: Vol, o: Own, pend: set<nat>, p: nat, cs: seq<nat>)
    requires Wf(g, v, o, pend) && Placed(g, v, o) && p in o.depth && GrownBy(g, v, v1, o.ch, p, cs)
    ensures var o1 := Own(o.ch[p := o.ch[p] + cs], o.depth);
      && Wf(g, v1, o1, pend) && Placed(g, v1, o1) && Table(g, v1, o1) == Table(g, v, o)
      && DirBytes(g, v1, o1, p) == DirBytes(g, v, o, p) + Zeros(Span(|cs|, g.bpc))
  {
    hide Sound, TreeOk, Wf, GrownBy, MetaOk, RTable, Table, DirBytes, DirsOk;
    WfParts(g, v, o, pend);
    var o1 := Own(o.ch[p := o.ch[p] + cs], o.depth);
    TableGrow(g, v, v1, o, p, cs);
    assert o1.ch.Keys == o.ch.Keys;
    GrownSound(g, v, v1, o.ch, p, cs);
    MetaSame(g, o, o1);
    MakeWf(g, v1, o1, pend);
  }

  lemma GrownSound(g: Geo, v: Vol, v1: Vol, ch: Chains, p: nat, cs: seq<nat>)
    requires p in ch && Shape(g, v) && GrownBy(g, v, v1, ch, p, cs)
    ensures Sound(g, v1, ch[p := ch[p] + cs])
  {
    hide Sound;
  }

  lemma MetaSame(g: Geo, o: Own, o1: Own)
    requires MetaOk(g, o) && o1.ch.Keys == o.ch.Keys && o1.depth == o.depth
    ensures MetaOk(g, o1)
  {
  }

  lemma GrowParse(b: seq<byte>, m: nat)
    requires WfDir(b) && Aligned(m)
    ensures WfDir(b + Zeros(m)) && Parse(b + Zeros(m)) == Parse(b)
  {
    GrowFrom(b, 0, m);
  }

  // --- stage: the lengths of one entry updated ---

  lemma RefsSame(es: seq<DirEntry>, k: nat, e: DirEntry)
    requires k < |es| && RefOf(e) == RefOf(es[k])
    ensures RefsOf(es[k := e]) == RefsOf(es)
  {
  }

  lemma RTableSame(t: map<nat, seq<DirEntry>>, p: nat, es: seq<DirEntry>)
    requires p in t && RefsOf(es) == RefsOf(t[p])
    ensures RTable(t[p := es]) == RTable(t)
  {
    hide RefsOf;
  }

  lemma WfLengths(g: Geo, v: Vol, v1: Vol, o: Own, pend: set<nat>, d: nat, k: nat, size: nat)
    requires Wf(g, v, o, pend) && Placed(g, v, o) && d in o.depth && k < |Table(g, v, o)[d]|
    requires var e := Table(g, v, o)[d][k];
      && e.off + SetLen(e.sec) <= |DirBytes(g, v, o, d)|
      && DirSet(g, v, v1, o.ch[d], LengthsAt(DirBytes(g, v, o, d), e.off, e.sec, size))
    ensures Wf(g, v1, o, pend) && Placed(g, v1, o)
    ensures var t := Table(g, v, o); Table(g, v1, o) == t[d := t[d][k := t[d][k].(size := NewSize(DirBytes(g, v, o, d), t[d][k], size))]]
  {
    hide Sound, TreeOk, DirsOk, Wf, DirSet, WfDir, Parse, DirBytes, MetaOk, LengthsAt, Table, RTable, RefsOf, NewSize;
    WfParts(g, v, o, pend);
    DirNotMeta(g, o, d);
    WfDirAt(g, v, o, d);
    var t, b := Table(g, v, o), DirBytes(g, v, o, d);
    LengthsParse(b, k, size);
    var e: DirEntry := t[d][k];
    var b' := LengthsAt(b, e.off, e.sec, size);
    TableSet(g, v, v1, o, d, b');
    SoundSet(g, v, v1, o.ch, d, b');
    RefsSame(t[d], k, e.(size := NewSize(b, e, size)));
    RTableSame(t, d, Parse(b'));
    MakeWf(g, v1, o, pend);
  }

  // --- stage: an entry replaced and its old chain freed ---

  lemma RefsReplace(es: seq<DirEntry>, k: nat, e: DirEntry)
    requires k < |es|
    ensures RefsOf(es[k := e]) == RefsOf(es)[k := RefOf(e)] && RefsOf(es)[k] == RefOf(es[k])
  {
  }

  /** The chain that the replaced entry owned, if any, is the only one that is given up. */
  ghost function Without(o: Own, old': DirEntry): Own {
    if Live(RefOf(old')) then Own(o.ch - {old'.first}, o.depth) else o
  }

  lemma WfReplace(g: Geo, v: Vol, v1: Vol, o: Own, pend: set<nat>, p: nat, k: nat, b: seq<byte>, e: DirEntry)
    requires Wf(g, v, o, pend) && Placed(g, v, o) && p in o.depth && k < |Table(g, v, o)[p]| && !Table(g, v, o)[p][k].isDir
    requires DirSet(g, v, v1, o.ch[p], b) && WfDir(b) && Parse(b) == Table(g, v, o)[p][k := e]
    requires Live(RefOf(e)) ==> GoodRef(g, RefOf(e), p, o.ch.Keys, o.depth) && e.first in pend
    requires e.first in pend ==> Live(RefOf(e))
    ensures Sound(g, v1, o.ch) && Placed(g, v1, o) && DirsOk(g, v1, o) && MetaOk(g, o)
    ensures var t := Table(g, v, o);
      && Table(g, v1, o) == t[p := t[p][k := e]]
      && TreeOk(g, RTable(Table(g, v1, o)), Without(o, t[p][k]).ch.Keys, o.depth, pend - {e.first})
  {
    hide Sound, TreeOk, DirsOk, Wf, DirSet, WfDir, Parse, DirBytes, MetaOk, Table, RTable, RefsOf, GoodRef, Live;
    WfParts(g, v, o, pend);
    DirNotMeta(g, o, p);
    var t := Table(g, v, o);
    TableSet(g, v, v1, o, p, b);
    SoundSet(g, v, v1, o.ch, p, b);
    RTableUpdate(t, p, Parse(b));
    RefsReplace(t[p], k, e);
    RTableAt(t, p);
    TreeReplace(g, RTable(t), o.ch.Keys, o.depth, pend, p, k, RefOf(e));
    assert (o.ch - {t[p][k].first}).Keys == o.ch.Keys - {t[p][k].first};
  }

  lemma RTableAt(t: map<nat, seq<DirEntry>>, p: nat)
    requires p in t
    ensures p in RTable(t) && RTable(t)[p] == RefsOf(t[p])
  {
  }

  /** Freeing the replaced file's chain. */
  lemma WfDrop(g: Geo, v: Vol, o: Own, pend: set<nat>, k: nat)
    requires Sound(g, v, o.ch) && Placed(g, v, o) && DirsOk(g, v, o) && MetaOk(g, o)
    requires k in o.ch && k !in o.depth && k !in Meta(g) && TreeOk(g, RTable(Table(g, v, o)), o.ch.Keys - {k}, o.depth, pend)
    ensures Chain(g, v, k) == o.ch[k] && Clusters(g, o.ch[k])
    ensures var v1, o1 := FreeAll(g, v, o.ch[k]), Own(o.ch - {k}, o.depth);
      && Wf(g, v1, o1, pend) && Placed(g, v1, o1) && Table(g, v1, o1) == Table(g, v, o)
      && forall j :: j in o1.ch && j !in Meta(g) ==> SameOn(v, v1, o.ch[j])
  {
    hide Sound, TreeOk, DirsOk, Wf, MetaOk, Table, RTable, FreeAll, SameOn, Freed;
    SoundShape(g, v, o.ch);
    NotMetaBitmap(g, k);
    DropChain(g, v, o.ch, k);
    var v1, o1 := FreeAll(g, v, o.ch[k]), Own(o.ch - {k}, o.depth);
    forall j | j in o1.ch && j !in Meta(g) ensures SameOn(v, v1, o.ch[j]) {
      NotMetaBitmap(g, j);
      FreedSame(g, v, v1, o.ch, k, j);
    }
    forall d | d in o.depth ensures d in o1.ch && o1.ch[d] == o.ch[d] && SameOn(v, v1, o.ch[d]) {
      DirInChains(g, o, d);
    }
    TableSame(g, v, v1, o, o1);
    assert o1.ch.Keys == o.ch.Keys - {k};
    MetaDrop(g, o, k);
    MakeWf(g, v1, o1, pend);
  }

  lemma NotMetaBitmap(g: Geo, k: nat)
    requires k !in Meta(g)
    ensures g.bitmap.Some? ==> k != g.bitmap.value.first
    ensures HasTable(g) ==> k != g.upcase.value.first
  {
    assert g.bitmap.Some? ==> g.bitmap.value.first in Meta(g);
    assert HasTable(g) ==> g.upcase.value.first in Meta(g);
  }

  lemma DirInChains(g: Geo, o: Own, d: nat)
    requires MetaOk(g, o) && d in o.depth
    ensures d !in Meta(g)
  {
  }

  lemma MetaDrop(g: Geo, o: Own, k: nat)
    requires MetaOk(g, o) && k !in o.depth && k !in Meta(g)
    ensures MetaOk(g, Own(o.ch - {k}, o.depth))
  {
  }

  lemma FreedSame(g: Geo, v: Vol, v1: Vol, ch: Chains, k: nat, j: nat)
    requires Sound(g, v, ch) && k in ch && j in ch && j != k && (g.bitmap.Some? ==> j != g.bitmap.value.first)
    requires Freed(g, BmSeq(g, ch), v, v1, ch[k])
    ensures SameOn(v, v1, ch[j])
  {
    hide ClusterIx, ByteIx, FBit, FatExact, BitmapExact, Owned, BmSeq, BitsFlip, BmFits;
    NotBitmap(g, v, ch, j);
    forall c | c in ch[j] ensures c < |v.heap| && c < |v1.heap| && v1.heap[c] == v.heap[c] {
      ChainUsed(v.fat, ch[j], c);
    }
  }
}
