/** The allocation stage of `write_file` and `create_dir`, and the rollback of a failed operation. */
module ExfatStage {
  import opened Bytes
  import opened Utf16
  import opened ExfatChain
  import opened ExfatAlloc
  import opened ExfatSound
  import opened ExfatDentry
  import opened ExfatDir
  import opened ExfatPath
  import opened ExfatFs
  import opened ExfatEdit
  import opened ExfatTree
  import opened ExfatWf
  import opened ExfatOps

  // --- claimed clusters, linked and filled ---

  lemma TakenFill(g: Geo, bm: seq<nat>, v: Vol, v1: Vol, v2: Vol, cs: seq<nat>)
    requires g.bpc > 0 && Taken(g, bm, v, v1, cs, {}) && Shape(g, v2) && v2.fat == v1.fat
    requires forall c :: 0 <= c < |v1.heap| && c !in cs ==> v2.heap[c] == v1.heap[c]
    ensures Taken(g, bm, v, v2, cs, {})
  {
    hide ClusterIx, ByteIx;
    forall i | 0 <= i < |bm| ensures v2.heap[bm[i]] == v1.heap[bm[i]] { assert bm[i] in bm; }
  }

  lemma FillTaken(g: Geo, v: Vol, ch: Chains, n: nat, contents: seq<byte>)
    requires Sound(g, v, ch) && n > 0 && AllocMany(g, v, n, []).ok
    ensures var a := AllocMany(g, v, n, []); var v1 := FillNew(g, a.v, a.cs, contents);
      && a.cs != [] && Distinct(a.cs) && Taken(g, BmSeq(g, ch), v, v1, a.cs, {}) && IsChain(v1.fat, a.cs)
      && (forall c: nat :: c in a.cs ==> !Owned(ch, c))
  {
    hide ClusterIx, ByteIx, FBit, BitsFlip, AllocMany, Owned, Sound, LinkFat, IsChain, BmSeq, BmFits;
    SoundShape(g, v, ch);
    var a := AllocMany(g, v, n, []);
    AllocSound(g, v, ch, n);
    TakenLink(g, BmSeq(g, ch), v, a.v, a.cs);
    TakenFill(g, BmSeq(g, ch), v, Link(a.v, a.cs), FillNew(g, a.v, a.cs, contents), a.cs);
  }

  lemma FillBytes(g: Geo, v: Vol, ch: Chains, n: nat, contents: seq<byte>)
    requires Sound(g, v, ch) && AllocMany(g, v, n, []).ok && |contents| <= Span(n, g.bpc)
    ensures var a := AllocMany(g, v, n, []); var v1 := FillNew(g, a.v, a.cs, contents);
      && InHeap(v1.heap, a.cs, g.bpc) && Flat(v1.heap, a.cs, g.bpc) == contents + Zeros(Span(n, g.bpc) - |contents|)
  {
    hide ClusterIx, ByteIx, FBit, BitsFlip, AllocMany, Owned, Sound, LinkFat, BmSeq, Zeros, Flat, Fill, Span;
    SoundShape(g, v, ch);
    var a := AllocMany(g, v, n, []);
    AllocSound(g, v, ch, n);
    NewInHeap(g, a.v, a.cs);
    FlatFill(a.v.heap, a.cs, contents, g.bpc);
  }

  /** Clusters in use, other than the bitmap's, are not touched by claiming. */
  lemma TakenSame(g: Geo, v: Vol, v1: Vol, ch: Chains, cs: seq<nat>, k: nat)
    requires Sound(g, v, ch) && Taken(g, BmSeq(g, ch), v, v1, cs, {}) && k in ch && (g.bitmap.Some? ==> k != g.bitmap.value.first)
    ensures SameOn(v, v1, ch[k])
  {
    hide ClusterIx, ByteIx, FBit, FatExact, BitmapExact, Owned, BmSeq, BitsFlip, BmFits;
    NotBitmap(g, v, ch, k);
    forall c | c in ch[k] ensures c < |v.heap| && c < |v1.heap| && v1.heap[c] == v.heap[c] {
      ChainUsed(v.fat, ch[k], c);
    }
  }

  /** The volume with a new chain in place but no entry for it yet. */
  ghost predicate Staged(g: Geo, v: Vol, v1: Vol, o: Own, cs: seq<nat>)
    requires Placed(g, v, o)
  {
    && g.bpc > 0 && cs != [] && cs[0] !in o.ch
    && var o1 := Own(o.ch[cs[0] := cs], o.depth);
      && Wf(g, v1, o1, {cs[0]}) && Placed(g, v1, o1) && Table(g, v1, o1) == Table(g, v, o) && Kept(g, v, v1, o, o1)
      && Taken(g, BmSeq(g, o.ch), v, v1, cs, {})
  }

  lemma FillStage(g: Geo, v: Vol, o: Own, n: nat, contents: seq<byte>)
    requires g.Valid() && Shape(g, v) && n > 0 && AllocMany(g, v, n, []).ok && Placed(g, v, o) && Wf(g, v, o, {})
    ensures var a := AllocMany(g, v, n, []); Staged(g, v, FillNew(g, a.v, a.cs, contents), o, a.cs)
  {
    hide Wf, Placed, Sound, MetaOk, DirsOk, TreeOk, Table, Shape, Taken, BmSeq, AllocMany, FillNew, SameOn, IsChain;
    WfParts(g, v, o, {});
    FillTaken(g, v, o.ch, n, contents);
    var a := AllocMany(g, v, n, []);
    var v1 := FillNew(g, a.v, a.cs, contents);
    AddChain(g, v, v1, o.ch, a.cs);
    forall j | j in o.ch && (g.bitmap.Some? ==> j != g.bitmap.value.first) ensures SameOn(v, v1, o.ch[j]) {
      TakenSame(g, v, v1, o.ch, a.cs, j);
    }
    forall d | d in o.depth && d in o.ch ensures SameOn(v, v1, o.ch[d]) {
      DirNotMeta(g, o, d);
    }
    WfPend(g, v, v1, o, a.cs);
  }

  // --- rollback ---

  ghost function Unowned(g: Geo, ch: Chains): set<nat> {
    set c: nat | 2 <= c < g.Max() && !Owned(ch, c)
  }

  lemma OwnedMore(ch: Chains, k: nat, s: seq<nat>, c: nat)
    requires k !in ch && Owned(ch, c)
    ensures Owned(ch[k := s], c)
  {
    OwnedAdd(ch, k, s, c);
  }

  /** A failed insertion leaves the claims as they were; releasing them restores the volume. */
  lemma RollbackAll(g: Geo, v: Vol, v1: Vol, v2: Vol, ch: Chains, cs: seq<nat>)
    requires Sound(g, v, ch) && Taken(g, BmSeq(g, ch), v, v1, cs, {}) && cs != [] && cs[0] !in ch
    requires Sound(g, v1, ch[cs[0] := cs]) && Restored(g, v1, v2, ch[cs[0] := cs]) && Sound(g, v2, ch[cs[0] := cs])
    ensures Clusters(g, cs) && Restored(g, v, FreeAll(g, v2, cs), ch) && Sound(g, FreeAll(g, v2, cs), ch)
  {
    hide ClusterIx, ByteIx, FBit, Owned, FatExact, BitmapExact, ChainsOk, Disjoint, FreeAll;
    var ch1 := ch[cs[0] := cs];
    var dirty := Unowned(g, ch1);
    TakenRestored(g, v, v1, v2, ch, cs, dirty);
    forall c: nat | c in dirty ensures !Owned(ch, c) {
      OwnedAdd(ch, cs[0], cs, c);
    }
    RollbackSound(g, v, v2, ch, cs, dirty);
  }

  lemma TakenRestored(g: Geo, v: Vol, v1: Vol, v2: Vol, ch: Chains, cs: seq<nat>, dirty: set<nat>)
    requires Sound(g, v, ch) && Taken(g, BmSeq(g, ch), v, v1, cs, {}) && cs != [] && cs[0] !in ch
    requires Restored(g, v1, v2, ch[cs[0] := cs]) && dirty == Unowned(g, ch[cs[0] := cs])
    ensures Taken(g, BmSeq(g, ch), v, v2, cs, dirty)
  {
    hide ClusterIx, ByteIx, Owned, FatExact, BitmapExact, ChainsOk, Disjoint;
    var bm := BmSeq(g, ch);
    forall i | 0 <= i < |bm| ensures v2.heap[bm[i]] == v1.heap[bm[i]] {
      var k := g.bitmap.value.first;
      assert bm[i] in ch[k];
      OwnedBy(ch, k, bm[i]);
      OwnedMore(ch, cs[0], cs, bm[i]);
    }
  }

  /** Restored volumes are as well formed as before, with the same tree. */
  lemma RestoredWf(g: Geo, v: Vol, v1: Vol, o: Own)
    requires Wf(g, v, o, {}) && Placed(g, v, o) && Restored(g, v, v1, o.ch) && Sound(g, v1, o.ch)
    ensures Wf(g, v1, o, {}) && Placed(g, v1, o) && Table(g, v1, o) == Table(g, v, o)
    ensures forall k :: k in o.ch ==> SameOn(v, v1, o.ch[k])
  {
    hide Wf, Sound, MetaOk, DirsOk, TreeOk, Table, RTable, Restored, SameOn, Placed;
    WfParts(g, v, o, {});
    PlacedKeys(g, v, o);
    forall k | k in o.ch ensures SameOn(v, v1, o.ch[k]) { RestoredSame(g, v, v1, o.ch, k); }
    TableSame(g, v, v1, o, o);
    MakeWf(g, v1, o, {});
  }

  lemma RestoredSame(g: Geo, v: Vol, v1: Vol, ch: Chains, k: nat)
    requires Sound(g, v, ch) && Restored(g, v, v1, ch) && k in ch
    ensures SameOn(v, v1, ch[k])
  {
    hide ClusterIx, ByteIx, FBit, FatExact, BitmapExact, Disjoint, Owned;
    forall c | c in ch[k] ensures c < |v.heap| && c < |v1.heap| && v1.heap[c] == v.heap[c] {
      ChainUsed(v.fat, ch[k], c);
      OwnedBy(ch, k, c);
    }
  }
}
