/** The allocation bitmap and the cluster allocator with its rollback. */
module ExfatAlloc {
  import opened Bytes
  import opened ExfatChain

  // --- the allocation bitmap: section 7.1 of the exFAT specification ---

  /** Which cluster of a chain holds bit i, and at which byte. */
  function ClusterIx(i: nat, bpc: nat): nat
    requires bpc > 0
  {
    i / 8 / bpc
  }

  function ByteIx(i: nat, bpc: nat): (r: nat)
    requires bpc > 0
    ensures r < bpc
  {
    i / 8 % bpc
  }

  /** `extent_abs_off` for the bitmap byte of cluster c: which cluster holds it, and where. */
  function BitPos(g: Geo, v: Vol, c: nat): (r: Option<(nat, nat)>)
    requires g.bpc > 0
    ensures r.Some? ==> 2 <= r.value.0 < |v.fat| && r.value.1 < g.bpc
  {
    if g.bitmap.None? || c < 2 then None
    else
      var chain := Chain(g, v, g.bitmap.value.first);
      var ci := ClusterIx(c - 2, g.bpc);
      if (c - 2) / 8 >= g.bitmap.value.len || ci >= |chain| then None
      else assert chain[ci] in chain; Some((chain[ci], ByteIx(c - 2, g.bpc)))
  }

  /** `bitmap_cluster_allocated`. */
  function BitAt(g: Geo, v: Vol, c: nat): (r: Option<bool>)
    requires g.bpc > 0 && Shape(g, v)
  {
    var p := BitPos(g, v, c);
    if p.None? then None else Some(Bit(v.heap[p.value.0][p.value.1], (c - 2) % 8))
  }

  /** `set_bitmap_cluster_allocated`. */
  function MarkBit(g: Geo, v: Vol, c: nat, on: bool): (r: Vol)
    requires g.bpc > 0 && Shape(g, v)
    ensures Shape(g, r) && r.fat == v.fat
  {
    var p := BitPos(g, v, c);
    if p.None? then v
    else
      var (x, w) := p.value;
      var row: seq<byte> := v.heap[x];
      var b: byte := PutByteBit(row[w], (c - 2) % 8, on);
      var row': seq<byte> := row[w := b];
      v.(heap := v.heap[x := row'])
  }

  /** Bit i of the bytes stored in the chain bm. */
  ghost predicate FBit(heap: seq<seq<byte>>, bm: seq<nat>, bpc: nat, i: nat)
    requires InHeap(heap, bm, bpc) && bpc > 0 && ClusterIx(i, bpc) < |bm|
  {
    Bit(heap[bm[ClusterIx(i, bpc)]][ByteIx(i, bpc)], i % 8)
  }

  /** bm is the bitmap's chain and covers every cluster; empty when the volume has no bitmap. */
  ghost predicate BmFits(g: Geo, v: Vol, bm: seq<nat>)
    requires g.bpc > 0
  {
    if g.bitmap.None? then bm == []
    else
      && IsChain(v.fat, bm) && bm[0] == g.bitmap.value.first
      && (forall c :: 2 <= c < g.Max() ==> HasBit(g, |bm|, c))
  }

  /** The byte of cluster c lies within the bitmap and within its first n clusters. */
  predicate HasBit(g: Geo, n: nat, c: nat)
    requires g.bpc > 0 && c >= 2
  {
    g.bitmap.Some? && (c - 2) / 8 < g.bitmap.value.len && ClusterIx(c - 2, g.bpc) < n
  }

  ghost predicate BitsFlip(g: Geo, h: seq<seq<byte>>, h': seq<seq<byte>>, bm: seq<nat>, cs: seq<nat>, on: bool)
    requires g.bpc > 0 && InHeap(h, bm, g.bpc) && InHeap(h', bm, g.bpc)
  {
    forall i: nat :: ClusterIx(i, g.bpc) < |bm| ==> (FBit(h', bm, g.bpc, i) <==> if i + 2 in cs then on else FBit(h, bm, g.bpc, i))
  }

  lemma BmInHeap(g: Geo, v: Vol, bm: seq<nat>)
    requires g.bpc > 0 && Shape(g, v) && BmFits(g, v, bm)
    ensures InHeap(v.heap, bm, g.bpc)
  {
  }

  lemma BitPosIs(g: Geo, v: Vol, bm: seq<nat>, c: nat)
    requires g.Valid() && Shape(g, v) && BmFits(g, v, bm) && g.bitmap.Some? && 2 <= c < g.Max()
    ensures ClusterIx(c - 2, g.bpc) < |bm|
    ensures BitPos(g, v, c) == Some((bm[ClusterIx(c - 2, g.bpc)], ByteIx(c - 2, g.bpc)))
  {
    hide ClusterIx, ByteIx;
    ChainIs(g, v, bm);
    assert HasBit(g, |bm|, c);
  }

  lemma SamePlace(i: nat, j: nat, d: nat)
    requires d > 0 && ClusterIx(i, d) == ClusterIx(j, d) && ByteIx(i, d) == ByteIx(j, d) && i % 8 == j % 8
    ensures i == j
  {
    assert i / 8 == i / 8 / d * d + i / 8 % d;
    assert j / 8 == j / 8 / d * d + j / 8 % d;
  }

  /** Marking cluster c changes bit c-2 of the bitmap and nothing else of the volume. */
  lemma MarkBitEffect(g: Geo, v: Vol, bm: seq<nat>, c: nat, on: bool)
    requires g.Valid() && Shape(g, v) && BmFits(g, v, bm) && 2 <= c < g.Max()
    ensures var r := MarkBit(g, v, c, on);
      && BmFits(g, r, bm) && InHeap(v.heap, bm, g.bpc) && InHeap(r.heap, bm, g.bpc)
      && (forall x :: 2 <= x < g.Max() && x !in bm ==> r.heap[x] == v.heap[x])
      && BitsFlip(g, v.heap, r.heap, bm, [c], on)
  {
    hide ClusterIx, ByteIx;
    var r := MarkBit(g, v, c, on);
    if g.bitmap.Some? {
      BitPosIs(g, v, bm, c);
      var d := g.bpc;
      forall i: nat | ClusterIx(i, d) < |bm|
        ensures FBit(r.heap, bm, d, i) <==> if i + 2 in [c] then on else FBit(v.heap, bm, d, i)
      {
        if ClusterIx(i, d) == ClusterIx(c - 2, d) && ByteIx(i, d) == ByteIx(c - 2, d) && i % 8 == (c - 2) % 8 {
          SamePlace(i, c - 2, d);
        }
      }
    }
  }

  /** The bitmap's clusters are determined by the bits they hold. */
  lemma BitmapDetermined(g: Geo, h: seq<seq<byte>>, h': seq<seq<byte>>, bm: seq<nat>)
    requires g.bpc > 0 && InHeap(h, bm, g.bpc) && InHeap(h', bm, g.bpc)
    requires forall i: nat :: ClusterIx(i, g.bpc) < |bm| ==> FBit(h', bm, g.bpc, i) == FBit(h, bm, g.bpc, i)
    ensures forall x :: x in bm ==> h'[x] == h[x]
  {
    var d := g.bpc;
    forall ci, w | 0 <= ci < |bm| && 0 <= w < d ensures h'[bm[ci]][w] == h[bm[ci]][w] {
      var k := ci * d + w;
      DivUnique(k, d, ci, w);
      forall j: nat | j < 8 ensures Bit(h'[bm[ci]][w], j) == Bit(h[bm[ci]][w], j) {
        var i := 8 * k + j;
        assert i / 8 == k && i % 8 == j;
        assert FBit(h', bm, d, i) == FBit(h, bm, d, i);
      }
      Pow2Eight();
      BitsDetermine(h'[bm[ci]][w], h[bm[ci]][w], 8);
    }
    forall x | x in bm ensures h'[x] == h[x] {
      var ci :| 0 <= ci < |bm| && bm[ci] == x;
      assert |h'[x]| == |h[x]| == d;
    }
  }

  // --- the allocator ---

  /** The scan of `alloc_cluster`: the first cluster from c on that is free in FAT and bitmap. */
  function FindFree(g: Geo, v: Vol, c: nat): (r: Option<nat>)
    requires g.bpc > 0 && Shape(g, v)
    ensures r.Some? ==> c <= r.value < g.Max() && v.fat[r.value] == FAT_FREE && BitAt(g, v, r.value) != Some(true)
    ensures forall x :: c <= x < (if r.Some? then r.value else g.Max()) ==> v.fat[x] != FAT_FREE || BitAt(g, v, x) == Some(true)
    decreases g.Max() - c
  {
    if c >= g.Max() then None
    else if v.fat[c] == FAT_FREE && BitAt(g, v, c) != Some(true) then Some(c)
    else FindFree(g, v, c + 1)
  }

  /** Claiming cluster c: end-of-chain in the FAT, marked in the bitmap, zero-filled. */
  function Take(g: Geo, v: Vol, c: nat): (r: Vol)
    requires g.bpc > 0 && Shape(g, v) && 2 <= c < g.Max()
    ensures Shape(g, r)
  {
    var v1 := MarkBit(g, v.(fat := v.fat[c := FAT_EOC]), c, true);
    v1.(heap := v1.heap[c := Zeros(g.bpc)])
  }

  /** Releasing cluster c in the FAT and the bitmap. */
  function Release(g: Geo, v: Vol, c: nat): (r: Vol)
    requires g.bpc > 0 && Shape(g, v) && 2 <= c < g.Max()
    ensures Shape(g, r)
  {
    MarkBit(g, v.(fat := v.fat[c := FAT_FREE]), c, false)
  }

  predicate Clusters(g: Geo, cs: seq<nat>) {
    forall i :: 0 <= i < |cs| ==> 2 <= cs[i] < g.Max()
  }

  datatype Alloced = Alloced(v: Vol, cs: seq<nat>, ok: bool)

  /** Calling `alloc_cluster` n times, stopping at the first failure. */
  function AllocMany(g: Geo, v: Vol, n: nat, cs: seq<nat>): (r: Alloced)
    requires g.bpc > 0 && Shape(g, v) && Clusters(g, cs)
    ensures Shape(g, r.v) && Clusters(g, r.cs)
    ensures |r.cs| <= |cs| + n && (r.ok <==> |r.cs| == |cs| + n)
    decreases n
  {
    if n == 0 then Alloced(v, cs, true)
    else
      var c := FindFree(g, v, 2);
      if c.None? then Alloced(v, cs, false)
      else AllocMany(g, Take(g, v, c.value), n - 1, cs + [c.value])
  }

  /** `free_allocated_clusters`, and the loop of `free_chain`. */
  function FreeAll(g: Geo, v: Vol, cs: seq<nat>): (r: Vol)
    requires g.bpc > 0 && Shape(g, v) && Clusters(g, cs)
    ensures Shape(g, r)
    decreases |cs|
  {
    if cs == [] then v else FreeAll(g, Release(g, v, cs[0]), cs[1..])
  }

  // --- what allocation and release do ---

  /** v1 is v with the clusters cs claimed; only cs, the dirty clusters and the bitmap's bits may differ. */
  ghost predicate Taken(g: Geo, bm: seq<nat>, v: Vol, v1: Vol, cs: seq<nat>, dirty: set<nat>)
    requires g.bpc > 0
  {
    && Shape(g, v) && Shape(g, v1) && BmFits(g, v, bm) && BmFits(g, v1, bm) && Clusters(g, cs)
    && InHeap(v.heap, bm, g.bpc) && InHeap(v1.heap, bm, g.bpc)
    && (forall c :: 0 <= c < g.Max() && c !in cs ==> v1.fat[c] == v.fat[c])
    && (forall c :: c in cs ==> v.fat[c] == FAT_FREE && c !in bm)
    && (forall c :: 2 <= c < g.Max() && c !in cs && c !in bm && c !in dirty ==> v1.heap[c] == v.heap[c])
    && BitsFlip(g, v.heap, v1.heap, bm, cs, true)
  }

  lemma FreeNotInChain(fat: seq<nat>, s: seq<nat>, c: nat)
    requires IsChain(fat, s) && c < |fat| && fat[c] == FAT_FREE
    ensures c !in s
  {
    forall i | 0 <= i < |s| ensures fat[s[i]] != FAT_FREE {
      assert i < |s| - 1 ==> fat[s[i]] == s[i + 1];
    }
  }

  lemma TakeEffect(g: Geo, v: Vol, bm: seq<nat>, c: nat)
    requires g.Valid() && Shape(g, v) && BmFits(g, v, bm) && 2 <= c < g.Max() && v.fat[c] == FAT_FREE
    ensures Taken(g, bm, v, Take(g, v, c), [c], {})
    ensures Take(g, v, c).fat == v.fat[c := FAT_EOC] && Take(g, v, c).heap[c] == Zeros(g.bpc)
  {
    hide ClusterIx, ByteIx;
    if g.bitmap.Some? {
      FreeNotInChain(v.fat, bm, c);
      ChainFrame(v.fat, v.fat[c := FAT_EOC], bm);
    }
    var v0 := v.(fat := v.fat[c := FAT_EOC]);
    MarkBitEffect(g, v0, bm, c, true);
    var v1 := MarkBit(g, v0, c, true);
    var v2 := Take(g, v, c);
    forall i: nat | ClusterIx(i, g.bpc) < |bm|
      ensures FBit(v2.heap, bm, g.bpc, i) == FBit(v1.heap, bm, g.bpc, i)
    {
      assert bm[ClusterIx(i, g.bpc)] in bm;
    }
  }

  /** Claims compose. */
  lemma TakenTrans(g: Geo, bm: seq<nat>, v: Vol, v1: Vol, v2: Vol, cs: seq<nat>, c: nat)
    requires g.bpc > 0 && Taken(g, bm, v, v1, cs, {}) && Taken(g, bm, v1, v2, [c], {}) && c !in cs
    ensures Taken(g, bm, v, v2, cs + [c], {})
  {
    hide ClusterIx, ByteIx, FBit;
    var ds := cs + [c];
    assert forall x :: x in ds <==> x in cs || x in [c];
    assert BitsFlip(g, v.heap, v2.heap, bm, ds, true) by {
      forall i: nat | ClusterIx(i, g.bpc) < |bm|
        ensures FBit(v2.heap, bm, g.bpc, i) <==> if i + 2 in ds then true else FBit(v.heap, bm, g.bpc, i)
      {
        assert FBit(v2.heap, bm, g.bpc, i) <==> if i + 2 in [c] then true else FBit(v1.heap, bm, g.bpc, i);
        assert FBit(v1.heap, bm, g.bpc, i) <==> if i + 2 in cs then true else FBit(v.heap, bm, g.bpc, i);
      }
    }
  }

  /** The clusters that n allocations hand out: fresh, distinct, terminated, zero-filled. */
  ghost predicate Fresh(g: Geo, v: Vol, v1: Vol, cs: seq<nat>)
    requires Shape(g, v) && Shape(g, v1) && Clusters(g, cs)
  {
    && Distinct(cs)
    && forall i :: 0 <= i < |cs| ==> v1.fat[cs[i]] == FAT_EOC && v1.heap[cs[i]] == Zeros(g.bpc)
  }

  lemma TakenNone(g: Geo, bm: seq<nat>, v: Vol)
    requires g.bpc > 0 && Shape(g, v) && BmFits(g, v, bm)
    ensures Taken(g, bm, v, v, [], {})
  {
    hide ClusterIx, ByteIx;
    BmInHeap(g, v, bm);
  }

  lemma {:induction false} AllocManyEffect(g: Geo, v0: Vol, v: Vol, bm: seq<nat>, n: nat, cs: seq<nat>)
    requires g.Valid() && Taken(g, bm, v0, v, cs, {}) && Fresh(g, v0, v, cs)
    ensures var r := AllocMany(g, v, n, cs);
      Taken(g, bm, v0, r.v, r.cs, {}) && Fresh(g, v0, r.v, r.cs) && cs <= r.cs
    decreases n
  {
    hide ClusterIx, ByteIx, FBit, BitsFlip, BmFits, MarkBit, Shape;
    if n > 0 {
      var c := FindFree(g, v, 2);
      if c.Some? {
        AllocOne(g, v0, v, bm, cs, c.value);
        AllocManyEffect(g, v0, Take(g, v, c.value), bm, n - 1, cs + [c.value]);
      }
    }
  }

  lemma AllocOne(g: Geo, v0: Vol, v: Vol, bm: seq<nat>, cs: seq<nat>, c: nat)
    requires g.Valid() && Taken(g, bm, v0, v, cs, {}) && Fresh(g, v0, v, cs)
    requires 2 <= c < g.Max() && v.fat[c] == FAT_FREE
    ensures Taken(g, bm, v0, Take(g, v, c), cs + [c], {}) && Fresh(g, v0, Take(g, v, c), cs + [c])
  {
    hide ClusterIx, ByteIx, FBit, BitsFlip, MarkBit;
    TakeEffect(g, v, bm, c);
    TakenTrans(g, bm, v0, v, Take(g, v, c), cs, c);
  }

  /** Freed clusters are free in FAT and bitmap; every other FAT entry, bit and cluster is untouched. */
  ghost predicate Freed(g: Geo, bm: seq<nat>, v: Vol, v1: Vol, cs: seq<nat>)
    requires g.bpc > 0
  {
    && Shape(g, v) && Shape(g, v1) && BmFits(g, v, bm) && BmFits(g, v1, bm)
    && InHeap(v.heap, bm, g.bpc) && InHeap(v1.heap, bm, g.bpc)
    && (forall c :: 0 <= c < g.Max() ==> v1.fat[c] == if c in cs then FAT_FREE else v.fat[c])
    && (forall c :: 2 <= c < g.Max() && c !in bm ==> v1.heap[c] == v.heap[c])
    && BitsFlip(g, v.heap, v1.heap, bm, cs, false)
  }

  lemma FreedTrans(g: Geo, bm: seq<nat>, v: Vol, v1: Vol, v2: Vol, c: nat, cs: seq<nat>)
    requires g.bpc > 0 && Freed(g, bm, v, v1, [c]) && Freed(g, bm, v1, v2, cs)
    ensures Freed(g, bm, v, v2, [c] + cs)
  {
    hide ClusterIx, ByteIx, FBit;
    var ds := [c] + cs;
    assert forall x :: x in ds <==> x in [c] || x in cs;
    assert BitsFlip(g, v.heap, v2.heap, bm, ds, false) by {
      forall i: nat | ClusterIx(i, g.bpc) < |bm|
        ensures FBit(v2.heap, bm, g.bpc, i) <==> if i + 2 in ds then false else FBit(v.heap, bm, g.bpc, i)
      {
        assert FBit(v2.heap, bm, g.bpc, i) <==> if i + 2 in cs then false else FBit(v1.heap, bm, g.bpc, i);
        assert FBit(v1.heap, bm, g.bpc, i) <==> if i + 2 in [c] then false else FBit(v.heap, bm, g.bpc, i);
      }
    }
  }

  lemma ReleaseEffect(g: Geo, v: Vol, bm: seq<nat>, c: nat)
    requires g.Valid() && Shape(g, v) && BmFits(g, v, bm) && 2 <= c < g.Max() && c !in bm
    ensures Freed(g, bm, v, Release(g, v, c), [c])
  {
    hide ClusterIx, ByteIx;
    if g.bitmap.Some? {
      ChainFrame(v.fat, v.fat[c := FAT_FREE], bm);
    }
    var v0 := v.(fat := v.fat[c := FAT_FREE]);
    MarkBitEffect(g, v0, bm, c, false);
  }

  lemma FreedNone(g: Geo, bm: seq<nat>, v: Vol)
    requires g.bpc > 0 && Shape(g, v) && BmFits(g, v, bm)
    ensures Freed(g, bm, v, v, [])
  {
    hide ClusterIx, ByteIx;
    BmInHeap(g, v, bm);
  }

  lemma {:induction false} FreeAllEffect(g: Geo, v: Vol, bm: seq<nat>, cs: seq<nat>)
    requires g.Valid() && Shape(g, v) && BmFits(g, v, bm) && Clusters(g, cs)
    requires forall i :: 0 <= i < |cs| ==> cs[i] !in bm
    ensures Freed(g, bm, v, FreeAll(g, v, cs), cs)
    decreases |cs|
  {
    hide ClusterIx, ByteIx, FBit, BitsFlip, BmFits, MarkBit, Shape;
    if cs == [] {
      FreedNone(g, bm, v);
    } else {
      ReleaseEffect(g, v, bm, cs[0]);
      var v1 := Release(g, v, cs[0]);
      FreeAllEffect(g, v1, bm, cs[1..]);
      FreedTrans(g, bm, v, v1, FreeAll(g, v, cs), cs[0], cs[1..]);
      assert cs == [cs[0]] + cs[1..];
    }
  }

  /** The rollback: releasing what was claimed restores the FAT, the bitmap and every cluster that was not claimed. */
  lemma FreeAllUndoes(g: Geo, v: Vol, v1: Vol, bm: seq<nat>, cs: seq<nat>, dirty: set<nat>)
    requires g.Valid() && Taken(g, bm, v, v1, cs, dirty)
    requires forall c :: c in dirty ==> c !in bm
    requires forall c: nat :: c in cs ==> !BitSet(g, v, bm, c)
    ensures var r := FreeAll(g, v1, cs);
      && Shape(g, r) && r.fat == v.fat
      && forall c :: 2 <= c < g.Max() && c !in cs && c !in dirty ==> r.heap[c] == v.heap[c]
  {
    hide ClusterIx, ByteIx, FBit, BmFits;
    FreeAllEffect(g, v1, bm, cs);
    var r := FreeAll(g, v1, cs);
    forall i: nat | ClusterIx(i, g.bpc) < |bm| ensures FBit(r.heap, bm, g.bpc, i) == FBit(v.heap, bm, g.bpc, i) {
      assert FBit(r.heap, bm, g.bpc, i) <==> if i + 2 in cs then false else FBit(v1.heap, bm, g.bpc, i);
      assert FBit(v1.heap, bm, g.bpc, i) <==> if i + 2 in cs then true else FBit(v.heap, bm, g.bpc, i);
      if i + 2 in cs { assert !BitSet(g, v, bm, i + 2); }
    }
    BitmapDetermined(g, v.heap, r.heap, bm);
  }

  /** The bitmap says that cluster c is in use. */
  ghost predicate BitSet(g: Geo, v: Vol, bm: seq<nat>, c: nat)
    requires g.bpc > 0 && InHeap(v.heap, bm, g.bpc)
  {
    c >= 2 && ClusterIx(c - 2, g.bpc) < |bm| && FBit(v.heap, bm, g.bpc, c - 2)
  }
}
