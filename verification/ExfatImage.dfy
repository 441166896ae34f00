/** The volume as one byte vector: where the FAT and the clusters lie in the image. */
module ExfatImage {
  import opened Bytes
  import opened ExfatChain

  function FatBase(g: Geo): nat { g.fatOffset * g.bytesPerSector }

  function FatEnd(g: Geo): nat { (g.fatOffset + g.fatLength) * g.bytesPerSector }

  /** `fat_entry`. */
  function FatEntryAt(g: Geo, data: seq<byte>, c: nat): (r: nat)
    ensures r <= FAT_EOC
  {
    var off := FatBase(g) + c * 4;
    if off + 4 > |data| || off + 4 > FatEnd(g) then FAT_BAD
    else Pow256Values(); FromLe(data[off..off + 4])
  }

  /** `set_fat_entry`. */
  function SetFatAt(g: Geo, data: seq<byte>, c: nat, x: nat): (r: seq<byte>)
    ensures |r| == |data|
  {
    var off := FatBase(g) + c * 4;
    if off + 4 > |data| || off + 4 > FatEnd(g) then data else Splice(data, off, Le(x, 4))
  }

  /** `cluster_offset`. */
  function ClusterOffset(g: Geo, size: nat, c: nat): (r: Option<nat>)
    ensures r.Some? ==> r.value + g.bpc <= size
  {
    if c < 2 || c >= g.Max() then None
    else
      var off := (g.heapOffset + (c - 2) * g.secsPerCluster) * g.bytesPerSector;
      if off + g.bpc <= size then Some(off) else None
  }

  function HeapBase(g: Geo): nat { g.heapOffset * g.bytesPerSector }

  /** Byte offset of cluster c. */
  function Place(g: Geo, c: nat): nat
    requires c >= 2
  {
    HeapBase(g) + Span(c - 2, g.bpc)
  }

  /** The image holds the whole FAT and, after it, the whole cluster heap. */
  predicate Covers(g: Geo, data: seq<byte>) {
    && g.Valid()
    && g.bpc == g.bytesPerSector * g.secsPerCluster
    && FatBase(g) + 4 * g.Max() <= FatEnd(g) <= HeapBase(g)
    && HeapBase(g) + Span(g.count, g.bpc) <= |data|
  }

  lemma {:induction false} SpanAdd(a: nat, b: nat, bpc: nat)
    ensures Span(a + b, bpc) == Span(a, bpc) + Span(b, bpc)
    decreases a
  {
    if a > 0 { SpanAdd(a - 1, b, bpc); }
  }

  lemma PlaceIs(g: Geo, data: seq<byte>, c: nat)
    requires Covers(g, data) && 2 <= c < g.Max()
    ensures ClusterOffset(g, |data|, c) == Some(Place(g, c)) && Place(g, c) + g.bpc <= |data|
  {
    var n := c - 2;
    SpanIs(n, g.bpc);
    Distribute(g.heapOffset, n, g.secsPerCluster, g.bytesPerSector);
    SpanAdd(n, g.count - n, g.bpc);
    assert Span(g.count - n, g.bpc) >= g.bpc;
  }

  lemma Distribute(h: nat, n: nat, s: nat, b: nat)
    ensures (h + n * s) * b == h * b + n * (b * s)
  {
  }

  /** Distinct clusters lie apart. */
  lemma Apart(g: Geo, c: nat, d: nat)
    requires 2 <= c < d
    ensures Place(g, c) + g.bpc <= Place(g, d)
  {
    SpanAdd(c - 2, d - c, g.bpc);
    assert Span(d - c, g.bpc) >= g.bpc;
  }

  ghost function Cluster(g: Geo, data: seq<byte>, c: nat): seq<byte>
    requires Covers(g, data) && c < g.Max()
  {
    if c < 2 then [] else PlaceIs(g, data, c); data[Place(g, c)..Place(g, c) + g.bpc]
  }

  /** The FAT and the clusters that the image holds. */
  ghost function View(g: Geo, data: seq<byte>): (v: Vol)
    requires Covers(g, data)
    ensures |v.fat| == |v.heap| == g.Max()
    ensures forall c :: 0 <= c < g.Max() ==> v.fat[c] == FatEntryAt(g, data, c) && v.heap[c] == Cluster(g, data, c)
  {
    Vol(seq(g.Max(), c requires 0 <= c < g.Max() => FatEntryAt(g, data, c)), seq(g.Max(), c requires 0 <= c < g.Max() => Cluster(g, data, c)))
  }

  lemma ViewShape(g: Geo, data: seq<byte>)
    requires Covers(g, data)
    ensures Shape(g, View(g, data))
  {
    var v := View(g, data);
    forall c | 2 <= c < |v.heap| ensures |v.heap[c]| == g.bpc { PlaceIs(g, data, c); }
  }

  lemma VolEqual(g: Geo, v: Vol, w: Vol)
    requires |v.fat| == |w.fat| && |v.heap| == |w.heap|
    requires forall c :: 0 <= c < |v.fat| ==> v.fat[c] == w.fat[c]
    requires forall c :: 0 <= c < |v.heap| ==> v.heap[c] == w.heap[c]
    ensures v == w
  {
    assert v.fat == w.fat && v.heap == w.heap;
  }

  /** An edit of the image before a range does not show in the range. */
  lemma SliceAfter(data: seq<byte>, off: nat, x: seq<byte>, lo: nat, hi: nat)
    requires off + |x| <= lo <= hi <= |data|
    ensures Splice(data, off, x)[lo..hi] == data[lo..hi]
  {
  }

  lemma SliceBefore(data: seq<byte>, off: nat, x: seq<byte>, lo: nat, hi: nat)
    requires lo <= hi <= off && off + |x| <= |data|
    ensures Splice(data, off, x)[lo..hi] == data[lo..hi]
  {
  }

  lemma SliceInside(data: seq<byte>, off: nat, x: seq<byte>, lo: nat, hi: nat)
    requires lo <= off && off + |x| <= hi <= |data|
    ensures Splice(data, off, x)[lo..hi] == Splice(data[lo..hi], off - lo, x)
  {
  }

  /** A FAT with one entry changed, when it has that entry. */
  function SetEntry(v: Vol, c: nat, x: nat): Vol { if c < |v.fat| then v.(fat := v.fat[c := x]) else v }

  /** Setting a FAT entry changes that entry of the view and nothing else; past the FAT of the heap it changes nothing. */
  lemma SetFatView(g: Geo, data: seq<byte>, c: nat, x: nat)
    requires Covers(g, data) && x <= FAT_EOC
    ensures Covers(g, SetFatAt(g, data, c, x))
    ensures View(g, SetFatAt(g, data, c, x)) == SetEntry(View(g, data), c, x)
  {
    hide Splice, Le, FatBase, FatEnd, Span, View;
    var data1 := SetFatAt(g, data, c, x);
    var off := FatBase(g) + c * 4;
    var v, v1 := View(g, data), View(g, data1);
    forall d | 0 <= d < g.Max() ensures v1.fat[d] == if d == c then x else v.fat[d] {
      FatEntrySet(g, data, c, x, d);
    }
    forall d | 0 <= d < g.Max() ensures v1.heap[d] == v.heap[d] {
      if d >= 2 && data1 != data {
        PlaceIs(g, data, d);
        SliceAfter(data, off, Le(x, 4), Place(g, d), Place(g, d) + g.bpc);
      }
    }
    VolEqual(g, v1, SetEntry(v, c, x));
  }

  lemma FatEntrySet(g: Geo, data: seq<byte>, c: nat, x: nat, d: nat)
    requires Covers(g, data) && d < g.Max() && x <= FAT_EOC
    ensures FatEntryAt(g, SetFatAt(g, data, c, x), d) == if d == c then x else FatEntryAt(g, data, d)
  {
    hide Splice, Le, FatBase, FatEnd, Span;
    var off, pos := FatBase(g) + c * 4, FatBase(g) + d * 4;
    Pow256Values();
    LeRoundTrip(x, 4);
    if d == c {
      SliceInside(data, off, Le(x, 4), pos, pos + 4);
      assert Splice(data[pos..pos + 4], 0, Le(x, 4)) == Le(x, 4);
    } else if d < c {
      if off + 4 <= |data| { SliceBefore(data, off, Le(x, 4), pos, pos + 4); }
    } else {
      SliceAfter(data, off, Le(x, 4), pos, pos + 4);
    }
  }

  /** Writing inside a cluster changes that cluster of the view and nothing else. */
  lemma PokeView(g: Geo, data: seq<byte>, c: nat, within: nat, x: seq<byte>)
    requires Covers(g, data) && 2 <= c < g.Max() && within + |x| <= g.bpc
    ensures Place(g, c) + within + |x| <= |data| && |View(g, data).heap[c]| == g.bpc
    ensures var data1 := Splice(data, Place(g, c) + within, x);
      Covers(g, data1) && View(g, data1) == View(g, data).(heap := Poke(View(g, data).heap, c, within, x))
  {
    hide Splice, FatBase, FatEnd, HeapBase, Span, View, FatEntryAt;
    PlaceIs(g, data, c);
    ViewShape(g, data);
    var off := Place(g, c) + within;
    var data1 := Splice(data, off, x);
    var v, v1 := View(g, data), View(g, data1);
    FatBefore(g, data, off, x);
    forall d | 0 <= d < g.Max() ensures v1.heap[d] == Poke(v.heap, c, within, x)[d] {
      ClusterPoked(g, data, c, within, x, d);
    }
    VolEqual(g, v1, v.(heap := Poke(v.heap, c, within, x)));
  }

  lemma FatBefore(g: Geo, data: seq<byte>, off: nat, x: seq<byte>)
    requires Covers(g, data) && HeapBase(g) <= off && off + |x| <= |data|
    ensures Covers(g, Splice(data, off, x)) && View(g, Splice(data, off, x)).fat == View(g, data).fat
  {
    hide Splice, FatBase, FatEnd, HeapBase, Span, View, FatEntryAt;
    var v, v1 := View(g, data), View(g, Splice(data, off, x));
    forall d | 0 <= d < g.Max() ensures v1.fat[d] == v.fat[d] { FatEntryBefore(g, data, off, x, d); }
    assert v1.fat == v.fat;
  }

  lemma FatEntryBefore(g: Geo, data: seq<byte>, off: nat, x: seq<byte>, d: nat)
    requires Covers(g, data) && d < g.Max() && HeapBase(g) <= off && off + |x| <= |data|
    ensures FatEntryAt(g, Splice(data, off, x), d) == FatEntryAt(g, data, d)
  {
    hide Splice, FatBase, FatEnd, HeapBase, Span;
    var pos := FatBase(g) + d * 4;
    SliceBefore(data, off, x, pos, pos + 4);
  }

  lemma ClusterPoked(g: Geo, data: seq<byte>, c: nat, within: nat, x: seq<byte>, d: nat)
    requires Covers(g, data) && 2 <= c < g.Max() && d < g.Max() && within + |x| <= g.bpc
    requires Place(g, c) + g.bpc <= |data|
    ensures var data1 := Splice(data, Place(g, c) + within, x);
      Covers(g, data1) && |Cluster(g, data, c)| == g.bpc
      && Cluster(g, data1, d) == if d == c then Splice(Cluster(g, data, c), within, x) else Cluster(g, data, d)
  {
    hide Splice, FatBase, FatEnd, HeapBase, Span, Place;
    var off := Place(g, c) + within;
    PlaceIs(g, data, c);
    if d >= 2 {
      PlaceIs(g, data, d);
      var lo := Place(g, d);
      if d == c {
        SliceInside(data, off, x, lo, lo + g.bpc);
      } else if d < c {
        Apart(g, d, c);
        SliceBefore(data, off, x, lo, lo + g.bpc);
      } else {
        Apart(g, c, d);
        SliceAfter(data, off, x, lo, lo + g.bpc);
      }
    }
  }
}
