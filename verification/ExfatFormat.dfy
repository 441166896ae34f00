/** A freshly made volume is well formed: the predicate that the guarantees start from is met. */
module ExfatFormat {
  import opened Bytes
  import opened ExfatChain
  import opened ExfatAlloc
  import opened ExfatSound
  import opened ExfatDentry
  import opened ExfatDir
  import opened ExfatFs
  import opened ExfatTree
  import opened ExfatWf
  import opened ExfatMkdir
  import opened ExfatMain

  predicate Fits(bpc: nat, count: nat) {
    bpc % 32 == 0 && 0 < bpc < 0x1_0000_0000_0000_0000 && 2 <= count <= 8 * bpc && count + 2 <= FAT_BAD
  }

  /** The bitmap in cluster 2 and an empty root directory in cluster 3. */
  function EmptyGeo(bpc: nat, count: nat): Geo {
    Geo(512, bpc / 512, bpc, 24, 1 + count / 128, 32, count, 3, Some(Extent(2, count / 8 + 1)), None)
  }

  /** Bits 0 and 1 of the bitmap, for the two clusters in use. */
  function EmptyBitmap(bpc: nat): (s: seq<byte>)
    requires bpc > 0
    ensures |s| == bpc && s[0] == 3 && forall i :: 0 < i < bpc ==> s[i] == 0
  {
    [3] + Zeros(bpc - 1)
  }

  function EmptyVol(bpc: nat, count: nat): (v: Vol)
    requires Fits(bpc, count)
    ensures |v.fat| == |v.heap| == count + 2
    ensures forall c :: 0 <= c < count + 2 ==> v.fat[c] == if c == 2 || c == 3 then FAT_EOC else FAT_FREE
    ensures forall c :: 0 <= c < count + 2 ==> v.heap[c] == if c == 2 then EmptyBitmap(bpc) else Zeros(bpc)
  {
    Vol(seq(count + 2, c => if c == 2 || c == 3 then FAT_EOC else FAT_FREE),
        seq(count + 2, c => if c == 2 then EmptyBitmap(bpc) else Zeros(bpc)))
  }

  ghost function EmptyOwn(): Own { Own(map[2 := [2], 3 := [3]], map[3 := 0]) }

  lemma EmptyShape(bpc: nat, count: nat)
    requires Fits(bpc, count)
    ensures EmptyGeo(bpc, count).Valid() && Shape(EmptyGeo(bpc, count), EmptyVol(bpc, count))
  {
  }

  lemma EmptyOwned(c: nat)
    ensures Owned(EmptyOwn().ch, c) <==> c == 2 || c == 3
  {
    var ch := EmptyOwn().ch;
    if c == 2 { assert c in ch[2]; }
    if c == 3 { assert c in ch[3]; }
  }

  lemma EmptyBits(bpc: nat, count: nat, c: nat)
    requires Fits(bpc, count) && 2 <= c < count + 2
    ensures InHeap(EmptyVol(bpc, count).heap, [2], bpc)
    ensures HasBit(EmptyGeo(bpc, count), 1, c)
    ensures BitSet(EmptyGeo(bpc, count), EmptyVol(bpc, count), [2], c) <==> c == 2 || c == 3
  {
    hide EmptyVol, EmptyBitmap;
    var i := c - 2;
    assert i / 8 < bpc;
    QuotSmall(i / 8, bpc);
    var b: byte := EmptyVol(bpc, count).heap[2][i / 8];
    if i / 8 == 0 { BitsOfThree(i % 8); } else { NoBits(i % 8); }
  }

  lemma QuotSmall(i: nat, bpc: nat)
    requires i < bpc
    ensures i / bpc == 0 && i % bpc == i
  {
    DivUnique(i, bpc, 0, i);
  }

  lemma BitsOfThree(k: nat)
    ensures Bit(3, k) <==> k < 2
  {
    if k >= 2 { assert Bit(3, k) == Bit(1, k - 1) == Bit(0, k - 2); NoBits(k - 2); }
  }

  lemma {:induction false} NoBits(k: nat)
    ensures !Bit(0, k)
  {
    if k > 0 { NoBits(k - 1); }
  }

  lemma LoneChain(fat: seq<nat>, c: nat)
    requires 2 <= c < |fat| && fat[c] == FAT_EOC
    ensures IsChain(fat, [c])
  {
  }

  lemma EmptyApart()
    ensures Disjoint(EmptyOwn().ch)
  {
  }

  lemma EmptyChains(bpc: nat, count: nat)
    requires Fits(bpc, count)
    ensures var fat, ch := EmptyVol(bpc, count).fat, EmptyOwn().ch; ChainsOk(fat, ch) && Disjoint(ch) && FatExact(fat, ch)
  {
    hide EmptyVol, Owned, IsChain, Disjoint;
    var fat, ch := EmptyVol(bpc, count).fat, EmptyOwn().ch;
    LoneChain(fat, 2);
    LoneChain(fat, 3);
    EmptyApart();
    forall c | 2 <= c < |fat| ensures fat[c] != FAT_FREE <==> Owned(ch, c) { EmptyOwned(c); }
  }

  lemma EmptyBitmapExact(bpc: nat, count: nat)
    requires Fits(bpc, count) && Shape(EmptyGeo(bpc, count), EmptyVol(bpc, count))
    ensures BitmapExact(EmptyGeo(bpc, count), EmptyVol(bpc, count), EmptyOwn().ch)
  {
    hide EmptyVol, EmptyBitmap, BitSet, HasBit, Owned, Shape, IsChain;
    var g, v, ch := EmptyGeo(bpc, count), EmptyVol(bpc, count), EmptyOwn().ch;
    assert BmSeq(g, ch) == [2];
    LoneChain(v.fat, 2);
    EmptyBits(bpc, count, 2);
    forall c | 2 <= c < g.Max() ensures HasBit(g, 1, c) && (BitSet(g, v, [2], c) <==> Owned(ch, c)) {
      EmptyOwned(c);
      EmptyBits(bpc, count, c);
    }
  }

  lemma EmptySound(bpc: nat, count: nat)
    requires Fits(bpc, count)
    ensures Sound(EmptyGeo(bpc, count), EmptyVol(bpc, count), EmptyOwn().ch)
  {
    hide EmptyVol, Shape, ChainsOk, Disjoint, FatExact, BitmapExact;
    EmptyShape(bpc, count);
    EmptyChains(bpc, count);
    EmptyBitmapExact(bpc, count);
  }

  /** Every geometry whose bitmap fits one cluster has a well-formed volume. */
  lemma EmptyVolumeIsWf(bpc: nat, count: nat)
    requires Fits(bpc, count)
    ensures WfVol(EmptyGeo(bpc, count), EmptyVol(bpc, count))
  {
    hide EmptyVol, EmptyBitmap, Sound, WfDir, Parse;
    var g, v, o := EmptyGeo(bpc, count), EmptyVol(bpc, count), EmptyOwn();
    EmptySound(bpc, count);
    assert Flat(v.heap, [3], bpc) == Zeros(bpc) by {
      assert [3][1..] == [];
      assert Zeros(bpc) + [] == Zeros(bpc);
    }
    ZeroDir(bpc);
    assert Placed(g, v, o) && DirBytes(g, v, o, 3) == Zeros(bpc);
    assert Table(g, v, o)[3] == [];
    assert Wf(g, v, o, {});
  }
}
