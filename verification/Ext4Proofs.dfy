/** What a read of an ext4 inode returns, byte by byte. */
module Ext4Proofs {
  import opened Bytes
  import opened Ext4

  // --- copying emitted blocks ---

  /** The emitted block b supplies the bytes of logical block l. */
  predicate Supplies(fs: Fs, b: FileBlock, l: nat) {
    b.logical == l && Contents(fs, b).Some?
  }

  lemma CopyAtByte(out: seq<byte>, dst: nat, c: seq<byte>, p: nat)
    requires p < |out|
    ensures CopyAt(out, dst, c)[p] == if dst <= p < dst + |c| then c[p - dst] else out[p]
  {
  }

  lemma OffsApart(a: nat, b: nat, bs: nat)
    ensures a < b ==> BlockOff(a, bs) + bs <= BlockOff(b, bs)
    ensures b < a ==> BlockOff(b, bs) + bs <= BlockOff(a, bs)
  {
    MulMono(a + 1, b, bs);
    MulMono(b + 1, a, bs);
  }

  lemma CopyBlockByte(fs: Fs, out: seq<byte>, b: FileBlock, l: nat, j: nat)
    requires j < fs.bs && BlockOff(l, fs.bs) + j < |out|
    ensures CopyBlock(fs, out, b)[BlockOff(l, fs.bs) + j] ==
      if Supplies(fs, b, l) then Contents(fs, b).value[j] else out[BlockOff(l, fs.bs) + j]
  {
    hide Contents, CopyAt, BlockOff;
    OffsApart(b.logical, l, fs.bs);
    if Contents(fs, b).Some? {
      CopyAtByte(out, BlockOff(b.logical, fs.bs), Contents(fs, b).value, BlockOff(l, fs.bs) + j);
    }
  }

  lemma {:induction false} CopyNothing(fs: Fs, out: seq<byte>, bs: seq<FileBlock>)
    requires forall i :: 0 <= i < |bs| ==> Contents(fs, bs[i]).None?
    ensures CopyAll(fs, out, bs) == out
    decreases |bs|
  {
    if bs != [] { CopyNothing(fs, out, bs[1..]); }
  }

  lemma {:induction false} CopyConcat(fs: Fs, out: seq<byte>, a: seq<FileBlock>, b: seq<FileBlock>)
    ensures CopyAll(fs, out, a + b) == CopyAll(fs, CopyAll(fs, out, a), b)
    decreases |a|
  {
    hide CopyBlock;
    if a == [] {
      assert a + b == b;
    } else {
      assert (a + b)[1..] == a[1..] + b;
      CopyConcat(fs, CopyBlock(fs, out, a[0]), a[1..], b);
    }
  }

  /** Blocks that each name another logical block: at most one of them supplies l. */
  lemma {:induction false} CopyByte(fs: Fs, out: seq<byte>, bs: seq<FileBlock>, first: nat, l: nat, j: nat)
    requires j < fs.bs && BlockOff(l, fs.bs) + j < |out|
    requires forall i :: 0 <= i < |bs| ==> bs[i].logical == first + i
    ensures CopyAll(fs, out, bs)[BlockOff(l, fs.bs) + j] ==
      if first <= l < first + |bs| && Supplies(fs, bs[l - first], l) then Contents(fs, bs[l - first]).value[j]
      else out[BlockOff(l, fs.bs) + j]
    decreases |bs|
  {
    hide Contents, CopyBlock, BlockOff;
    if bs != [] {
      CopyByte(fs, CopyBlock(fs, out, bs[0]), bs[1..], first + 1, l, j);
      CopyBlockByte(fs, out, bs[0], l, j);
    }
  }

  lemma PlaceOf(p: nat, bs: nat, size: nat)
    requires bs > 0 && p < size
    ensures BlockOff(Quot(p, bs), bs) + Rem(p, bs) == p && Quot(p, bs) < DivCeil(size, bs)
  {
    var q, n := p / bs, (size + bs - 1) / bs;
    assert q * bs + p % bs == p;
    assert size + bs - 1 == n * bs + (size + bs - 1) % bs;
    MulMono(n, q, bs);
  }

  // --- the block map ---

  /** Byte j of physical block `blk`, zero for a hole or a block outside the image. */
  function PhysByte(fs: Fs, blk: Option<nat>, j: nat): byte
    requires j < fs.bs
  {
    if blk.None? || BlockSlice(fs, blk.value).None? then 0 else BlockSlice(fs, blk.value).value[j]
  }

  /** Every byte of a block-mapped file is the byte of the block that index arithmetic reaches. */
  lemma ReadMapByte(fs: Fs, ino: Inode, p: nat)
    requires fs.Mounted() && !ino.UsesExtents() && p < Size(fs, ino)
    ensures ReadInode(fs, ino)[p] == PhysByte(fs, Mapped(fs, ino.block, Quot(p, fs.bs)), Rem(p, fs.bs))
  {
    hide Mapped, CopyAll, Size, BlockSlice, Quot, Rem, BlockOff;
    var l, j, bs := Quot(p, fs.bs), Rem(p, fs.bs), Trace(fs, ino);
    PlaceOf(p, fs.bs, Size(fs, ino));
    CopyByte(fs, Zeros(Size(fs, ino)), bs, 0, l, j);
    assert bs[l] == FileBlock(l, Mapped(fs, ino.block, l), true);
  }

  // --- extents ---

  predicate Covers(e: FileExtent, l: nat) { e.logical <= l < e.logical + e.len }

  /** e gives logical block l its contents. */
  predicate Effective(fs: Fs, e: FileExtent, l: nat) {
    Covers(e, l) && e.initialized && BlockSlice(fs, e.physical + (l - e.logical)).Some?
  }

  function ExtentByte(fs: Fs, e: FileExtent, l: nat, j: nat): byte
    requires Effective(fs, e, l) && j < fs.bs
  {
    BlockSlice(fs, e.physical + (l - e.logical)).value[j]
  }

  lemma RunByte(fs: Fs, out: seq<byte>, e: FileExtent, n: nat, l: nat, j: nat)
    requires j < fs.bs && BlockOff(l, fs.bs) + j < |out| && l < n
    ensures CopyAll(fs, out, Run(e, n))[BlockOff(l, fs.bs) + j] ==
      if Effective(fs, e, l) then ExtentByte(fs, e, l, j) else out[BlockOff(l, fs.bs) + j]
  {
    hide CopyAll, BlockSlice, BlockOff;
    CopyByte(fs, out, Run(e, n), e.logical, l, j);
  }

  /** No extent after es[i] is effective at l. */
  ghost predicate LastEffective(fs: Fs, es: seq<FileExtent>, i: nat, l: nat) {
    i < |es| && Effective(fs, es[i], l) && forall k :: i < k < |es| ==> !Effective(fs, es[k], l)
  }

  ghost predicate NoneEffective(fs: Fs, es: seq<FileExtent>, l: nat) {
    forall i :: 0 <= i < |es| ==> !Effective(fs, es[i], l)
  }

  /** x is the byte that the last effective extent supplies, or else y. */
  ghost predicate Supplied(fs: Fs, es: seq<FileExtent>, l: nat, j: nat, x: byte, y: byte)
    requires j < fs.bs
  {
    (NoneEffective(fs, es, l) && x == y) || exists i: nat :: LastEffective(fs, es, i, l) && x == ExtentByte(fs, es[i], l, j)
  }

  lemma {:induction false} TraceByte(fs: Fs, out: seq<byte>, es: seq<FileExtent>, n: nat, emitted: nat, l: nat, j: nat)
    requires j < fs.bs && BlockOff(l, fs.bs) + j < |out| && l < n
    ensures Supplied(fs, es, l, j, CopyAll(fs, out, ExtentTrace(es, n, emitted))[BlockOff(l, fs.bs) + j], out[BlockOff(l, fs.bs) + j])
    decreases |es|
  {
    hide CopyAll, Effective, ExtentByte, Holes, Run, BlockOff;
    if es == [] {
      HolesByte(fs, out, emitted, n);
      assert NoneEffective(fs, es, l);
    } else {
      var e, rest := es[0], es[1..];
      var p := BlockOff(l, fs.bs) + j;
      var h, r := Holes(emitted, Min(e.logical, n)), Run(e, n);
      var t := ExtentTrace(rest, n, Reached(e, n, emitted));
      var mid := CopyAll(fs, out, r);
      CopyConcat(fs, out, h + r, t);
      CopyConcat(fs, out, h, r);
      HolesByte(fs, out, emitted, Min(e.logical, n));
      RunByte(fs, out, e, n, l, j);
      TraceByte(fs, mid, rest, n, Reached(e, n, emitted), l, j);
      SuppliedStep(fs, es, l, j, CopyAll(fs, mid, t)[p], mid[p], out[p]);
    }
  }

  lemma SuppliedStep(fs: Fs, es: seq<FileExtent>, l: nat, j: nat, x: byte, y: byte, z: byte)
    requires j < fs.bs && es != [] && Supplied(fs, es[1..], l, j, x, y)
    requires y == if Effective(fs, es[0], l) then ExtentByte(fs, es[0], l, j) else z
    ensures Supplied(fs, es, l, j, x, z)
  {
    hide Effective, ExtentByte;
    var rest := es[1..];
    if NoneEffective(fs, rest, l) && x == y {
      forall k | 0 < k < |es| ensures !Effective(fs, es[k], l) { assert es[k] == rest[k - 1]; }
      if Effective(fs, es[0], l) { assert LastEffective(fs, es, 0, l); }
    } else {
      var i: nat :| LastEffective(fs, rest, i, l) && x == ExtentByte(fs, rest[i], l, j);
      forall k | i + 1 < k < |es| ensures !Effective(fs, es[k], l) { assert es[k] == rest[k - 1]; }
      assert LastEffective(fs, es, i + 1, l);
    }
  }

  lemma HolesByte(fs: Fs, out: seq<byte>, from: nat, to: nat)
    ensures CopyAll(fs, out, Holes(from, to)) == out
  {
    CopyNothing(fs, out, Holes(from, to));
  }

  /**
   * Every byte of an extent-mapped file is the one that the last extent in sorted order supplies, among those that
   * cover it, are initialized and lie in the image; without such an extent it is zero.
   */
  lemma ReadExtentByte(fs: Fs, ino: Inode, p: nat)
    requires fs.Mounted() && ino.UsesExtents() && p < Size(fs, ino)
    ensures Supplied(fs, Extents(fs, ino), Quot(p, fs.bs), Rem(p, fs.bs), ReadInode(fs, ino)[p], 0)
  {
    hide CopyAll, ExtentTrace, Extents, Supplied, Size, Quot, Rem, BlockOff;
    PlaceOf(p, fs.bs, Size(fs, ino));
    TraceByte(fs, Zeros(Size(fs, ino)), Extents(fs, ino), FileBlocks(fs, ino), 0, Quot(p, fs.bs), Rem(p, fs.bs));
  }

  // --- the sort ---

  ghost predicate Ordered(es: seq<FileExtent>) {
    forall i, k :: 0 <= i < k < |es| ==> es[i].logical <= es[k].logical
  }

  /** The extents that start at block l, in order. */
  ghost function At(es: seq<FileExtent>, l: nat): seq<FileExtent> {
    if es == [] then []
    else At(es[..|es| - 1], l) + if es[|es| - 1].logical == l then [es[|es| - 1]] else []
  }

  lemma {:induction false} InsertKeeps(es: seq<FileExtent>, e: FileExtent)
    ensures multiset(Insert(es, e)) == multiset(es) + multiset{e}
    decreases |es|
  {
    if es != [] && es[|es| - 1].logical > e.logical {
      InsertKeeps(es[..|es| - 1], e);
      assert es == es[..|es| - 1] + [es[|es| - 1]];
    }
  }

  lemma {:induction false} InsertSorts(es: seq<FileExtent>, e: FileExtent, m: nat)
    requires Ordered(es) && e.logical <= m && forall i :: 0 <= i < |es| ==> es[i].logical <= m
    ensures Ordered(Insert(es, e)) && forall i :: 0 <= i < |Insert(es, e)| ==> Insert(es, e)[i].logical <= m
    decreases |es|
  {
    if es != [] && es[|es| - 1].logical > e.logical {
      InsertSorts(es[..|es| - 1], e, es[|es| - 1].logical);
    }
  }

  lemma {:induction false} InsertStable(es: seq<FileExtent>, e: FileExtent, l: nat)
    requires Ordered(es)
    ensures At(Insert(es, e), l) == At(es, l) + if e.logical == l then [e] else []
    decreases |es|
  {
    var r := Insert(es, e);
    if es == [] || es[|es| - 1].logical <= e.logical {
      assert r[..|r| - 1] == es;
    } else {
      var init, last := es[..|es| - 1], es[|es| - 1];
      InsertStable(init, e, l);
      assert r[..|r| - 1] == Insert(init, e);
      if last.logical == l && e.logical != l {
        assert At(init, l) + [] == At(init, l);
      }
    }
  }

  lemma {:induction false} SortKeepsOrder(es: seq<FileExtent>, l: nat)
    ensures Ordered(ByLogical(es)) && At(ByLogical(es), l) == At(es, l)
    decreases |es|
  {
    hide Insert, Ordered;
    if es == [] {
      NothingOrdered();
    } else {
      SortKeepsOrder(es[..|es| - 1], l);
      InsertInOrder(ByLogical(es[..|es| - 1]), es[|es| - 1]);
      InsertStable(ByLogical(es[..|es| - 1]), es[|es| - 1], l);
    }
  }

  lemma NothingOrdered()
    ensures Ordered([])
  {
  }

  lemma InsertInOrder(es: seq<FileExtent>, e: FileExtent)
    requires Ordered(es)
    ensures Ordered(Insert(es, e))
  {
    hide Insert;
    InsertSorts(es, e, if es == [] then e.logical else Max(e.logical, es[|es| - 1].logical));
  }

  lemma {:induction false} SortKeepsAll(es: seq<FileExtent>)
    ensures multiset(ByLogical(es)) == multiset(es)
    decreases |es|
  {
    hide Insert;
    if es != [] {
      SortKeepsAll(es[..|es| - 1]);
      InsertKeeps(ByLogical(es[..|es| - 1]), es[|es| - 1]);
      assert es == es[..|es| - 1] + [es[|es| - 1]];
    }
  }

  /** The sort orders the extents, keeps each of them, and keeps extents with one starting block in their order. */
  lemma SortStable(es: seq<FileExtent>)
    ensures Ordered(ByLogical(es)) && multiset(ByLogical(es)) == multiset(es)
    ensures forall l: nat :: At(ByLogical(es), l) == At(es, l)
  {
    hide ByLogical, Ordered, At;
    SortKeepsAll(es);
    SortKeepsOrder(es, 0);
    forall l: nat ensures At(ByLogical(es), l) == At(es, l) { SortKeepsOrder(es, l); }
  }

  // --- extents that do not overlap ---

  ghost predicate Disjoint(es: seq<FileExtent>) {
    forall i, k, l: nat :: 0 <= i < |es| && 0 <= k < |es| && Covers(es[i], l) && Covers(es[k], l) ==> i == k
  }

  /** With extents that do not overlap, the tree's own order no longer matters: a byte is mapped, or zero. */
  lemma ReadDisjointByte(fs: Fs, ino: Inode, p: nat)
    requires fs.Mounted() && ino.UsesExtents() && p < Size(fs, ino) && Disjoint(Collect(fs, ino.block, 0))
    ensures var l, j, es := Quot(p, fs.bs), Rem(p, fs.bs), Collect(fs, ino.block, 0);
      && (forall e :: e in es && e.initialized && Covers(e, l) ==>
            ReadInode(fs, ino)[p] == PhysByte(fs, Some(e.physical + (l - e.logical)), j))
      && ((forall e :: e in es && e.initialized ==> !Covers(e, l)) ==> ReadInode(fs, ino)[p] == 0)
  {
    hide Collect, ByLogical, Size, ReadInode, Quot, Rem, BlockSlice;
    var l, j, es := Quot(p, fs.bs), Rem(p, fs.bs), Collect(fs, ino.block, 0);
    var sorted := Extents(fs, ino);
    SortStable(es);
    SameMembers(es, sorted);
    ReadExtentByte(fs, ino, p);
    forall e, f | e in es && f in es && Covers(e, l) && Covers(f, l) ensures e == f { }
    if NoneEffective(fs, sorted, l) && ReadInode(fs, ino)[p] == 0 {
      forall e | e in es ensures !Effective(fs, e, l) {
        assert e in sorted;
      }
    } else {
      var i: nat :| LastEffective(fs, sorted, i, l) && ReadInode(fs, ino)[p] == ExtentByte(fs, sorted[i], l, j);
      assert sorted[i] in sorted;
    }
  }

  lemma SameMembers(a: seq<FileExtent>, b: seq<FileExtent>)
    requires multiset(a) == multiset(b)
    ensures forall e :: e in a <==> e in b
  {
    forall e ensures e in a <==> e in b {
      assert e in a <==> e in multiset(a);
      assert e in b <==> e in multiset(b);
    }
  }

  /** Sorted extents that do not overlap: every logical block is emitted once, in order. */
  lemma {:induction false} TraceOnce(es: seq<FileExtent>, n: nat, emitted: nat)
    requires emitted <= n && forall i :: 0 <= i < |es| ==> emitted <= es[i].logical && es[i].len > 0
    requires forall i, k :: 0 <= i < k < |es| ==> es[i].logical + es[i].len <= es[k].logical
    ensures var t := ExtentTrace(es, n, emitted); |t| == n - emitted && forall i :: 0 <= i < |t| ==> t[i].logical == emitted + i
    decreases |es|
  {
    if es != [] && es[0].logical < n {
      var reached := Reached(es[0], n, emitted);
      if reached == n {
        PastEnd(es[1..], n);
      } else {
        TraceOnce(es[1..], n, reached);
      }
    } else if es != [] {
      PastEnd(es[1..], n);
    }
  }

  lemma {:induction false} PastEnd(es: seq<FileExtent>, n: nat)
    requires forall i :: 0 <= i < |es| ==> es[i].logical >= n
    ensures ExtentTrace(es, n, n) == []
    decreases |es|
  {
    if es != [] { PastEnd(es[1..], n); }
  }

  // --- the leaf layout ---

  /** An extent as it lies in a leaf: logical block, length with the unwritten bit, high and low physical block. */
  function ExtentBytes(e: FileExtent): (s: seq<byte>)
    ensures |s| == 12
  {
    Le(e.logical, 4) + Le(e.len + (if e.initialized then 0 else 0x8000), 2) +
    Le(e.physical / 0x1_0000_0000, 2) + Le(e.physical % 0x1_0000_0000, 4)
  }

  function LeafBytes(es: seq<FileExtent>): (s: seq<byte>)
    ensures |s| == 12 * |es|
  {
    if es == [] then [] else LeafBytes(es[..|es| - 1]) + ExtentBytes(es[|es| - 1])
  }

  predicate Encodable(e: FileExtent) {
    e.logical < 0x1_0000_0000 && 0 < e.len < 0x8000 && e.physical < 0x1_0000_0000_0000
  }

  lemma {:induction false} LeafBytesAt(es: seq<FileExtent>, i: nat)
    requires i < |es|
    ensures LeafBytes(es)[12 * i..12 * i + 12] == ExtentBytes(es[i])
    decreases |es|
  {
    hide ExtentBytes;
    var n := |es| - 1;
    if i < n {
      LeafBytesAt(es[..n], i);
      var a := LeafBytes(es[..n]);
      assert (a + ExtentBytes(es[n]))[12 * i..12 * i + 12] == a[12 * i..12 * i + 12];
    }
  }

  lemma FieldAt(b: seq<byte>, base: nat, x: seq<byte>, i: nat, n: nat)
    requires base + |x| <= |b| && b[base..base + |x|] == x && i + n <= |x|
    ensures LeAt(b, base + i, n) == FromLe(x[i..i + n])
  {
    var y := b[base + i..base + i + n];
    forall k | 0 <= k < n ensures y[k] == x[i..i + n][k] {
      assert b[base..base + |x|][i + k] == b[base + (i + k)];
    }
    assert y == x[i..i + n];
  }

  lemma ExtentReads(e: FileExtent, b: seq<byte>, base: nat)
    requires Encodable(e) && base + 12 <= |b| && b[base..base + 12] == ExtentBytes(e)
    ensures LeAt(b, base, 4) == e.logical && LeAt(b, base + 4, 2) == e.len + (if e.initialized then 0 else 0x8000)
    ensures LeAt(b, base + 8, 4) + 0x1_0000_0000 * LeAt(b, base + 6, 2) == e.physical
  {
    hide Le, FromLe, LeAt;
    Pow256Values();
    var raw, hi, lo := e.len + (if e.initialized then 0 else 0x8000), e.physical / 0x1_0000_0000, e.physical % 0x1_0000_0000;
    var x := ExtentBytes(e);
    assert x[0..4] == Le(e.logical, 4) && x[4..6] == Le(raw, 2) && x[6..8] == Le(hi, 2) && x[8..12] == Le(lo, 4);
    FieldAt(b, base, x, 0, 4);
    FieldAt(b, base, x, 4, 2);
    FieldAt(b, base, x, 6, 2);
    FieldAt(b, base, x, 8, 4);
    LeRoundTrip(e.logical, 4);
    LeRoundTrip(raw, 2);
    LeRoundTrip(hi, 2);
    LeRoundTrip(lo, 4);
  }

  /** Collecting a leaf gives back exactly the extents written into it. */
  lemma {:induction false} LeafRoundTrip(es: seq<FileExtent>, head: seq<byte>, post: seq<byte>, i: nat)
    requires |head| == 12 && i <= |es| && forall j :: 0 <= j < |es| ==> Encodable(es[j])
    ensures Leaf(head + LeafBytes(es) + post, i, |es|) == es[i..]
    decreases |es| - i
  {
    hide ExtentBytes, LeafBytes, LeAt, Encodable;
    var b := head + LeafBytes(es) + post;
    if i < |es| {
      LeafBytesAt(es, i);
      var base := 12 + 12 * i;
      assert b[base..base + 12] == LeafBytes(es)[12 * i..12 * i + 12];
      assert Encodable(es[i]);
      ExtentReads(es[i], b, base);
      LenDecodes(es[i]);
      LeafRoundTrip(es, head, post, i + 1);
      assert es[i..] == [es[i]] + es[i + 1..];
    }
  }

  lemma LenDecodes(e: FileExtent)
    requires Encodable(e)
    ensures var raw := e.len + (if e.initialized then 0 else 0x8000); raw % 0x8000 == e.len > 0 && (raw < 0x8000 <==> e.initialized)
  {
  }
}
