/** The walks of the ext4 reader, as nested loops that stop at the file's last block. */
module Ext4Walk {
  import opened Bytes
  import opened Ext4

  // --- the block map ---

  /** Entry i below an indirect block of the given level. */
  function Level(fs: Fs, level: nat, b: nat, i: nat): Option<nat>
    requires fs.Mounted()
  {
    if level == 1 then Single(fs, b, i) else if level == 2 then Double(fs, b, i) else if level == 3 then Triple(fs, b, i) else None
  }

  /** out' continues out with the first m entries below b, as far as n entries in all. */
  ghost predicate Extends(fs: Fs, level: nat, b: nat, out: seq<Option<nat>>, out': seq<Option<nat>>, n: nat, m: nat)
    requires fs.Mounted()
  {
    |out'| == Min(n, |out| + m) && out <= out' &&
    forall k :: |out| <= k < |out'| ==> out'[k] == Level(fs, level, b, k - |out|)
  }

  /** A run of m holes. */
  method EmitHoles(fs: Fs, level: nat, out: seq<Option<nat>>, n: nat, m: nat) returns (out': seq<Option<nat>>)
    requires fs.Mounted() && |out| < n
    ensures Extends(fs, level, 0, out, out', n, m)
  {
    out' := out;
    for i := 0 to m
      invariant |out'| == |out| + i < n && out <= out'
      invariant forall k :: |out| <= k < |out'| ==> out'[k] == None
    {
      out' := out' + [None];
      if |out'| == n {
        return;
      }
    }
  }

  /** The entries of one pointer block, or the hole where it is missing. */
  method EmitSingle(fs: Fs, b: nat, out: seq<Option<nat>>, n: nat) returns (out': seq<Option<nat>>)
    requires fs.Mounted() && |out| < n
    ensures Extends(fs, 1, b, out, out', n, fs.Ppb())
  {
    hide Ptr;
    if b == 0 {
      out' := EmitHoles(fs, 1, out, n, fs.Ppb());
      return;
    }
    out' := out;
    for i := 0 to fs.Ppb()
      invariant |out'| == |out| + i < n && out <= out'
      invariant forall k :: |out| <= k < |out'| ==> out'[k] == Single(fs, b, k - |out|)
    {
      out' := out' + [NonZero(Ptr(fs, b, i))];
      if |out'| == n {
        return;
      }
    }
  }

  /** One child's entries added to those of the children before it. */
  lemma ExtendsStep(fs: Fs, level: nat, b: nat, i: nat, width: nat, out: seq<Option<nat>>, mid: seq<Option<nat>>, out': seq<Option<nat>>, n: nat)
    requires fs.Mounted() && b != 0 && (level == 2 || level == 3)
    requires width == if level == 2 then fs.Ppb() else Square(fs.Ppb())
    requires |mid| < n && Extends(fs, level, b, out, mid, n, i * width)
    requires Extends(fs, level - 1, Ptr(fs, b, i), mid, out', n, width)
    ensures Extends(fs, level, b, out, out', n, (i + 1) * width)
  {
    hide Ptr, Single, Square;
    assert (i + 1) * width == i * width + width;
    forall k | |out| <= k < |out'| ensures out'[k] == Level(fs, level, b, k - |out|) {
      if k < |mid| {
        assert out'[k] == mid[k];
      } else {
        assert |mid| == |out| + i * width;
        DivUnique(k - |out|, width, i, k - |mid|);
      }
    }
  }

  method EmitDouble(fs: Fs, b: nat, out: seq<Option<nat>>, n: nat) returns (out': seq<Option<nat>>)
    requires fs.Mounted() && |out| < n
    ensures Extends(fs, 2, b, out, out', n, Square(fs.Ppb()))
  {
    hide Ptr, Extends, Level;
    var p := fs.Ppb();
    if b == 0 {
      out' := EmitHoles(fs, 2, out, n, Square(p));
      return;
    }
    out' := out;
    ExtendsNone(fs, 2, b, out, n);
    for i := 0 to p
      invariant |out'| < n && Extends(fs, 2, b, out, out', n, i * p)
    {
      ghost var mid := out';
      out' := EmitSingle(fs, Ptr(fs, b, i), out', n);
      ExtendsStep(fs, 2, b, i, p, out, mid, out', n);
      ExtendsFull(fs, 2, b, out, out', n, (i + 1) * p, p * p);
      if |out'| == n {
        MulMono(i + 1, p, p);
        return;
      }
    }
  }

  method EmitTriple(fs: Fs, b: nat, out: seq<Option<nat>>, n: nat) returns (out': seq<Option<nat>>)
    requires fs.Mounted() && |out| < n && b != 0
    ensures Extends(fs, 3, b, out, out', n, fs.Ppb() * Square(fs.Ppb()))
  {
    hide Ptr, Extends, Level, Square;
    var p := fs.Ppb();
    var pp := Square(p);
    out' := out;
    ExtendsNone(fs, 3, b, out, n);
    for i := 0 to p
      invariant |out'| < n && Extends(fs, 3, b, out, out', n, i * pp)
    {
      ghost var mid := out';
      out' := EmitDouble(fs, Ptr(fs, b, i), out', n);
      ExtendsStep(fs, 3, b, i, pp, out, mid, out', n);
      ExtendsFull(fs, 3, b, out, out', n, (i + 1) * pp, p * pp);
      if |out'| == n {
        MulMono(i + 1, p, pp);
        return;
      }
    }
  }

  lemma ExtendsNone(fs: Fs, level: nat, b: nat, out: seq<Option<nat>>, n: nat)
    requires fs.Mounted() && |out| < n
    ensures Extends(fs, level, b, out, out, n, 0)
  {
  }

  /** Once n entries are out, it no longer matters how many there would have been. */
  lemma ExtendsFull(fs: Fs, level: nat, b: nat, out: seq<Option<nat>>, out': seq<Option<nat>>, n: nat, m: nat, m': nat)
    requires fs.Mounted() && Extends(fs, level, b, out, out', n, m)
    ensures |out'| == n && m <= m' ==> Extends(fs, level, b, out, out', n, m')
    ensures |out'| <= n
  {
  }

  /** The part of the map that is walked so far. */
  ghost predicate Walked(fs: Fs, root: seq<byte>, out: seq<Option<nat>>)
    requires fs.Mounted()
  {
    forall k :: 0 <= k < |out| ==> out[k] == Mapped(fs, root, k)
  }

  /** The block-map branch of `for_each_file_block`: logical blocks 0..n in order, each once, as the index arithmetic says. */
  method WalkMap(fs: Fs, root: seq<byte>, n: nat) returns (out: seq<Option<nat>>)
    requires fs.Mounted()
    ensures |out| == n && forall k :: 0 <= k < n ==> out[k] == Mapped(fs, root, k)
  {
    hide Single, Double, Triple, Square;
    out := [];
    if n == 0 {
      return;
    }
    for i := 0 to 12
      invariant |out| == i < n && Walked(fs, root, out)
    {
      out := out + [NonZero(LeAt(root, 4 * i, 4))];
      if |out| == n {
        return;
      }
    }
    out := EmitSingle(fs, LeAt(root, 48, 4), out, n);
    if |out| == n {
      return;
    }
    out := EmitDouble(fs, LeAt(root, 52, 4), out, n);
    if |out| == n {
      return;
    }
    if LeAt(root, 56, 4) != 0 {
      out := EmitTriple(fs, LeAt(root, 56, 4), out, n);
    } else {
      TripleHole(fs);
    }
    while |out| < n
      invariant |out| <= n && Walked(fs, root, out)
      invariant |out| == n || forall k :: |out| <= k ==> Mapped(fs, root, k) == None
    {
      out := out + [None];
    }
  }

  lemma TripleHole(fs: Fs)
    requires fs.Mounted()
    ensures forall i: nat :: Triple(fs, 0, i) == None
  {
  }

  // --- the extent tree ---

  /** The entries of a leaf. */
  method CollectLeaf(d: seq<byte>, n: nat, out: seq<FileExtent>) returns (out': seq<FileExtent>)
    ensures out' == out + Leaf(d, 0, n)
  {
    hide LeAt;
    out' := out;
    var i := 0;
    while i < n && 24 + 12 * i <= |d|
      invariant 0 <= i <= n
      invariant out' + Leaf(d, i, n) == out + Leaf(d, 0, n)
    {
      var base := 12 + 12 * i;
      var raw := LeAt(d, base + 4, 2);
      ghost var rest := Leaf(d, i + 1, n);
      if raw % 0x8000 != 0 {
        var e := FileExtent(LeAt(d, base, 4), LeAt(d, base + 8, 4) + 0x1_0000_0000 * LeAt(d, base + 6, 2), raw % 0x8000, raw < 0x8000);
        assert out' + ([e] + rest) == out' + [e] + rest;
        out' := out' + [e];
      } else {
        assert [] + rest == rest;
      }
      i := i + 1;
    }
    assert out' + [] == out';
  }

  /** `extents_collect`, pushing what it finds onto out. */
  method CollectExtents(fs: Fs, d: seq<byte>, depth: nat, out: seq<FileExtent>) returns (out': seq<FileExtent>)
    requires depth <= MAX_EXTENT_TREE_DEPTH + 1
    ensures out' == out + Collect(fs, d, depth)
    decreases MAX_EXTENT_TREE_DEPTH + 1 - depth
  {
    hide Leaf, BlockSlice, LeAt;
    assert out + [] == out;
    if depth > MAX_EXTENT_TREE_DEPTH || |d| < 12 || LeAt(d, 0, 2) != EXT_MAGIC {
      return out;
    }
    var n := Min(LeAt(d, 2, 2), LeAt(d, 4, 2));
    if LeAt(d, 6, 2) == 0 {
      out' := CollectLeaf(d, n, out);
      return;
    }
    out' := out;
    var i := 0;
    while i < n && 24 + 12 * i <= |d|
      invariant 0 <= i <= n
      invariant out' + Index(fs, d, depth, i, n) == out + Index(fs, d, depth, 0, n)
    {
      var base := 12 + 12 * i;
      var child := BlockSlice(fs, LeAt(d, base + 4, 4) + 0x1_0000_0000 * LeAt(d, base + 8, 2));
      ghost var rest := Index(fs, d, depth, i + 1, n);
      if child.Some? {
        ghost var sub := Collect(fs, child.value, depth + 1);
        assert out' + (sub + rest) == out' + sub + rest;
        out' := CollectExtents(fs, child.value, depth + 1, out');
      } else {
        assert [] + rest == rest;
      }
      i := i + 1;
    }
    assert out' + [] == out';
  }

  /** The extent branch of `for_each_file_block`. */
  method WalkExtents(es: seq<FileExtent>, n: nat) returns (out: seq<FileBlock>)
    ensures out == ExtentTrace(es, n, 0)
  {
    hide Holes, Run;
    out := [];
    var emitted := 0;
    assert es[0..] == es;
    for x := 0 to |es|
      invariant 0 <= emitted
      invariant out + ExtentTrace(es[x..], n, emitted) == ExtentTrace(es, n, 0)
    {
      var e := es[x];
      assert es[x..][1..] == es[x + 1..];
      ghost var rest := ExtentTrace(es[x + 1..], n, Reached(e, n, emitted));
      ghost var h, r := Holes(emitted, Min(e.logical, n)), Run(e, n);
      assert out + (h + r + rest) == out + h + r + rest;
      out, emitted := EmitExtent(e, n, emitted, out);
    }
    out, emitted := EmitGap(emitted, n, out);
  }

  /** The hole in front of an extent, or of the end of the file. */
  method EmitGap(from: nat, to: nat, out: seq<FileBlock>) returns (out': seq<FileBlock>, emitted: nat)
    ensures out' == out + Holes(from, to) && emitted == Max(from, to)
  {
    out', emitted := out, from;
    while emitted < to
      invariant from <= emitted && (from < to ==> emitted <= to) && out' == out + Holes(from, emitted)
      invariant from >= to ==> emitted == from
    {
      ghost var h := Holes(from, emitted);
      var b := FileBlock(emitted, None, true);
      assert Holes(from, emitted + 1) == h + [b];
      out' := out' + [b];
      emitted := emitted + 1;
    }
    assert Holes(from, emitted) == Holes(from, to);
  }

  method EmitExtent(e: FileExtent, n: nat, emitted: nat, out: seq<FileBlock>) returns (out': seq<FileBlock>, emitted': nat)
    ensures out' == out + Holes(emitted, Min(e.logical, n)) + Run(e, n)
    ensures emitted' == Reached(e, n, emitted)
  {
    hide Holes;
    out', emitted' := EmitGap(emitted, Min(e.logical, n), out);
    ghost var start := out';
    var i := 0;
    while i < e.len && e.logical + i < n
      invariant 0 <= i <= Upto(e, n) && out' == start + Run(e, n)[..i]
      invariant emitted' == Max(Max(emitted, Min(e.logical, n)), if i == 0 then 0 else e.logical + i)
    {
      emitted' := Max(emitted', e.logical + i + 1);
      assert Run(e, n)[..i + 1] == Run(e, n)[..i] + [Run(e, n)[i]];
      out' := out' + [FileBlock(e.logical + i, Some(e.physical + i), e.initialized)];
      i := i + 1;
    }
    assert Run(e, n)[..i] == Run(e, n);
  }

  // --- reading ---

  /** `read_inode_data`. */
  method ReadInodeData(fs: Fs, ino: Inode) returns (out: seq<byte>)
    requires fs.Mounted()
    ensures out == ReadInode(fs, ino)
  {
    hide ExtentTrace, Mapped, CopyBlock;
    var n := FileBlocks(fs, ino);
    var bs: seq<FileBlock>;
    if ino.UsesExtents() {
      var es := CollectExtents(fs, ino.block, 0, []);
      assert es == Collect(fs, ino.block, 0);
      bs := WalkExtents(ByLogical(es), n);
    } else {
      var ps := WalkMap(fs, ino.block, n);
      bs := seq(n, k requires 0 <= k < |ps| => FileBlock(k, ps[k], true));
      assert bs == MapTrace(fs, ino.block, n);
    }
    out := Zeros(Size(fs, ino));
    assert bs[0..] == bs;
    for i := 0 to |bs|
      invariant CopyAll(fs, out, bs[i..]) == ReadInode(fs, ino)
    {
      assert bs[i..][1..] == bs[i + 1..];
      out := CopyBlock(fs, out, bs[i]);
    }
  }
}
