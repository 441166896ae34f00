/** ext4 file mapping: the block map, the extent tree, and the bytes they make a file of. */
module Ext4 {
  import opened Bytes

  const MAX_FILE_SIZE: nat := 0x1000_0000
  const EXT_MAGIC: nat := 0xF30A
  const MAX_EXTENT_TREE_DEPTH: nat := 5

  /** The loaded image; `mount` admits block sizes of 1024, 2048 and 4096. */
  datatype Fs = Fs(data: seq<byte>, bs: nat, largeFile: bool) {
    predicate Mounted() { bs >= 4 }

    /** Pointers per block. */
    function Ppb(): nat { bs / 4 }
  }

  datatype Inode = Inode(mode: nat, flags: nat, sizeLo: nat, sizeHi: nat, block: seq<byte>) {
    predicate UsesExtents() { (flags / 0x8_0000) % 2 == 1 }
  }

  datatype FileExtent = FileExtent(logical: nat, physical: nat, len: nat, initialized: bool)

  datatype FileBlock = FileBlock(logical: nat, physical: Option<nat>, initialized: bool)

  function LeAt(b: seq<byte>, off: nat, n: nat): nat
  {
    if off + n <= |b| then FromLe(b[off..off + n]) else 0
  }

  /** `inode_size_bytes`, limited to what is ever read. */
  function Size(fs: Fs, ino: Inode): (n: nat)
    ensures n <= MAX_FILE_SIZE
  {
    var n := if (ino.mode / 0x1000) % 16 == 8 && fs.largeFile then ino.sizeLo + 0x1_0000_0000 * ino.sizeHi else ino.sizeLo;
    Min(n, MAX_FILE_SIZE)
  }

  function FileBlocks(fs: Fs, ino: Inode): nat
    requires fs.Mounted()
  {
    DivCeil(Size(fs, ino), fs.bs)
  }

  /** `block_slice`. */
  function BlockSlice(fs: Fs, blk: nat): (r: Option<seq<byte>>)
    ensures r.Some? ==> |r.value| == fs.bs
  {
    var off := blk * fs.bs;
    if blk == 0 || off + fs.bs > |fs.data| then None else Some(fs.data[off..off + fs.bs])
  }

  // --- the block map ---

  /** Entry i of `read_ptrs`: a block outside the image reads as zeros. */
  function Ptr(fs: Fs, blk: nat, i: nat): nat {
    var d := BlockSlice(fs, blk);
    if d.None? then 0 else LeAt(d.value, 4 * i, 4)
  }

  function NonZero(b: nat): Option<nat> { if b == 0 then None else Some(b) }

  /** Entry i below an indirect block of each level; a zero pointer makes the rest a hole. */
  function Single(fs: Fs, b: nat, i: nat): Option<nat> {
    if b == 0 then None else NonZero(Ptr(fs, b, i))
  }

  function Double(fs: Fs, b: nat, i: nat): Option<nat>
    requires fs.Mounted()
  {
    if b == 0 then None else Single(fs, Ptr(fs, b, i / fs.Ppb()), i % fs.Ppb())
  }

  function Triple(fs: Fs, b: nat, i: nat): Option<nat>
    requires fs.Mounted()
  {
    var pp := Square(fs.Ppb());
    if b == 0 then None else Double(fs, Ptr(fs, b, i / pp), i % pp)
  }

  function Square(n: nat): (r: nat)
    ensures n > 0 ==> r > 0
  {
    n * n
  }

  /** The physical block of logical block k, by index arithmetic on k alone. */
  function Mapped(fs: Fs, root: seq<byte>, k: nat): Option<nat>
    requires fs.Mounted()
  {
    var p := fs.Ppb();
    if k < 12 then NonZero(LeAt(root, 4 * k, 4))
    else if k < 12 + p then Single(fs, LeAt(root, 48, 4), k - 12)
    else if k < 12 + p + Square(p) then Double(fs, LeAt(root, 52, 4), k - 12 - p)
    else if k < 12 + p + Square(p) + p * Square(p) then Triple(fs, LeAt(root, 56, 4), k - 12 - p - Square(p))
    else None
  }

  // --- the extent tree ---

  /** Entries i..n of a leaf; a length of zero, also 0x8000, is skipped. */
  function Leaf(d: seq<byte>, i: nat, n: nat): (es: seq<FileExtent>)
    requires i <= n
    ensures forall e :: e in es ==> e.len > 0
    decreases n - i
  {
    var base := 12 + 12 * i;
    if i == n || base + 12 > |d| then []
    else
      var raw := LeAt(d, base + 4, 2);
      (if raw % 0x8000 == 0 then []
       else [FileExtent(LeAt(d, base, 4), LeAt(d, base + 8, 4) + 0x1_0000_0000 * LeAt(d, base + 6, 2), raw % 0x8000, raw < 0x8000)])
      + Leaf(d, i + 1, n)
  }

  /** The children i..n of an index node. */
  function Index(fs: Fs, d: seq<byte>, depth: nat, i: nat, n: nat): (es: seq<FileExtent>)
    requires i <= n && depth <= MAX_EXTENT_TREE_DEPTH
    ensures forall e :: e in es ==> e.len > 0
    decreases MAX_EXTENT_TREE_DEPTH + 1 - depth, 0, n - i
  {
    var base := 12 + 12 * i;
    if i == n || base + 12 > |d| then []
    else
      var child := BlockSlice(fs, LeAt(d, base + 4, 4) + 0x1_0000_0000 * LeAt(d, base + 8, 2));
      (if child.None? then [] else Collect(fs, child.value, depth + 1)) + Index(fs, d, depth, i + 1, n)
  }

  /** `extents_collect`: defined on every image, whatever its index blocks point to. */
  function Collect(fs: Fs, d: seq<byte>, depth: nat): (es: seq<FileExtent>)
    requires depth <= MAX_EXTENT_TREE_DEPTH + 1
    ensures forall e :: e in es ==> e.len > 0
    decreases MAX_EXTENT_TREE_DEPTH + 1 - depth, 1
  {
    if depth > MAX_EXTENT_TREE_DEPTH || |d| < 12 || LeAt(d, 0, 2) != EXT_MAGIC then []
    else
      var n := Min(LeAt(d, 2, 2), LeAt(d, 4, 2));
      if LeAt(d, 6, 2) == 0 then Leaf(d, 0, n) else Index(fs, d, depth, 0, n)
  }

  /** e placed after the extents that are not beyond it. */
  function Insert(es: seq<FileExtent>, e: FileExtent): (r: seq<FileExtent>)
    decreases |es|
  {
    if es == [] || es[|es| - 1].logical <= e.logical then es + [e]
    else Insert(es[..|es| - 1], e) + [es[|es| - 1]]
  }

  /** The stable sort of `read_extents`. */
  function ByLogical(es: seq<FileExtent>): (r: seq<FileExtent>)
    decreases |es|
  {
    if es == [] then [] else Insert(ByLogical(es[..|es| - 1]), es[|es| - 1])
  }

  function Extents(fs: Fs, ino: Inode): seq<FileExtent> {
    ByLogical(Collect(fs, ino.block, 0))
  }

  // --- what is emitted ---

  function Holes(from: nat, to: nat): (bs: seq<FileBlock>)
    ensures |bs| == if from < to then to - from else 0
    ensures forall i :: 0 <= i < |bs| ==> bs[i] == FileBlock(from + i, None, true)
  {
    if from < to then seq(to - from, i requires 0 <= i => FileBlock(from + i, None, true)) else []
  }

  function Upto(e: FileExtent, n: nat): (len: nat)
  {
    if e.logical >= n then 0 else Min(e.len, n - e.logical)
  }

  /** The blocks of one extent below n. */
  function Run(e: FileExtent, n: nat): (bs: seq<FileBlock>)
    ensures |bs| == Upto(e, n)
    ensures forall i :: 0 <= i < |bs| ==> bs[i] == FileBlock(e.logical + i, Some(e.physical + i), e.initialized)
  {
    seq(Upto(e, n), i requires 0 <= i => FileBlock(e.logical + i, Some(e.physical + i), e.initialized))
  }

  function Reached(e: FileExtent, n: nat, emitted: nat): nat {
    Max(Max(emitted, Min(e.logical, n)), Min(e.logical + e.len, n))
  }

  /** The extent branch of `for_each_file_block`, with `emitted` blocks already passed. */
  function ExtentTrace(es: seq<FileExtent>, n: nat, emitted: nat): (bs: seq<FileBlock>)
    decreases |es|
  {
    if es == [] then Holes(emitted, n)
    else Holes(emitted, Min(es[0].logical, n)) + Run(es[0], n) + ExtentTrace(es[1..], n, Reached(es[0], n, emitted))
  }

  /** The block-map branch. */
  function MapTrace(fs: Fs, root: seq<byte>, n: nat): (bs: seq<FileBlock>)
    requires fs.Mounted()
  {
    seq(n, k requires 0 <= k => FileBlock(k, Mapped(fs, root, k), true))
  }

  function Trace(fs: Fs, ino: Inode): seq<FileBlock>
    requires fs.Mounted()
  {
    var n := FileBlocks(fs, ino);
    if ino.UsesExtents() then ExtentTrace(Extents(fs, ino), n, 0) else MapTrace(fs, ino.block, n)
  }

  // --- reading ---

  /** The bytes that an emitted block contributes, if any. */
  function Contents(fs: Fs, b: FileBlock): (r: Option<seq<byte>>)
    ensures r.Some? ==> |r.value| == fs.bs
  {
    if b.initialized && b.physical.Some? then BlockSlice(fs, b.physical.value) else None
  }

  /** c over the bytes at dst, cut off at the end. */
  function CopyAt(out: seq<byte>, dst: nat, c: seq<byte>): (r: seq<byte>)
    ensures |r| == |out|
  {
    if dst >= |out| then out else Splice(out, dst, c[..Min(|out| - dst, |c|)])
  }

  /** Where logical block l starts in the file. */
  function BlockOff(l: nat, bs: nat): nat { l * bs }

  /** The callback of `read_inode_data`. */
  function CopyBlock(fs: Fs, out: seq<byte>, b: FileBlock): (r: seq<byte>)
    ensures |r| == |out|
  {
    var c := Contents(fs, b);
    if c.None? then out else CopyAt(out, BlockOff(b.logical, fs.bs), c.value)
  }

  function CopyAll(fs: Fs, out: seq<byte>, bs: seq<FileBlock>): (r: seq<byte>)
    ensures |r| == |out|
    decreases |bs|
  {
    if bs == [] then out else CopyAll(fs, CopyBlock(fs, out, bs[0]), bs[1..])
  }

  /** `read_inode_data`. */
  function ReadInode(fs: Fs, ino: Inode): (r: seq<byte>)
    requires fs.Mounted()
    ensures |r| == Size(fs, ino)
  {
    CopyAll(fs, Zeros(Size(fs, ino)), Trace(fs, ino))
  }
}
