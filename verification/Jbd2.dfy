/** JBD2 journal replay: parsing, the scan of the circular log, and the block writes it leads to. */
module Jbd2 {
  import opened Bytes
  import opened Bits

  const JBD2_MAGIC: nat := 0xC03B3998
  const MAGIC_BYTES: seq<byte> := [0xC0, 0x3B, 0x39, 0x98]

  const DESCRIPTOR_BLOCK: nat := 1
  const COMMIT_BLOCK: nat := 2
  const SUPERBLOCK_V1: nat := 3
  const SUPERBLOCK_V2: nat := 4
  const REVOKE_BLOCK: nat := 5
  const FAST_COMMIT: nat := 0x20

  datatype Super = Super(blockSize: nat, maxLen: nat, first: nat, sequence: nat, start: nat, incompat: nat) {
    predicate Wide() { Flag(incompat, 0x2) }
    predicate CsumV2() { Flag(incompat, 0x8) }
    predicate CsumV3() { Flag(incompat, 0x10) }
    function TailLen(): nat { if CsumV2() || CsumV3() then 8 else 0 }
  }

  datatype Tag = Tag(fsBlock: nat, escaped: bool)

  /** A transaction being collected; each revoke is the sequence and block it names. */
  datatype Txn = Txn(seqNo: nat, tags: seq<Tag>, payloads: seq<seq<byte>>, revokes: seq<(nat, nat)>)

  datatype Kind = Payload | Descriptor(seqNo: nat) | Commit(seqNo: nat) | Revoke(seqNo: nat) | Other(fast: bool)

  datatype ReplayError = EmptyJournal | InvalidBlockSize | BadSuperblock | UnsupportedFeature(bits: nat) | OutOfBounds

  predicate Flag(x: nat, mask: nat)
    requires mask > 0
  {
    (x / mask) % 2 == 1
  }

  /** `be16`, `be32` and `be64`: the n-byte big-endian number at off. */
  function Be(b: seq<byte>, off: nat, n: nat): (r: Option<nat>)
  {
    if off + n <= |b| then Some(FromBe(b[off..off + n])) else None
  }

  function OrZero(x: Option<nat>): nat { if x.Some? then x.value else 0 }

  // --- parsing ---

  /** `header`, together with the dispatch on the block type. */
  function KindOf(b: seq<byte>): (k: Kind)
    ensures |b| < 12 ==> k == Payload
  {
    if |b| < 12 || FromBe(b[..4]) != JBD2_MAGIC then Payload
    else
      var ty, s := FromBe(b[4..8]), FromBe(b[8..12]);
      if ty == DESCRIPTOR_BLOCK then Descriptor(s)
      else if ty == REVOKE_BLOCK then Revoke(s)
      else if ty == COMMIT_BLOCK then Commit(s)
      else Other(ty == FAST_COMMIT)
  }

  /** `parse_superblock`, with the fields that replay uses. */
  function ParseSuper(b: seq<byte>): (r: Option<Super>)
    ensures r.Some? ==> IsPow2(r.value.blockSize)
  {
    if |b| < 32 || FromBe(b[..4]) != JBD2_MAGIC || FromBe(b[4..8]) !in {SUPERBLOCK_V1, SUPERBLOCK_V2} then None
    else
      var size := FromBe(b[12..16]);
      PowerOfTwoTest(size);
      if size == 0 || And(size, size - 1) != 0 then None
      else Some(Super(size, FromBe(b[16..20]), FromBe(b[20..24]), FromBe(b[24..28]), FromBe(b[28..32]), OrZero(Be(b, 40, 4))))
  }

  /** The offset past the tag at off, given its flags. */
  function TagEnd(sb: Super, off: nat, flags: nat): (r: nat)
    ensures r >= off + 6
  {
    off + 6 + (if sb.Wide() then 4 else 0) + (if Flag(flags, 0x2) then 0 else 16)
    + (if sb.CsumV3() then 4 else if sb.CsumV2() then 2 else 0)
  }

  function TagFlags(sb: Super, b: seq<byte>, off: nat): nat {
    OrZero(Be(b, off + 4 + (if sb.Wide() then 4 else 0), 2))
  }

  function TagBlock(sb: Super, b: seq<byte>, off: nat): nat {
    OrZero(Be(b, off, 4)) + (if sb.Wide() then 0x1_0000_0000 * OrZero(Be(b, off + 4, 4)) else 0)
  }

  /** The tags of a descriptor block from off on; deleted tags are dropped. */
  function TagsFrom(sb: Super, b: seq<byte>, off: nat): (tags: seq<Tag>)
    decreases |b| - off
  {
    if off + 8 > |b| - sb.TailLen() then []
    else
      var flags := TagFlags(sb, b, off);
      var next := TagEnd(sb, off, flags);
      if next > |b| then []
      else
        (if Flag(flags, 0x4) then [] else [Tag(TagBlock(sb, b, off), Flag(flags, 0x1))])
        + (if Flag(flags, 0x8) then [] else TagsFrom(sb, b, next))
  }

  function RevokesFrom(sb: Super, b: seq<byte>, s: nat, off: nat, end: nat): (rs: seq<(nat, nat)>)
    requires end <= |b|
    ensures forall r :: r in rs ==> r.0 == s
    decreases |b| - off
  {
    var n := if sb.Wide() then 8 else 4;
    if off + n > end then [] else [(s, FromBe(b[off..off + n]))] + RevokesFrom(sb, b, s, off + n, end)
  }

  /** `parse_revoke`. */
  function ParseRevoke(sb: Super, b: seq<byte>, s: nat): (rs: seq<(nat, nat)>)
    ensures forall r :: r in rs ==> r.0 == s
  {
    var used := Be(b, 12, 4);
    RevokesFrom(sb, b, s, 16, if used.Some? then Min(used.value, |b|) else |b|)
  }

  // --- the scan ---

  /** The position visited after idx. */
  function NextIdx(sb: Super, idx: nat): nat {
    if idx + 1 >= sb.maxLen then sb.first else idx + 1
  }

  function StartIdx(sb: Super): nat {
    var idx := if sb.start == 0 then sb.first else sb.start;
    if idx == 0 then 1 else idx
  }

  /** The blocks of size n in the order the scan visits them. */
  function Scan(journal: seq<byte>, sb: Super, idx: nat, left: nat): (bs: seq<seq<byte>>)
    ensures forall b :: b in bs ==> |b| == sb.blockSize
    decreases left
  {
    var off := idx * sb.blockSize;
    if left == 0 || off + sb.blockSize > |journal| then []
    else [journal[off..off + sb.blockSize]] + Scan(journal, sb, NextIdx(sb, idx), left - 1)
  }

  /** The pending transaction after one more block. */
  function NextTxn(sb: Super, b: seq<byte>, cur: Option<Txn>): Option<Txn> {
    match KindOf(b)
    case Descriptor(s) => Some(Txn(s, TagsFrom(sb, b, 12), [], []))
    case Commit(s) => None
    case Payload => if cur.None? then None else Some(cur.value.(payloads := cur.value.payloads + [b]))
    case Revoke(s) => if cur.None? then None else Some(cur.value.(revokes := cur.value.revokes + ParseRevoke(sb, b, s)))
    case Other(_) => cur
  }

  /** The pending transaction once k blocks are scanned. */
  function CurAt(sb: Super, bs: seq<seq<byte>>, k: nat): (t: Option<Txn>)
    requires k <= |bs| && forall b :: b in bs ==> |b| == sb.blockSize
    ensures t.Some? ==> forall p :: p in t.value.payloads ==> |p| == sb.blockSize
  {
    if k == 0 then None else NextTxn(sb, bs[k - 1], CurAt(sb, bs, k - 1))
  }

  // --- the writes ---

  /** A replayed block: data to be stored at byte off of the file system. */
  datatype Write = Write(off: nat, data: seq<byte>)

  predicate IsRevoked(t: Txn, blk: nat) {
    exists i :: 0 <= i < |t.revokes| && t.revokes[i] == (t.seqNo, blk)
  }

  /** Tag i leads to a write into an image of len bytes. */
  predicate Lands(t: Txn, bs: nat, len: nat, i: nat)
    requires i < |t.tags|
  {
    !IsRevoked(t, t.tags[i].fsBlock) && i < |t.payloads| && t.tags[i].fsBlock * bs + bs <= len
  }

  function Unescape(escaped: bool, b: seq<byte>): (r: seq<byte>)
    ensures |r| == |b|
  {
    if escaped && |b| >= 4 then MAGIC_BYTES + b[4..] else b
  }

  function WriteOf(t: Txn, bs: nat, i: nat): Write
    requires i < |t.tags| && i < |t.payloads|
  {
    Write(t.tags[i].fsBlock * bs, Unescape(t.tags[i].escaped, t.payloads[i]))
  }

  ghost predicate Fit(ws: seq<Write>, len: nat) {
    forall i :: 0 <= i < |ws| ==> ws[i].off + |ws[i].data| <= len
  }

  predicate Sized(t: Txn, bs: nat) {
    forall i :: 0 <= i < |t.payloads| ==> |t.payloads[i]| == bs
  }

  /** The writes of the first i tags. */
  function TxnWrites(t: Txn, bs: nat, len: nat, i: nat): (ws: seq<Write>)
    requires i <= |t.tags| && Sized(t, bs)
    ensures Fit(ws, len)
  {
    if i == 0 then []
    else TxnWrites(t, bs, len, i - 1) + if Lands(t, bs, len, i - 1) then [WriteOf(t, bs, i - 1)] else []
  }

  /** Block k commits the transaction pending before it. */
  predicate Commits(sb: Super, bs: seq<seq<byte>>, k: nat)
    requires k < |bs| && forall b :: b in bs ==> |b| == sb.blockSize
  {
    var t := CurAt(sb, bs, k);
    t.Some? && KindOf(bs[k]) == Commit(t.value.seqNo)
  }

  /** The writes that scanning the first k blocks leads to, in order. */
  function WritesAt(sb: Super, bs: seq<seq<byte>>, len: nat, k: nat): (ws: seq<Write>)
    requires k <= |bs| && forall b :: b in bs ==> |b| == sb.blockSize
    ensures Fit(ws, len)
  {
    if k == 0 then []
    else
      var ws := WritesAt(sb, bs, len, k - 1);
      if Commits(sb, bs, k - 1) then
        var t := CurAt(sb, bs, k - 1).value;
        ws + TxnWrites(t, sb.blockSize, len, |t.tags|)
      else ws
  }

  /** The image after the writes. */
  function Apply(img: seq<byte>, ws: seq<Write>): (r: seq<byte>)
    requires Fit(ws, |img|)
    ensures |r| == |img|
  {
    if ws == [] then img
    else
      var n := |ws| - 1;
      Splice(Apply(img, ws[..n]), ws[n].off, ws[n].data)
  }

  // --- replay ---

  datatype Report = Report(seen: nat, replayed: nat, blocks: nat, revokes: nat, fastCommits: nat)

  const NO_REPORT := Report(0, 0, 0, 0, 0)

  /** The superblock's checks, in the order of `replay_journal_image`. */
  function Checked(journal: seq<byte>): (r: Result<Super, ReplayError>)
    ensures r.Ok? ==> IsPow2(r.value.blockSize)
  {
    if |journal| < 1024 then Err(EmptyJournal)
    else
      var sb := ParseSuper(journal[..1024]);
      if sb.None? then Err(BadSuperblock)
      else if sb.value.blockSize > 65536 then Err(InvalidBlockSize)
      else if sb.value.incompat / 64 != 0 then Err(UnsupportedFeature(64 * (sb.value.incompat / 64)))
      else if sb.value.maxLen == 0 || sb.value.maxLen * sb.value.blockSize > |journal| then Err(OutOfBounds)
      else Ok(sb.value)
  }

  /** What the report counts once k blocks are scanned. */
  function ReportAt(sb: Super, bs: seq<seq<byte>>, len: nat, k: nat): (r: Report)
    requires k <= |bs| && forall b :: b in bs ==> |b| == sb.blockSize
    ensures r.blocks == |WritesAt(sb, bs, len, k)|
  {
    if k == 0 then NO_REPORT
    else
      var r := ReportAt(sb, bs, len, k - 1);
      match KindOf(bs[k - 1])
      case Descriptor(_) => r.(seen := r.seen + 1)
      case Revoke(s) => r.(revokes := r.revokes + |ParseRevoke(sb, bs[k - 1], s)|)
      case Other(fast) => r.(fastCommits := r.fastCommits + if fast then 1 else 0)
      case Payload => r
      case Commit(_) =>
        if Commits(sb, bs, k - 1) then r.(replayed := r.replayed + 1, blocks := |WritesAt(sb, bs, len, k)|) else r
  }

  /** The blocks that replay scans. */
  function Scanned(journal: seq<byte>, sb: Super): (bs: seq<seq<byte>>)
    ensures forall b :: b in bs ==> |b| == sb.blockSize
  {
    Scan(journal, sb, StartIdx(sb), sb.maxLen)
  }

  /** Every write of a replay into an image of len bytes, in order. */
  function Writes(journal: seq<byte>, len: nat): (ws: seq<Write>)
    ensures Fit(ws, len)
  {
    var sb := Checked(journal);
    if sb.Err? then []
    else
      var bs := Scanned(journal, sb.value);
      WritesAt(sb.value, bs, len, |bs|)
  }

  /** `replay_journal_image`: the image afterwards, and what is reported. */
  function Replay(img: seq<byte>, journal: seq<byte>): (r: (seq<byte>, Result<Report, ReplayError>))
    ensures |r.0| == |img| && (r.1.Err? ==> r.0 == img)
  {
    var sb := Checked(journal);
    if sb.Err? then (img, Err(sb.error))
    else
      var bs := Scanned(journal, sb.value);
      (Apply(img, Writes(journal, |img|)), Ok(ReportAt(sb.value, bs, |img|, |bs|)))
  }

  /** The journal held in the given file-system blocks. */
  function Gather(img: seq<byte>, bs: nat, blks: seq<nat>): (r: Option<seq<byte>>)
  {
    if blks == [] then Some([])
    else
      var rest := Gather(img, bs, blks[..|blks| - 1]);
      var off := blks[|blks| - 1] * bs;
      if rest.None? || off + bs > |img| then None else Some(rest.value + img[off..off + bs])
  }

  /** `replay_from_block_list`. */
  function ReplayList(img: seq<byte>, bs: nat, blks: seq<nat>): (r: (seq<byte>, Result<Report, ReplayError>))
    ensures |r.0| == |img| && (r.1.Err? ==> r.0 == img)
  {
    if bs == 0 || blks == [] then (img, Err(EmptyJournal))
    else
      var j := Gather(img, bs, blks);
      if j.None? then (img, Err(OutOfBounds)) else Replay(img, j.value)
  }
}
