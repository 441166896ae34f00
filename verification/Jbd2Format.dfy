/** The layout that journal parsing reads, as an encoder it undoes, and the order in which the log is visited. */
module Jbd2Format {
  import opened Bytes
  import opened Bits
  import opened Jbd2

  /** n in k bytes, most significant first. */
  function ToBe(n: nat, k: nat): (s: seq<byte>)
    ensures |s| == k
  {
    if k == 0 then [] else ToBe(n / 256, k - 1) + [n % 256]
  }

  lemma {:induction false} BeRoundTrip(n: nat, k: nat)
    requires n < Pow256(k)
    ensures FromBe(ToBe(n, k)) == n
    decreases k
  {
    if k > 0 {
      BeRoundTrip(n / 256, k - 1);
      assert ToBe(n, k)[..k - 1] == ToBe(n / 256, k - 1);
    }
  }

  // --- descriptor tags ---

  /** A tag as written: its block, its flags, and whatever fills the UUID and checksum fields. */
  datatype RawTag = RawTag(fsBlock: nat, escaped: bool, sameUuid: bool, deleted: bool, uuid: seq<byte>, csum: seq<byte>)

  predicate Fits(sb: Super, t: RawTag) {
    t.fsBlock < (if sb.Wide() then 0x1_0000_0000_0000_0000 else 0x1_0000_0000) &&
    |t.uuid| == (if t.sameUuid then 0 else 16) && |t.csum| == (if sb.CsumV3() then 4 else if sb.CsumV2() then 2 else 0)
  }

  function FlagBits(t: RawTag, last: bool): (n: nat)
    ensures n < 16
  {
    (if t.escaped then 1 else 0) + (if t.sameUuid then 2 else 0) + (if t.deleted then 4 else 0) + (if last then 8 else 0)
  }

  function NumberBytes(sb: Super, t: RawTag): seq<byte> {
    ToBe(t.fsBlock % 0x1_0000_0000, 4) + if sb.Wide() then ToBe(t.fsBlock / 0x1_0000_0000, 4) else []
  }

  function TagBytes(sb: Super, t: RawTag, last: bool): seq<byte> {
    NumberBytes(sb, t) + ToBe(FlagBits(t, last), 2) + t.uuid + t.csum
  }

  function TagsBytes(sb: Super, ts: seq<RawTag>): seq<byte> {
    if ts == [] then [] else TagBytes(sb, ts[0], |ts| == 1) + TagsBytes(sb, ts[1..])
  }

  /** The tags that count: those not marked deleted. */
  function Kept(ts: seq<RawTag>): seq<Tag> {
    if ts == [] then []
    else (if ts[0].deleted then [] else [Tag(ts[0].fsBlock, ts[0].escaped)]) + Kept(ts[1..])
  }

  lemma FlagsDecode(t: RawTag, last: bool)
    ensures var f := FlagBits(t, last);
      (Flag(f, 1) <==> t.escaped) && (Flag(f, 2) <==> t.sameUuid) && (Flag(f, 4) <==> t.deleted) && (Flag(f, 8) <==> last)
  {
  }

  lemma SliceIn(pre: seq<byte>, x: seq<byte>, post: seq<byte>, i: nat, j: nat)
    requires i <= j <= |x|
    ensures (pre + x + post)[|pre| + i..|pre| + j] == x[i..j]
  {
  }

  lemma NumberDecodes(sb: Super, t: RawTag, pre: seq<byte>, post: seq<byte>)
    requires Fits(sb, t)
    ensures TagBlock(sb, pre + NumberBytes(sb, t) + post, |pre|) == t.fsBlock
  {
    hide FromBe, ToBe;
    Pow256Values();
    var lo, hi := t.fsBlock % 0x1_0000_0000, t.fsBlock / 0x1_0000_0000;
    var x := NumberBytes(sb, t);
    SliceIn(pre, x, post, 0, 4);
    assert x[0..4] == ToBe(lo, 4);
    BeRoundTrip(lo, 4);
    if sb.Wide() {
      SliceIn(pre, x, post, 4, 8);
      assert x[4..8] == ToBe(hi, 4);
      BeRoundTrip(hi, 4);
    }
  }

  lemma FlagsRead(sb: Super, t: RawTag, last: bool, pre: seq<byte>, post: seq<byte>)
    ensures TagFlags(sb, pre + NumberBytes(sb, t) + ToBe(FlagBits(t, last), 2) + post, |pre|) == FlagBits(t, last)
  {
    hide FromBe, ToBe, FlagBits;
    Pow256Values();
    var p := pre + NumberBytes(sb, t);
    var f := ToBe(FlagBits(t, last), 2);
    SliceIn(p, f, post, 0, 2);
    assert f[0..2] == f;
    BeRoundTrip(FlagBits(t, last), 2);
  }

  lemma TagsUnfold(sb: Super, b: seq<byte>, off: nat, next: nat, t: RawTag, last: bool)
    requires off + 8 <= |b| - sb.TailLen() && next <= |b| && TagFlags(sb, b, off) == FlagBits(t, last)
    requires TagEnd(sb, off, FlagBits(t, last)) == next && TagBlock(sb, b, off) == t.fsBlock
    ensures TagsFrom(sb, b, off) ==
      (if t.deleted then [] else [Tag(t.fsBlock, t.escaped)]) + if last then [] else TagsFrom(sb, b, next)
  {
    hide FlagBits, Flag, TagBlock, TagFlags, TagEnd;
    FlagsDecode(t, last);
  }

  lemma Regroup(pre: seq<byte>, num: seq<byte>, fl: seq<byte>, u: seq<byte>, c: seq<byte>, post: seq<byte>)
    ensures pre + (num + fl + u + c) + post == pre + num + fl + (u + c + post)
    ensures pre + (num + fl + u + c) + post == pre + num + (fl + (u + c + post))
  {
  }

  /** The first tag of a block that still has the eight bytes the loop asks for in front of the tail. */
  lemma OneTagReads(sb: Super, t: RawTag, last: bool, pre: seq<byte>, post: seq<byte>)
    requires Fits(sb, t) && |TagBytes(sb, t, last)| + |post| >= 8 + sb.TailLen()
    ensures var b := pre + TagBytes(sb, t, last) + post; var next := |pre| + |TagBytes(sb, t, last)|;
      TagsFrom(sb, b, |pre|) ==
        (if t.deleted then [] else [Tag(t.fsBlock, t.escaped)]) + if last then [] else TagsFrom(sb, b, next)
  {
    hide FromBe, ToBe, FlagBits, Flag, TagBlock, TagFlags, NumberBytes, TagsFrom;
    var b := pre + TagBytes(sb, t, last) + post;
    var num, fl, rest := NumberBytes(sb, t), ToBe(FlagBits(t, last), 2), t.uuid + t.csum + post;
    NumberLength(sb, t);
    Regroup(pre, num, fl, t.uuid, t.csum, post);
    FlagsRead(sb, t, last, pre, rest);
    NumberDecodes(sb, t, pre, fl + rest);
    FlagsDecode(t, last);
    TagsUnfold(sb, b, |pre|, |pre| + |TagBytes(sb, t, last)|, t, last);
  }

  lemma NumberLength(sb: Super, t: RawTag)
    ensures |NumberBytes(sb, t)| == if sb.Wide() then 8 else 4
  {
  }

  lemma TagLength(sb: Super, t: RawTag, last: bool)
    requires Fits(sb, t)
    ensures 2 * |TagBytes(sb, t, last)| >= 8 + sb.TailLen() && |TagBytes(sb, t, last)| >= 4 + sb.TailLen() / 2
  {
    NumberLength(sb, t);
  }

  lemma {:induction false} TagsLength(sb: Super, ts: seq<RawTag>)
    requires ts != [] && forall i :: 0 <= i < |ts| ==> Fits(sb, ts[i])
    ensures |TagsBytes(sb, ts)| >= 4 + sb.TailLen() / 2
  {
    hide TagBytes;
    TagLength(sb, ts[0], |ts| == 1);
  }

  /** The last tag written leaves room for the loop to look at it. */
  predicate LastSeen(sb: Super, ts: seq<RawTag>, post: seq<byte>)
    requires ts != []
  {
    |TagBytes(sb, ts[|ts| - 1], true)| + |post| >= 8 + sb.TailLen()
  }

  /**
   * Parsing a descriptor gives back exactly the tags written into it, without the deleted ones, however full it is:
   * only a last tag with fewer than eight bytes left in front of the checksum tail is not looked at.
   */
  lemma {:induction false} TagsRoundTrip(sb: Super, ts: seq<RawTag>, pre: seq<byte>, post: seq<byte>)
    requires ts != [] && forall i :: 0 <= i < |ts| ==> Fits(sb, ts[i])
    ensures TagsFrom(sb, pre + TagsBytes(sb, ts) + post, |pre|) == Kept(if LastSeen(sb, ts, post) then ts else ts[..|ts| - 1])
    decreases |ts|
  {
    hide TagsFrom, TagBytes, Fits;
    var x, rest := TagBytes(sb, ts[0], |ts| == 1), TagsBytes(sb, ts[1..]);
    var b := pre + TagsBytes(sb, ts) + post;
    assert b == pre + x + (rest + post) && b == (pre + x) + rest + post;
    assert Fits(sb, ts[0]);
    if |ts| > 1 {
      TagLength(sb, ts[0], false);
      TagsLength(sb, ts[1..]);
      OneTagReads(sb, ts[0], false, pre, rest + post);
      TagsRoundTrip(sb, ts[1..], pre + x, post);
      assert ts[..|ts| - 1][1..] == ts[1..][..|ts| - 2];
    } else if LastSeen(sb, ts, post) {
      OneTagReads(sb, ts[0], true, pre, rest + post);
      assert Kept(ts[1..]) == [];
    } else {
      GuardEnds(sb, b, |pre|);
      assert ts[..0] == [];
    }
  }

  lemma GuardEnds(sb: Super, b: seq<byte>, off: nat)
    requires off + 8 > |b| - sb.TailLen()
    ensures TagsFrom(sb, b, off) == []
  {
  }

  // --- revoke records ---

  function RecLen(sb: Super): nat { if sb.Wide() then 8 else 4 }

  function RecordBytes(sb: Super, blks: seq<nat>): (s: seq<byte>)
    ensures |s| == RecLen(sb) * |blks|
  {
    if blks == [] then [] else ToBe(blks[0], RecLen(sb)) + RecordBytes(sb, blks[1..])
  }

  function Records(s: nat, blks: seq<nat>): seq<(nat, nat)> {
    if blks == [] then [] else [(s, blks[0])] + Records(s, blks[1..])
  }

  lemma {:induction false} RecordsRead(sb: Super, s: nat, blks: seq<nat>, pre: seq<byte>, post: seq<byte>)
    requires forall i :: 0 <= i < |blks| ==> blks[i] < Pow256(RecLen(sb))
    ensures RevokesFrom(sb, pre + RecordBytes(sb, blks) + post, s, |pre|, |pre| + RecLen(sb) * |blks|) == Records(s, blks)
    decreases |blks|
  {
    hide FromBe, ToBe;
    var b, end := pre + RecordBytes(sb, blks) + post, |pre| + RecLen(sb) * |blks|;
    if blks != [] {
      var x, rest := ToBe(blks[0], RecLen(sb)), RecordBytes(sb, blks[1..]);
      assert b == pre + x + (rest + post) && b == (pre + x) + rest + post;
      SliceIn(pre, x, rest + post, 0, RecLen(sb));
      assert x[0..RecLen(sb)] == x;
      BeRoundTrip(blks[0], RecLen(sb));
      RecordsRead(sb, s, blks[1..], pre + x, post);
    }
  }

  /** Parsing a revoke block gives back exactly the block numbers written into it. */
  lemma RevokeRoundTrip(sb: Super, s: nat, blks: seq<nat>, head: seq<byte>, post: seq<byte>)
    requires |head| == 12 && 16 + RecLen(sb) * |blks| < 0x1_0000_0000
    requires forall i :: 0 <= i < |blks| ==> blks[i] < Pow256(RecLen(sb))
    ensures ParseRevoke(sb, head + ToBe(16 + RecLen(sb) * |blks|, 4) + RecordBytes(sb, blks) + post, s) == Records(s, blks)
  {
    hide FromBe, ToBe, RecordBytes, RevokesFrom;
    Pow256Values();
    var used := 16 + RecLen(sb) * |blks|;
    var u, r := ToBe(used, 4), RecordBytes(sb, blks);
    var b := head + u + r + post;
    assert b == head + u + (r + post);
    SliceIn(head, u, r + post, 0, 4);
    assert u[0..4] == u;
    BeRoundTrip(used, 4);
    RecordsRead(sb, s, blks, head + u, post);
  }

  // --- the order of the scan ---

  /** The journal block visited k-th, step by step. */
  function IdxAt(sb: Super, k: nat): nat { if k == 0 then StartIdx(sb) else NextIdx(sb, IdxAt(sb, k - 1)) }

  /** b is the journal's block idx. */
  predicate IsBlock(journal: seq<byte>, sb: Super, idx: nat, b: seq<byte>) {
    var off := idx * sb.blockSize;
    off + sb.blockSize <= |journal| && b == journal[off..off + sb.blockSize]
  }

  lemma {:induction false} ScanFrom(journal: seq<byte>, sb: Super, k: nat, left: nat, i: nat)
    requires i < |Scan(journal, sb, IdxAt(sb, k), left)|
    ensures IsBlock(journal, sb, IdxAt(sb, k + i), Scan(journal, sb, IdxAt(sb, k), left)[i])
    decreases left
  {
    hide IsBlock, StartIdx, Scan, IdxAt, NextIdx;
    ScanHead(journal, sb, IdxAt(sb, k), left);
    if i > 0 {
      NextVisit(sb, k);
      ScanFrom(journal, sb, k + 1, left - 1, i - 1);
    }
  }

  lemma NextVisit(sb: Super, k: nat)
    ensures IdxAt(sb, k + 1) == NextIdx(sb, IdxAt(sb, k))
  {
  }

  lemma ScanHead(journal: seq<byte>, sb: Super, idx: nat, left: nat)
    requires Scan(journal, sb, idx, left) != []
    ensures var bs := Scan(journal, sb, idx, left);
      left > 0 && IsBlock(journal, sb, idx, bs[0]) && bs[1..] == Scan(journal, sb, NextIdx(sb, idx), left - 1)
  {
  }

  /** The steps from the start to the first wrap-around. */
  function FirstLap(sb: Super): (d: nat)
    ensures d >= 1
  {
    Max(1, sb.maxLen - StartIdx(sb))
  }

  /** The circular order in closed form: up to the end of the log, and from then on round and round from `first`. */
  function Circular(sb: Super, k: nat): nat {
    if k < FirstLap(sb) then StartIdx(sb) + k
    else if sb.first < sb.maxLen then sb.first + (k - FirstLap(sb)) % (sb.maxLen - sb.first)
    else sb.first
  }

  lemma {:induction false} VisitOrder(sb: Super, k: nat)
    ensures IdxAt(sb, k) == Circular(sb, k)
    decreases k
  {
    hide StartIdx;
    if k > 0 {
      VisitOrder(sb, k - 1);
      var d, m := FirstLap(sb), sb.maxLen - sb.first;
      if k > d && m > 0 {
        NextRem(k - 1 - d, m);
      } else if k == d && m > 0 {
        DivUnique(0, m, 0, 0);
      }
    }
  }

  lemma NextRem(x: nat, m: nat)
    requires m > 0
    ensures (x + 1) % m == if x % m + 1 == m then 0 else x % m + 1
  {
    var q := x / m;
    assert x == q * m + x % m;
    if x % m + 1 == m {
      assert (q + 1) * m == q * m + m;
      DivUnique(x + 1, m, q + 1, 0);
    } else {
      DivUnique(x + 1, m, q, x % m + 1);
    }
  }

  lemma {:induction false} ScanFull(journal: seq<byte>, sb: Super, k: nat, left: nat)
    requires forall i :: k <= i < k + left ==> IdxAt(sb, i) * sb.blockSize + sb.blockSize <= |journal|
    ensures |Scan(journal, sb, IdxAt(sb, k), left)| == left
    decreases left
  {
    if left > 0 {
      assert IdxAt(sb, k) * sb.blockSize + sb.blockSize <= |journal|;
      assert IdxAt(sb, k + 1) == NextIdx(sb, IdxAt(sb, k));
      ScanFull(journal, sb, k + 1, left - 1);
    }
  }

  /** A log whose start and first block lie inside it is scanned completely, each visit in circular order. */
  lemma ScanOrder(journal: seq<byte>, sb: Super)
    requires Checked(journal) == Ok(sb) && StartIdx(sb) < sb.maxLen && sb.first < sb.maxLen
    ensures var bs := Scanned(journal, sb);
      |bs| == sb.maxLen && forall k :: 0 <= k < |bs| ==> IsBlock(journal, sb, Circular(sb, k), bs[k])
  {
    hide StartIdx, Checked, Scanned, Circular, IsBlock;
    LogFits(journal, sb);
    AllScanned(journal, sb);
    forall k | 0 <= k < |Scanned(journal, sb)| ensures IsBlock(journal, sb, Circular(sb, k), Scanned(journal, sb)[k]) {
      ScannedAt(journal, sb, k);
    }
  }

  lemma VisitFits(journal: seq<byte>, sb: Super, i: nat)
    requires sb.maxLen * sb.blockSize <= |journal| && StartIdx(sb) < sb.maxLen && sb.first < sb.maxLen
    ensures IdxAt(sb, i) * sb.blockSize + sb.blockSize <= |journal|
  {
    hide IdxAt, Circular, StartIdx;
    VisitOrder(sb, i);
    CircularInside(sb, i);
    MulMono(IdxAt(sb, i) + 1, sb.maxLen, sb.blockSize);
  }

  lemma AllScanned(journal: seq<byte>, sb: Super)
    requires sb.maxLen * sb.blockSize <= |journal| && StartIdx(sb) < sb.maxLen && sb.first < sb.maxLen
    ensures |Scanned(journal, sb)| == sb.maxLen
  {
    hide StartIdx, Scan;
    forall i | 0 <= i < sb.maxLen ensures IdxAt(sb, i) * sb.blockSize + sb.blockSize <= |journal| {
      VisitFits(journal, sb, i);
    }
    ScanFull(journal, sb, 0, sb.maxLen);
  }

  lemma ScannedAt(journal: seq<byte>, sb: Super, k: nat)
    requires k < |Scanned(journal, sb)|
    ensures IsBlock(journal, sb, Circular(sb, k), Scanned(journal, sb)[k])
  {
    hide StartIdx, Scan, Circular, IsBlock;
    ScanFrom(journal, sb, 0, sb.maxLen, k);
    VisitOrder(sb, k);
  }

  lemma LogFits(journal: seq<byte>, sb: Super)
    requires Checked(journal) == Ok(sb)
    ensures sb.maxLen * sb.blockSize <= |journal|
  {
    hide ParseSuper;
  }

  lemma CircularInside(sb: Super, k: nat)
    requires StartIdx(sb) < sb.maxLen && sb.first < sb.maxLen
    ensures Circular(sb, k) < sb.maxLen
  {
  }
}
