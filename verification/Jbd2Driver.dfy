/** The loops of journal replay, working on the image in place. */
module Jbd2Driver {
  import opened Bytes
  import opened Jbd2
  import opened Jbd2Proofs

  function OneTag(sb: Super, b: seq<byte>, off: nat): seq<Tag> {
    var flags := TagFlags(sb, b, off);
    if Flag(flags, 0x4) then [] else [Tag(TagBlock(sb, b, off), Flag(flags, 0x1))]
  }

  lemma TagsStep(sb: Super, b: seq<byte>, off: nat)
    ensures var flags := TagFlags(sb, b, off); var next := TagEnd(sb, off, flags);
      TagsFrom(sb, b, off) ==
        if off + 8 > |b| - sb.TailLen() || next > |b| then []
        else if Flag(flags, 0x8) then OneTag(sb, b, off)
        else OneTag(sb, b, off) + TagsFrom(sb, b, next)
  {
    hide TagBlock, TagEnd, TagFlags;
    assert OneTag(sb, b, off) + [] == OneTag(sb, b, off);
  }

  /** `parse_descriptor`. */
  method ParseDescriptor(sb: Super, b: seq<byte>) returns (tags: seq<Tag>)
    ensures tags == TagsFrom(sb, b, 12)
  {
    hide TagsFrom, TagBlock, TagEnd, TagFlags, Flag;
    tags := [];
    var off: nat := 12;
    while off + 8 <= |b| - sb.TailLen()
      invariant tags + TagsFrom(sb, b, off) == TagsFrom(sb, b, 12)
      decreases |b| - off
    {
      TagsStep(sb, b, off);
      var flags := TagFlags(sb, b, off);
      var next := TagEnd(sb, off, flags);
      if next > |b| {
        assert tags + [] == tags;
        return;
      }
      assert tags + (OneTag(sb, b, off) + TagsFrom(sb, b, next)) == tags + OneTag(sb, b, off) + TagsFrom(sb, b, next);
      if !Flag(flags, 0x4) {
        tags := tags + [Tag(TagBlock(sb, b, off), Flag(flags, 0x1))];
      } else {
        assert tags + [] == tags;
      }
      if Flag(flags, 0x8) {
        return;
      }
      off := next;
    }
    TagsStep(sb, b, off);
    assert tags + [] == tags;
  }

  lemma OneRevoke(sb: Super, b: seq<byte>, s: nat, off: nat, end: nat)
    requires off + (if sb.Wide() then 8 else 4) <= end <= |b|
    ensures var n := if sb.Wide() then 8 else 4;
      RevokesFrom(sb, b, s, off, end) == [(s, FromBe(b[off..off + n]))] + RevokesFrom(sb, b, s, off + n, end)
  {
    hide FromBe;
  }

  /** `parse_revoke`. */
  method ParseRevokes(sb: Super, b: seq<byte>, s: nat) returns (rs: seq<(nat, nat)>)
    ensures rs == ParseRevoke(sb, b, s)
  {
    hide FromBe;
    rs := [];
    var n := if sb.Wide() then 8 else 4;
    var used := Be(b, 12, 4);
    var end := if used.Some? then Min(used.value, |b|) else |b|;
    var off := 16;
    while off + n <= end
      invariant off >= 16
      invariant rs + RevokesFrom(sb, b, s, off, end) == RevokesFrom(sb, b, s, 16, end)
      decreases |b| - off
    {
      var r := (s, FromBe(b[off..off + n]));
      OneRevoke(sb, b, s, off, end);
      assert rs + ([r] + RevokesFrom(sb, b, s, off + n, end)) == rs + [r] + RevokesFrom(sb, b, s, off + n, end);
      rs := rs + [r];
      off := off + n;
    }
    assert rs + [] == rs;
  }

  lemma PatchIs(a: seq<byte>, off: nat, x: seq<byte>)
    requires off + |x| <= |a| && |x| >= 4
    ensures Splice(Splice(a, off, x), off, MAGIC_BYTES) == Splice(a, off, MAGIC_BYTES + x[4..])
  {
  }

  lemma {:induction false} NoMoreTags(t: Txn, bs: nat, len: nat, i: nat, n: nat)
    requires |t.payloads| <= i <= n <= |t.tags| && Sized(t, bs)
    ensures TxnWrites(t, bs, len, n) == TxnWrites(t, bs, len, i)
    decreases n
  {
    if i < n { NoMoreTags(t, bs, len, i, n - 1); }
  }

  /** One replayed block, with the escaped magic number put back. */
  method StoreBlock(img: array<byte>, off: nat, escaped: bool, src: seq<byte>)
    requires off + |src| <= img.Length
    modifies img
    ensures img[..] == Splice(old(img[..]), off, Unescape(escaped, src))
  {
    hide Splice;
    CopyInto(img, off, src);
    if escaped && |src| >= 4 {
      PatchIs(old(img[..]), off, src);
      CopyInto(img, off, MAGIC_BYTES);
    }
  }

  lemma TxnWritesStep(t: Txn, bs: nat, len: nat, i: nat)
    requires i < |t.tags| && Sized(t, bs)
    ensures TxnWrites(t, bs, len, i + 1) ==
      if Lands(t, bs, len, i) then TxnWrites(t, bs, len, i) + [WriteOf(t, bs, i)] else TxnWrites(t, bs, len, i)
  {
  }

  lemma NoTags(t: Txn, bs: nat, len: nat)
    requires Sized(t, bs)
    ensures TxnWrites(t, bs, len, 0) == []
  {
  }

  /** `apply_txn`. */
  method ApplyTxn(img: array<byte>, bs: nat, t: Txn) returns (replayed: nat)
    requires Sized(t, bs)
    modifies img
    ensures img[..] == Apply(old(img[..]), TxnWrites(t, bs, img.Length, |t.tags|))
    ensures replayed == |TxnWrites(t, bs, img.Length, |t.tags|)|
  {
    hide Apply, Splice, Unescape, IsRevoked, TxnWrites;
    replayed := 0;
    ApplyNone(img[..]);
    NoTags(t, bs, img.Length);
    var i := 0;
    while i < |t.tags|
      invariant 0 <= i <= |t.tags|
      invariant img[..] == Apply(old(img[..]), TxnWrites(t, bs, img.Length, i))
      invariant replayed == |TxnWrites(t, bs, img.Length, i)|
    {
      var tag := t.tags[i];
      TxnWritesStep(t, bs, img.Length, i);
      if IsRevoked(t, tag.fsBlock) {
      } else if i >= |t.payloads| {
        NoMoreTags(t, bs, img.Length, i, |t.tags|);
        return;
      } else if tag.fsBlock * bs + bs <= img.Length {
        ApplySnoc(old(img[..]), TxnWrites(t, bs, img.Length, i), WriteOf(t, bs, i));
        StoreBlock(img, tag.fsBlock * bs, tag.escaped, t.payloads[i]);
        replayed := replayed + 1;
      }
      i := i + 1;
    }
  }

  lemma ApplyNone(img: seq<byte>)
    ensures Apply(img, []) == img
  {
  }

  lemma {:induction false} ApplyConcat(img: seq<byte>, ws: seq<Write>, vs: seq<Write>)
    requires Fit(ws, |img|) && Fit(vs, |img|)
    ensures Fit(ws + vs, |img|) && Apply(img, ws + vs) == Apply(Apply(img, ws), vs)
    decreases |vs|
  {
    hide Apply, Splice;
    if vs == [] {
      assert ws + vs == ws;
      ApplyNone(Apply(img, ws));
    } else {
      var n := |vs| - 1;
      ApplyConcat(img, ws, vs[..n]);
      assert ws + vs == (ws + vs[..n]) + [vs[n]];
      ApplySnoc(img, ws + vs[..n], vs[n]);
      assert vs == vs[..n] + [vs[n]];
      ApplySnoc(Apply(img, ws), vs[..n], vs[n]);
    }
  }

  /** `replay_journal_image`. */
  method ReplayImage(img: array<byte>, journal: seq<byte>) returns (r: Result<Report, ReplayError>)
    modifies img
    ensures Replay(old(img[..]), journal) == (img[..], r)
  {
    hide Checked, Apply, WritesAt, ReportAt, CurAt, Scan;
    var c := Checked(journal);
    if c.Err? {
      return Err(c.error);
    }
    var sb := c.value;
    var report := ReplayBlocks(img, journal, sb);
    r := Ok(report);
  }

  /** The state of the scan before block k. */
  ghost predicate AtBlock(sb: Super, bs: seq<seq<byte>>, k: nat, cur: Option<Txn>, report: Report, img0: seq<byte>, img: seq<byte>) {
    k <= |bs| && AllSized(sb, bs) && |img| == |img0| &&
    cur == CurAt(sb, bs, k) && report == ReportAt(sb, bs, |img0|, k) && img == Apply(img0, WritesAt(sb, bs, |img0|, k))
  }

  lemma AtStart(sb: Super, bs: seq<seq<byte>>, img: seq<byte>)
    requires AllSized(sb, bs)
    ensures AtBlock(sb, bs, 0, None, NO_REPORT, img, img)
  {
  }

  /** The scan loop. */
  method ReplayBlocks(img: array<byte>, journal: seq<byte>, sb: Super) returns (report: Report)
    modifies img
    ensures var bs := Scanned(journal, sb); exists t :: AtBlock(sb, bs, |bs|, t, report, old(img[..]), img[..])
  {
    hide Scan, AtBlock;
    ghost var bs := Scanned(journal, sb);
    var idx: nat := StartIdx(sb);
    var cur: Option<Txn> := None;
    report := NO_REPORT;
    AtStart(sb, bs, img[..]);
    assert bs[0..] == bs;
    var k := 0;
    while k < sb.maxLen
      invariant 0 <= k <= |bs| && k <= sb.maxLen
      invariant bs[k..] == Scan(journal, sb, idx, sb.maxLen - k)
      invariant AtBlock(sb, bs, k, cur, report, old(img[..]), img[..])
    {
      ScanStep(journal, sb, idx, sb.maxLen - k);
      var b := BlockAt(journal, sb.blockSize, idx);
      if b.None? {
        return;
      }
      assert b.value == bs[k..][0] == bs[k] && bs[k..][1..] == bs[k + 1..];
      cur, report := OneBlock(img, sb, bs, k, b.value, cur, report, old(img[..]));
      idx := NextIdx(sb, idx);
      k := k + 1;
    }
    ScanStep(journal, sb, idx, 0);
  }

  /** `block_by_journal_index`. */
  function BlockAt(journal: seq<byte>, size: nat, idx: nat): Option<seq<byte>> {
    var off := idx * size;
    if off + size > |journal| then None else Some(journal[off..off + size])
  }

  lemma ScanStep(journal: seq<byte>, sb: Super, idx: nat, left: nat)
    ensures var b := BlockAt(journal, sb.blockSize, idx); var bs := Scan(journal, sb, idx, left);
      if left == 0 || b.None? then bs == []
      else |bs| > 0 && bs[0] == b.value && bs[1..] == Scan(journal, sb, NextIdx(sb, idx), left - 1)
  {
  }

  /** One block of the scan. */
  method OneBlock(img: array<byte>, sb: Super, ghost bs: seq<seq<byte>>, ghost k: nat, b: seq<byte>, cur: Option<Txn>,
    report: Report, ghost img0: seq<byte>) returns (next: Option<Txn>, report': Report)
    requires k < |bs| && b == bs[k] && AtBlock(sb, bs, k, cur, report, img0, img[..])
    modifies img
    ensures AtBlock(sb, bs, k + 1, next, report', img0, img[..])
  {
    hide Apply, Scan, KindOf, TagsFrom, ParseRevoke, TxnWrites;
    next, report' := cur, report;
    match KindOf(b) {
      case Descriptor(s) =>
        var tags := ParseDescriptor(sb, b);
        next := Some(Txn(s, tags, [], []));
        report' := report.(seen := report.seen + 1);
      case Revoke(s) =>
        var rs := ParseRevokes(sb, b, s);
        report' := report.(revokes := report.revokes + |rs|);
        if cur.Some? {
          next := Some(cur.value.(revokes := cur.value.revokes + rs));
        }
      case Payload =>
        if cur.Some? {
          next := Some(cur.value.(payloads := cur.value.payloads + [b]));
        }
      case Commit(s) =>
        next := None;
        if cur.Some? && cur.value.seqNo == s {
          var t := cur.value;
          ApplyConcat(img0, WritesAt(sb, bs, img.Length, k), TxnWrites(t, sb.blockSize, img.Length, |t.tags|));
          var n := ApplyTxn(img, sb.blockSize, t);
          report' := report.(replayed := report.replayed + 1, blocks := report.blocks + n);
        }
      case Other(fast) =>
        report' := report.(fastCommits := report.fastCommits + if fast then 1 else 0);
    }
  }

  /** `replay_from_block_list`. */
  method ReplayFromBlockList(img: array<byte>, bs: nat, blks: seq<nat>) returns (r: Result<Report, ReplayError>)
    modifies img
    ensures ReplayList(old(img[..]), bs, blks) == (img[..], r)
  {
    hide Replay;
    if bs == 0 || blks == [] {
      return Err(EmptyJournal);
    }
    var journal := [];
    for i := 0 to |blks|
      invariant img[..] == old(img[..]) && Gather(img[..], bs, blks[..i]) == Some(journal)
    {
      var off := blks[i] * bs;
      assert blks[..i + 1][..i] == blks[..i];
      if off + bs > img.Length {
        GatherNone(img[..], bs, blks, i + 1);
        return Err(OutOfBounds);
      }
      journal := journal + img[off..off + bs];
    }
    assert blks[..|blks|] == blks;
    r := ReplayImage(img, journal);
  }

  lemma {:induction false} GatherNone(img: seq<byte>, bs: nat, blks: seq<nat>, i: nat)
    requires i <= |blks| && Gather(img, bs, blks[..i]).None?
    ensures Gather(img, bs, blks).None?
    decreases |blks|
  {
    if i == |blks| {
      assert blks[..i] == blks;
    } else {
      assert blks[..|blks| - 1][..i] == blks[..i];
      GatherNone(img, bs, blks[..|blks| - 1], i);
    }
  }
}
