/** What replay guarantees: crash-idempotence, and last-writer-wins per committed transaction. */
module Jbd2Proofs {
  import opened Bytes
  import opened Jbd2

  // --- any interruption is repaired ---

  predicate InWrite(w: Write, p: nat) { w.off <= p < w.off + |w.data| }

  /** Some write stores byte p. */
  ghost predicate Touches(ws: seq<Write>, p: nat) {
    exists i :: 0 <= i < |ws| && InWrite(ws[i], p)
  }

  lemma {:induction false} ApplyByte(img: seq<byte>, ws: seq<Write>, p: nat)
    requires Fit(ws, |img|) && p < |img|
    ensures !Touches(ws, p) ==> Apply(img, ws)[p] == img[p]
    decreases |ws|
  {
    if ws != [] {
      var n := |ws| - 1;
      ApplyByte(img, ws[..n], p);
      assert ws[n] in ws;
      if !Touches(ws, p) {
        assert !InWrite(ws[n], p);
        forall i | 0 <= i < n ensures !InWrite(ws[..n][i], p) { assert ws[..n][i] == ws[i]; }
      }
    }
  }

  lemma {:induction false} SameByte(a: seq<byte>, b: seq<byte>, ws: seq<Write>, p: nat)
    requires |a| == |b| && Fit(ws, |a|) && p < |a|
    requires !Touches(ws, p) ==> a[p] == b[p]
    ensures Apply(a, ws)[p] == Apply(b, ws)[p]
    decreases |ws|
  {
    if ws != [] {
      var n := |ws| - 1;
      if !InWrite(ws[n], p) {
        if Touches(ws, p) {
          var i :| 0 <= i < |ws| && InWrite(ws[i], p);
          assert InWrite(ws[..n][i], p);
        }
        SameByte(a, b, ws[..n], p);
      }
    }
  }

  /** Writes wipe out every difference inside the bytes they store. */
  lemma ApplyRepairs(a: seq<byte>, b: seq<byte>, ws: seq<Write>)
    requires |a| == |b| && Fit(ws, |a|)
    requires forall p :: 0 <= p < |a| && !Touches(ws, p) ==> a[p] == b[p]
    ensures Apply(a, ws) == Apply(b, ws)
  {
    forall p | 0 <= p < |a| ensures Apply(a, ws)[p] == Apply(b, ws)[p] { SameByte(a, b, ws, p); }
  }

  /** An image that agrees with img wherever no replayed block is stored: what an interruption can leave behind. */
  ghost predicate Torn(img: seq<byte>, torn: seq<byte>, journal: seq<byte>) {
    |torn| == |img| && forall p :: 0 <= p < |img| && !Touches(Writes(journal, |img|), p) ==> torn[p] == img[p]
  }

  /** Replaying after any interruption, even inside a block write, ends like one uninterrupted replay. */
  lemma ReplayRepairs(img: seq<byte>, torn: seq<byte>, journal: seq<byte>)
    requires Torn(img, torn, journal)
    ensures Replay(torn, journal) == Replay(img, journal)
  {
    hide Scan, WritesAt, ReportAt, Checked;
    if Checked(journal).Ok? {
      ApplyRepairs(torn, img, Writes(journal, |img|));
    } else {
      assert forall p :: 0 <= p < |img| ==> !Touches(Writes(journal, |img|), p);
      assert torn == img;
    }
  }

  lemma PrefixTorn(img: seq<byte>, journal: seq<byte>, n: nat)
    requires n <= |Writes(journal, |img|)|
    ensures Torn(img, Apply(img, Writes(journal, |img|)[..n]), journal)
  {
    hide Writes, Apply;
    var ws := Writes(journal, |img|);
    forall p | 0 <= p < |img| && !Touches(ws, p) ensures Apply(img, ws[..n])[p] == img[p] {
      assert !Touches(ws[..n], p);
      ApplyByte(img, ws[..n], p);
    }
  }

  /** Stopping after any number of block writes and starting over changes nothing in the end. */
  lemma CrashIdempotent(img: seq<byte>, journal: seq<byte>, n: nat)
    requires n <= |Writes(journal, |img|)|
    ensures Replay(Apply(img, Writes(journal, |img|)[..n]), journal) == Replay(img, journal)
  {
    hide Writes, Apply, Replay;
    PrefixTorn(img, journal, n);
    ReplayRepairs(img, Apply(img, Writes(journal, |img|)[..n]), journal);
  }

  // --- the journal inside the file system ---

  /** No replayed write stores a byte of a journal block. */
  ghost predicate JournalApart(img: seq<byte>, bs: nat, blks: seq<nat>, journal: seq<byte>) {
    forall i, p :: 0 <= i < |blks| && blks[i] * bs <= p < blks[i] * bs + bs ==> !Touches(Writes(journal, |img|), p)
  }

  lemma {:induction false} GatherSame(a: seq<byte>, b: seq<byte>, bs: nat, blks: seq<nat>)
    requires |a| == |b|
    requires forall i, p :: 0 <= i < |blks| && blks[i] * bs <= p < blks[i] * bs + bs && p < |a| ==> a[p] == b[p]
    ensures Gather(a, bs, blks) == Gather(b, bs, blks)
    decreases |blks|
  {
    if blks != [] {
      var n := |blks| - 1;
      var off := blks[n] * bs;
      GatherSame(a, b, bs, blks[..n]);
      if off + bs <= |a| {
        assert a[off..off + bs] == b[off..off + bs];
      }
    }
  }

  /** The same for a journal that lives in the image, as long as replay leaves its blocks alone. */
  lemma ListRepairs(img: seq<byte>, torn: seq<byte>, bs: nat, blks: seq<nat>, journal: seq<byte>)
    requires bs > 0 && blks != [] && Gather(img, bs, blks) == Some(journal)
    requires JournalApart(img, bs, blks, journal) && Torn(img, torn, journal)
    ensures ReplayList(torn, bs, blks) == ReplayList(img, bs, blks)
  {
    hide Writes, Replay, Gather;
    GatherSame(torn, img, bs, blks);
    ReplayRepairs(img, torn, journal);
  }

  lemma ListCrashIdempotent(img: seq<byte>, bs: nat, blks: seq<nat>, journal: seq<byte>, n: nat)
    requires bs > 0 && blks != [] && Gather(img, bs, blks) == Some(journal)
    requires JournalApart(img, bs, blks, journal) && n <= |Writes(journal, |img|)|
    ensures ReplayList(Apply(img, Writes(journal, |img|)[..n]), bs, blks) == ReplayList(img, bs, blks)
  {
    hide Writes, Apply, ReplayList, Gather;
    PrefixTorn(img, journal, n);
    ListRepairs(img, Apply(img, Writes(journal, |img|)[..n]), bs, blks, journal);
  }

  /** Every write stores one whole file-system block. */
  ghost predicate Whole(ws: seq<Write>, bs: nat) {
    forall i :: 0 <= i < |ws| ==> |ws[i].data| == bs && exists q: nat :: ws[i].off == q * bs
  }

  lemma {:induction false} TxnWhole(t: Txn, bs: nat, len: nat, i: nat)
    requires i <= |t.tags| && Sized(t, bs)
    ensures Whole(TxnWrites(t, bs, len, i), bs)
  {
    if i > 0 {
      TxnWhole(t, bs, len, i - 1);
      if Lands(t, bs, len, i - 1) {
        assert WriteOf(t, bs, i - 1).off == t.tags[i - 1].fsBlock * bs;
      }
    }
  }

  lemma {:induction false} WritesWhole(sb: Super, bs: seq<seq<byte>>, len: nat, k: nat)
    requires k <= |bs| && forall b :: b in bs ==> |b| == sb.blockSize
    ensures Whole(WritesAt(sb, bs, len, k), sb.blockSize)
  {
    hide CurAt;
    if k > 0 {
      WritesWhole(sb, bs, len, k - 1);
      if Commits(sb, bs, k - 1) {
        var t := CurAt(sb, bs, k - 1).value;
        TxnWhole(t, sb.blockSize, len, |t.tags|);
      }
    }
  }

  lemma BlocksApart(a: nat, b: nat, bs: nat, p: nat)
    requires a * bs <= p < a * bs + bs && b * bs <= p < b * bs + bs
    ensures a == b
  {
    MulMono(a + 1, b, bs);
    MulMono(b + 1, a, bs);
  }

  /** With one block size throughout, it is enough that no replayed block is a journal block. */
  lemma NamesNoJournalBlock(img: seq<byte>, bs: nat, blks: seq<nat>, journal: seq<byte>)
    requires Checked(journal).Ok? && Checked(journal).value.blockSize == bs
    requires forall w, i :: w in Writes(journal, |img|) && 0 <= i < |blks| ==> w.off != blks[i] * bs
    ensures JournalApart(img, bs, blks, journal)
  {
    hide Scan, WritesAt, Checked;
    var sb := Checked(journal).value;
    var blocks := Scanned(journal, sb);
    var ws := Writes(journal, |img|);
    WritesWhole(sb, blocks, |img|, |blocks|);
    forall i, p | 0 <= i < |blks| && blks[i] * bs <= p < blks[i] * bs + bs ensures !Touches(ws, p) {
      if Touches(ws, p) {
        var j :| 0 <= j < |ws| && InWrite(ws[j], p);
        var q: nat :| ws[j].off == q * bs;
        assert ws[j] in ws;
        BlocksApart(q, blks[i], bs, p);
        assert false;
      }
    }
  }

  // --- all or nothing, and the last writer wins ---

  ghost predicate AllSized(sb: Super, bs: seq<seq<byte>>) { forall b :: b in bs ==> |b| == sb.blockSize }

  /** Block d is the descriptor of the transaction pending before block k. */
  ghost predicate Opens(bs: seq<seq<byte>>, d: nat, k: nat) {
    d < k <= |bs| && KindOf(bs[d]).Descriptor? &&
    forall j :: d < j < k ==> !KindOf(bs[j]).Descriptor? && !KindOf(bs[j]).Commit?
  }

  /** The blocks without a header between two positions. */
  ghost function Payloads(bs: seq<seq<byte>>, i: nat, k: nat): (ps: seq<seq<byte>>)
    requires i <= k <= |bs|
    decreases k
  {
    if i == k then [] else Payloads(bs, i, k - 1) + if KindOf(bs[k - 1]).Payload? then [bs[k - 1]] else []
  }

  /** Some revoke block between two positions names blk, for sequence s. */
  ghost predicate RevokedIn(sb: Super, bs: seq<seq<byte>>, i: nat, k: nat, s: nat, blk: nat) {
    exists j :: i <= j < k <= |bs| && KindOf(bs[j]) == Revoke(s) && (s, blk) in ParseRevoke(sb, bs[j], s)
  }

  /** Tag i of the descriptor d: committed by block c, not revoked, with its payload in the journal and its block in the image. */
  ghost predicate Live(sb: Super, bs: seq<seq<byte>>, len: nat, d: nat, c: nat, i: nat) {
    c < |bs| && Opens(bs, d, c) && KindOf(bs[c]) == Commit(KindOf(bs[d]).seqNo) &&
    var tags := TagsFrom(sb, bs[d], 12);
    i < |tags| && i < |Payloads(bs, d + 1, c)| && tags[i].fsBlock * sb.blockSize + sb.blockSize <= len &&
    !RevokedIn(sb, bs, d + 1, c, KindOf(bs[d]).seqNo, tags[i].fsBlock)
  }

  /** A live tag for the block that holds byte p. */
  ghost predicate Hits(sb: Super, bs: seq<seq<byte>>, len: nat, d: nat, c: nat, i: nat, p: nat) {
    Live(sb, bs, len, d, c, i) &&
    var off := TagsFrom(sb, bs[d], 12)[i].fsBlock * sb.blockSize; off <= p < off + sb.blockSize
  }

  /** The byte that this tag stores at p. */
  ghost function HitByte(sb: Super, bs: seq<seq<byte>>, len: nat, d: nat, c: nat, i: nat, p: nat): byte
    requires AllSized(sb, bs) && Hits(sb, bs, len, d, c, i, p)
  {
    var tag := TagsFrom(sb, bs[d], 12)[i];
    PayloadsSized(sb, bs, d + 1, c);
    Unescape(tag.escaped, Payloads(bs, d + 1, c)[i])[p - tag.fsBlock * sb.blockSize]
  }

  lemma {:induction false} PayloadsSized(sb: Super, bs: seq<seq<byte>>, i: nat, k: nat)
    requires AllSized(sb, bs) && i <= k <= |bs|
    ensures forall j :: 0 <= j < |Payloads(bs, i, k)| ==> |Payloads(bs, i, k)[j]| == sb.blockSize
    decreases k
  {
    if i < k {
      PayloadsSized(sb, bs, i, k - 1);
      assert bs[k - 1] in bs;
    }
  }

  /** The pending transaction is what lies between its descriptor and here. */
  lemma {:induction false} CurIs(sb: Super, bs: seq<seq<byte>>, d: nat, k: nat)
    requires AllSized(sb, bs) && Opens(bs, d, k)
    ensures var t := CurAt(sb, bs, k);
      t.Some? && t.value.seqNo == KindOf(bs[d]).seqNo && t.value.tags == TagsFrom(sb, bs[d], 12) &&
      t.value.payloads == Payloads(bs, d + 1, k) &&
      forall blk: nat :: (t.value.seqNo, blk) in t.value.revokes <==> RevokedIn(sb, bs, d + 1, k, t.value.seqNo, blk)
    decreases k
  {
    hide KindOf, TagsFrom, ParseRevoke;
    if k == d + 1 {
      assert CurAt(sb, bs, k) == NextTxn(sb, bs[d], CurAt(sb, bs, d));
    } else {
      CurIs(sb, bs, d, k - 1);
      var t0, t := CurAt(sb, bs, k - 1).value, CurAt(sb, bs, k).value;
      forall blk: nat ensures (t.seqNo, blk) in t.revokes <==> RevokedIn(sb, bs, d + 1, k, t.seqNo, blk) {
        RevokedStep(sb, bs, d + 1, k, t.seqNo, blk);
      }
    }
  }

  lemma RevokedStep(sb: Super, bs: seq<seq<byte>>, i: nat, k: nat, s: nat, blk: nat)
    requires i < k <= |bs|
    ensures RevokedIn(sb, bs, i, k, s, blk) <==>
      RevokedIn(sb, bs, i, k - 1, s, blk) || (KindOf(bs[k - 1]) == Revoke(s) && (s, blk) in ParseRevoke(sb, bs[k - 1], s))
  {
    hide KindOf, ParseRevoke;
  }

  lemma {:induction false} OpenerOf(sb: Super, bs: seq<seq<byte>>, k: nat) returns (d: nat)
    requires AllSized(sb, bs) && k <= |bs| && CurAt(sb, bs, k).Some?
    ensures Opens(bs, d, k)
    decreases k
  {
    hide KindOf, TagsFrom, ParseRevoke;
    if KindOf(bs[k - 1]).Descriptor? {
      d := k - 1;
    } else {
      d := OpenerOf(sb, bs, k - 1);
    }
  }

  ghost predicate TagHits(t: Txn, bs: nat, len: nat, i: nat, p: nat) {
    i < |t.tags| && Lands(t, bs, len, i) && t.tags[i].fsBlock * bs <= p < t.tags[i].fsBlock * bs + bs
  }

  ghost function TagByte(t: Txn, bs: nat, len: nat, i: nat, p: nat): byte
    requires Sized(t, bs) && TagHits(t, bs, len, i, p)
  {
    Unescape(t.tags[i].escaped, t.payloads[i])[p - t.tags[i].fsBlock * bs]
  }

  lemma ApplySnoc(img: seq<byte>, ws: seq<Write>, w: Write)
    requires Fit(ws + [w], |img|) && Fit(ws, |img|) && w.off + |w.data| <= |img|
    ensures Apply(img, ws + [w]) == Splice(Apply(img, ws), w.off, w.data)
  {
    assert (ws + [w])[..|ws|] == ws;
  }

  lemma TxnByteStep(t: Txn, bs: nat, n: nat, img: seq<byte>, ws: seq<Write>, p: nat)
    requires n < |t.tags| && Sized(t, bs) && Fit(ws, |img|) && p < |img|
    ensures Apply(img, ws + TxnWrites(t, bs, |img|, n + 1))[p] ==
      if TagHits(t, bs, |img|, n, p) then TagByte(t, bs, |img|, n, p) else Apply(img, ws + TxnWrites(t, bs, |img|, n))[p]
  {
    hide IsRevoked, Unescape, Apply;
    var before := ws + TxnWrites(t, bs, |img|, n);
    if Lands(t, bs, |img|, n) {
      var w := WriteOf(t, bs, n);
      assert ws + TxnWrites(t, bs, |img|, n + 1) == before + [w];
      ApplySnoc(img, before, w);
    } else {
      assert ws + TxnWrites(t, bs, |img|, n + 1) == before;
    }
  }

  /** The last of the first n tags that hits byte p, if any does. */
  ghost predicate IsLastTag(t: Txn, bs: nat, len: nat, n: nat, p: nat, last: Option<nat>) {
    match last
    case None => forall i :: 0 <= i < n ==> !TagHits(t, bs, len, i, p)
    case Some(k) => k < n && TagHits(t, bs, len, k, p) && forall j :: k < j < n ==> !TagHits(t, bs, len, j, p)
  }

  /** A committed transaction stores, at each byte, its last tag that lands there. */
  lemma {:induction false} TxnByte(t: Txn, bs: nat, n: nat, img: seq<byte>, ws: seq<Write>, p: nat) returns (last: Option<nat>)
    requires n <= |t.tags| && Sized(t, bs) && Fit(ws, |img|) && p < |img|
    ensures IsLastTag(t, bs, |img|, n, p, last)
    ensures Apply(img, ws + TxnWrites(t, bs, |img|, n))[p] ==
      if last.Some? then TagByte(t, bs, |img|, last.value, p) else Apply(img, ws)[p]
    decreases n
  {
    hide TagHits, TagByte, Apply, TxnWrites;
    if n == 0 {
      last := None;
      NoWrites(t, bs, |img|, ws);
    } else {
      last := TxnByte(t, bs, n - 1, img, ws, p);
      TxnByteStep(t, bs, n - 1, img, ws, p);
      if TagHits(t, bs, |img|, n - 1, p) {
        last := Some(n - 1);
      }
    }
  }

  lemma NoWrites(t: Txn, bs: nat, len: nat, ws: seq<Write>)
    requires Sized(t, bs)
    ensures ws + TxnWrites(t, bs, len, 0) == ws
  {
  }

  /** What hits byte p at block k is a tag of the transaction that block k commits. */
  lemma HitsAt(sb: Super, bs: seq<seq<byte>>, len: nat, d: nat, k: nat, i: nat, p: nat)
    requires AllSized(sb, bs) && k < |bs| && Opens(bs, d, k)
    ensures Hits(sb, bs, len, d, k, i, p) <==>
      Commits(sb, bs, k) && TagHits(CurAt(sb, bs, k).value, sb.blockSize, len, i, p)
    ensures Hits(sb, bs, len, d, k, i, p) ==>
      HitByte(sb, bs, len, d, k, i, p) == TagByte(CurAt(sb, bs, k).value, sb.blockSize, len, i, p)
  {
    hide KindOf, TagsFrom, ParseRevoke, CurAt, RevokedIn, Payloads, Unescape;
    CurIs(sb, bs, d, k);
    var t := CurAt(sb, bs, k).value;
    if i < |t.tags| { RevokedIs(t, t.tags[i].fsBlock); }
  }

  lemma RevokedIs(t: Txn, blk: nat)
    ensures IsRevoked(t, blk) <==> (t.seqNo, blk) in t.revokes
  {
  }

  /** No hit at p comes later, among the blocks before k. */
  ghost predicate LastHit(sb: Super, bs: seq<seq<byte>>, len: nat, k: nat, d: nat, c: nat, i: nat, p: nat) {
    c < k && Hits(sb, bs, len, d, c, i, p) &&
    forall d': nat, c': nat, i': nat :: c' < k && Hits(sb, bs, len, d', c', i', p) ==> c' < c || (c' == c && i' <= i)
  }

  ghost predicate Unhit(sb: Super, bs: seq<seq<byte>>, len: nat, k: nat, p: nat) {
    forall d: nat, c: nat, i: nat :: c < k ==> !Hits(sb, bs, len, d, c, i, p)
  }

  ghost predicate ByteOk(sb: Super, bs: seq<seq<byte>>, img: seq<byte>, x: byte, k: nat, p: nat)
    requires AllSized(sb, bs) && p < |img|
  {
    (Unhit(sb, bs, |img|, k, p) && x == img[p]) ||
    exists d: nat, c: nat, i: nat :: LastHit(sb, bs, |img|, k, d, c, i, p) && x == HitByte(sb, bs, |img|, d, c, i, p)
  }

  lemma SkipBlock(sb: Super, bs: seq<seq<byte>>, img: seq<byte>, x: byte, k: nat, p: nat)
    requires AllSized(sb, bs) && p < |img| && k < |bs| && ByteOk(sb, bs, img, x, k, p)
    requires forall d: nat, i: nat :: !Hits(sb, bs, |img|, d, k, i, p)
    ensures ByteOk(sb, bs, img, x, k + 1, p)
  {
    hide Hits, HitByte;
    if Unhit(sb, bs, |img|, k, p) && x == img[p] {
    } else {
      var d: nat, c: nat, i: nat :| LastHit(sb, bs, |img|, k, d, c, i, p) && x == HitByte(sb, bs, |img|, d, c, i, p);
      assert LastHit(sb, bs, |img|, k + 1, d, c, i, p);
    }
  }

  lemma OpensUnique(bs: seq<seq<byte>>, d: nat, d': nat, k: nat)
    requires Opens(bs, d, k) && Opens(bs, d', k)
    ensures d == d'
  {
  }

  /** Scanning one more block keeps every byte right. */
  lemma CommitBlock(sb: Super, bs: seq<seq<byte>>, img: seq<byte>, k: nat, p: nat)
    requires AllSized(sb, bs) && p < |img| && k < |bs| && Commits(sb, bs, k)
    requires ByteOk(sb, bs, img, Apply(img, WritesAt(sb, bs, |img|, k))[p], k, p)
    ensures ByteOk(sb, bs, img, Apply(img, WritesAt(sb, bs, |img|, k + 1))[p], k + 1, p)
  {
    hide KindOf, TagsFrom, CurAt, Apply, TxnWrites, Hits, HitByte, TagHits, TagByte, Opens, Commits;
    var len := |img|;
    var t := CommitTxn(sb, bs, k);
    var d := OpenerOf(sb, bs, k);
    var ws, out := WritesAt(sb, bs, len, k), Apply(img, WritesAt(sb, bs, len, k + 1))[p];
    var last := TxnByte(t, sb.blockSize, |t.tags|, img, ws, p);
    forall d': nat, i: nat | Hits(sb, bs, len, d', k, i, p) ensures d' == d && TagHits(t, sb.blockSize, len, i, p) && i < |t.tags| {
      HitOpens(sb, bs, len, d', k, i, p);
      OpensUnique(bs, d, d', k);
      HitsAt(sb, bs, len, d, k, i, p);
      TagBound(t, sb.blockSize, len, i, p);
    }
    if last.None? {
      SkipBlock(sb, bs, img, out, k, p);
    } else {
      HitsAt(sb, bs, len, d, k, last.value, p);
      assert LastHit(sb, bs, len, k + 1, d, k, last.value, p);
    }
  }

  lemma TagBound(t: Txn, bs: nat, len: nat, i: nat, p: nat)
    requires TagHits(t, bs, len, i, p)
    ensures i < |t.tags|
  {
  }

  lemma HitOpens(sb: Super, bs: seq<seq<byte>>, len: nat, d: nat, c: nat, i: nat, p: nat)
    requires Hits(sb, bs, len, d, c, i, p)
    ensures Opens(bs, d, c)
  {
  }

  lemma CommitTxn(sb: Super, bs: seq<seq<byte>>, k: nat) returns (t: Txn)
    requires AllSized(sb, bs) && k < |bs| && Commits(sb, bs, k)
    ensures CurAt(sb, bs, k) == Some(t) && Sized(t, sb.blockSize)
  {
    t := CurAt(sb, bs, k).value;
  }

  lemma {:induction false} ScannedByte(sb: Super, bs: seq<seq<byte>>, img: seq<byte>, k: nat, p: nat)
    requires AllSized(sb, bs) && p < |img| && k <= |bs|
    ensures ByteOk(sb, bs, img, Apply(img, WritesAt(sb, bs, |img|, k))[p], k, p)
    decreases k
  {
    hide KindOf, CurAt, Apply, TxnWrites, Hits, HitByte, Commits;
    if k == 0 {
      ApplyByte(img, [], p);
      assert Unhit(sb, bs, |img|, 0, p);
    } else {
      ScannedByte(sb, bs, img, k - 1, p);
      if Commits(sb, bs, k - 1) {
        CommitBlock(sb, bs, img, k - 1, p);
      } else {
        var c := k - 1;
        forall d: nat, i: nat | Hits(sb, bs, |img|, d, c, i, p) ensures false {
          HitOpens(sb, bs, |img|, d, c, i, p);
          HitsAt(sb, bs, |img|, d, c, i, p);
        }
        SkipBlock(sb, bs, img, Apply(img, WritesAt(sb, bs, |img|, c))[p], c, p);
      }
    }
  }

  /**
   * Every byte of the replayed image is the byte that the last live tag for its block stores there, or the byte it
   * was when no live tag names its block. Live tags are those of transactions met by a commit of their own sequence.
   */
  lemma LastWriterWins(img: seq<byte>, journal: seq<byte>, p: nat)
    requires Checked(journal).Ok? && p < |img|
    ensures var sb := Checked(journal).value; var bs := Scanned(journal, sb);
      ByteOk(sb, bs, img, Replay(img, journal).0[p], |bs|, p)
  {
    hide Checked, Scan, ByteOk, Apply, WritesAt, ReportAt;
    var sb := Checked(journal).value;
    var bs := Scanned(journal, sb);
    ScannedByte(sb, bs, img, |bs|, p);
  }

  /** Unfinished transactions, and those closed by a commit of another sequence, have no effect at all. */
  lemma NoCommitNoEffect(img: seq<byte>, journal: seq<byte>)
    requires Checked(journal).Ok?
    requires var bs := Scanned(journal, Checked(journal).value);
      forall d: nat, c: nat :: c < |bs| && Opens(bs, d, c) ==> KindOf(bs[c]) != Commit(KindOf(bs[d]).seqNo)
    ensures Replay(img, journal).0 == img
  {
    hide Checked, Scan, Apply, WritesAt, ReportAt, KindOf, TagsFrom;
    forall p | 0 <= p < |img| ensures Replay(img, journal).0[p] == img[p] {
      LastWriterWins(img, journal, p);
    }
  }
}
