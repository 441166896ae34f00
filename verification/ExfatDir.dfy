/** Directories as sequences of 32-byte entries: what makes one well formed, and what each edit does to it. */
module ExfatDir {
  import opened Bytes
  import opened Utf16
  import opened ExfatDentry

  predicate Aligned(i: int) { i % 32 == 0 }

  /** Bytes of a set with sec secondary entries. */
  function SetLen(sec: nat): nat { 32 * (1 + sec) }

  function Count(sec: nat): nat { 1 + sec }

  ghost predicate AllZero(b: seq<byte>, i: nat) {
    forall j :: i <= j < |b| ==> b[j] == 0
  }

  /** The secondary entries of a set starting at i are in use; 0x80 would become the end mark when deleted. */
  ghost predicate SecsInUse(b: seq<byte>, i: nat, sec: nat) {
    i + SetLen(sec) <= |b| && forall j :: i < j < i + SetLen(sec) && Aligned(j - i) ==> b[j] > 0x80
  }

  /** From byte i on: whole entry sets with correct checksums, and nothing but zeros after the end mark. */
  ghost predicate WfFrom(b: seq<byte>, i: nat)
    decreases |b| - i
  {
    if i + 32 > |b| then true
    else if b[i] == EOD then AllZero(b, i)
    else if b[i] != FILE then WfFrom(b, i + 32)
    else
      && SecsInUse(b, i, b[i + 1])
      && ChecksumOk(b[i..i + SetLen(b[i + 1])])
      && WfFrom(b, i + SetLen(b[i + 1]))
  }

  ghost predicate WfDir(b: seq<byte>) { Aligned(|b|) && WfFrom(b, 0) }

  /** A complete set: its own entry count, secondaries in use, correct checksum. */
  ghost predicate GoodSet(d: seq<byte>) {
    && |d| >= 32 && Aligned(|d|) && d[0] == FILE && |d| == SetLen(d[1])
    && SecsInUse(d, 0, d[1]) && ChecksumOk(d)
  }

  // --- locality ---

  lemma SliceOfSlice(b: seq<byte>, i: nat, n: nat, lo: nat, hi: nat)
    requires i + n <= |b| && lo <= hi <= n
    ensures b[i..i + n][lo..hi] == b[i + lo..i + hi]
  {
    var x, y := b[i..i + n][lo..hi], b[i + lo..i + hi];
    assert |x| == |y|;
    forall j | 0 <= j < |x| ensures x[j] == y[j] {
      assert x[j] == b[i..i + n][lo + j] == b[i + (lo + j)];
    }
  }

  lemma EntryLocal(b: seq<byte>, b': seq<byte>, i: nat, n: nat)
    requires i + SetLen(n) <= |b| && i + SetLen(n) <= |b'| && b[i + 1] == n
    requires b[i..i + SetLen(n)] == b'[i..i + SetLen(n)]
    ensures EntryAt(b, i) == EntryAt(b', i)
  {
    hide Scan, FromLe, InfoName, HasDirAttr;
    var len := SetLen(n);
    SliceOfSlice(b, i, len, 1, 2);
    SliceOfSlice(b', i, len, 1, 2);
    SliceOfSlice(b, i, len, 4, 6);
    SliceOfSlice(b', i, len, 4, 6);
    SliceOfSlice(b, i, len, 32, len);
    SliceOfSlice(b', i, len, 32, len);
    assert b[i + 1..i + 2][0] == b'[i + 1..i + 2][0];
    ScanShift(b, i + 32, b', i + 32, n, NO_INFO);
  }

  /** What lies before j does not matter to the directory from j on. */
  lemma {:induction false} SuffixSame(b: seq<byte>, b': seq<byte>, j: nat)
    requires |b| == |b'| && forall k :: j <= k < |b| ==> b[k] == b'[k]
    requires WfFrom(b, j)
    ensures WfFrom(b', j) && ParseFrom(b', j) == ParseFrom(b, j)
    decreases |b| - j
  {
    hide EntryAt, ChecksumOk, ScanEnd;
    if j + 32 <= |b| && b[j] != EOD {
      if b[j] != FILE {
        SuffixSame(b, b', j + 32);
      } else {
        var n := SetLen(b[j + 1]);
        assert b[j..j + n] == b'[j..j + n];
        EntryLocal(b, b', j, b[j + 1]);
        SuffixSame(b, b', j + n);
      }
    }
  }

  lemma {:induction false} ZeroTail(b: seq<byte>, i: nat, j: nat)
    requires AllZero(b, i) && i <= j
    ensures WfFrom(b, j) && ParseFrom(b, j) == []
  {
  }

  /** Every zero entry type starts the all-zero tail. */
  lemma {:induction false} RawEod(b: seq<byte>, i: nat, j: nat)
    requires WfFrom(b, i) && i <= j && j + 32 <= |b| && Aligned(i) && Aligned(j) && b[j] == EOD
    ensures AllZero(b, j)
    decreases |b| - i
  {
    hide ChecksumOk;
    if b[i] != EOD {
      if b[i] != FILE { RawEod(b, i + 32, j); } else { RawEod(b, i + SetLen(b[i + 1]), j); }
    }
  }

  /** Free slots can be skipped. */
  lemma {:induction false} SkipFree(b: seq<byte>, i: nat, n: nat)
    requires WfFrom(b, i) && i + 32 * n <= |b|
    requires forall k :: 0 <= k < n ==> b[i + 32 * k] < 0x80
    ensures WfFrom(b, i + 32 * n) && ParseFrom(b, i + 32 * n) == ParseFrom(b, i)
    decreases n
  {
    if n > 0 {
      assert b[i + 32 * 0] < 0x80;
      if b[i] == EOD {
        ZeroTail(b, i, i + 32 * n);
      } else {
        forall k | 0 <= k < n - 1 ensures b[i + 32 + 32 * k] < 0x80 { assert b[i + 32 * (k + 1)] < 0x80; }
        SkipFree(b, i + 32, n - 1);
      }
    }
  }

  /** Deleted slots in front of a well-formed rest keep it well formed. */
  lemma {:induction false} PrependFree(b: seq<byte>, i: nat, n: nat)
    requires i + 32 * n <= |b| && WfFrom(b, i + 32 * n)
    requires forall k :: 0 <= k < n ==> 0 < b[i + 32 * k] < 0x80
    ensures WfFrom(b, i) && ParseFrom(b, i) == ParseFrom(b, i + 32 * n)
    decreases n
  {
    if n > 0 {
      assert 0 < b[i + 32 * 0] < 0x80;
      forall k | 0 <= k < n - 1 ensures 0 < b[i + 32 + 32 * k] < 0x80 { assert 0 < b[i + 32 * (k + 1)] < 0x80; }
      PrependFree(b, i + 32, n - 1);
    }
  }

  // --- inserting a set into free slots ---

  /** The slots at off..off+|d| are free and are reached by the parser. */
  ghost predicate FreeRun(b: seq<byte>, i: nat, off: nat, n: nat) {
    && Aligned(i) && Aligned(off) && i <= off && off + 32 * n <= |b|
    && (forall k :: 0 <= k < n ==> b[off + 32 * k] < 0x80)
    && (forall j :: i <= j < off && Aligned(j) ==> b[j] != EOD)
  }

  ghost predicate InsertedAt(es: seq<DirEntry>, es': seq<DirEntry>, e: DirEntry, k: nat) {
    k <= |es| && es' == es[..k] + [e] + es[k..]
  }

  /** A complete set, followed by a well-formed rest. */
  lemma GoodSetAt(b: seq<byte>, i: nat, d: seq<byte>)
    requires GoodSet(d) && i + |d| <= |b| && (forall j :: 0 <= j < |d| ==> b[i + j] == d[j]) && WfFrom(b, i + |d|)
    requires EntryAt(b, i).name != []
    ensures WfFrom(b, i) && ParseFrom(b, i) == [EntryAt(b, i)] + ParseFrom(b, i + |d|)
  {
    hide EntryAt, ChecksumOk;
    assert b[i..i + |d|] == d;
    assert b[i + 0] == d[0] && b[i + 1] == d[1];
    forall j | i < j < i + |d| && Aligned(j - i) ensures b[j] > 0x80 { assert b[i + (j - i)] == d[j - i]; }
  }

  lemma {:induction false} InsertHere(b: seq<byte>, off: nat, d: seq<byte>)
    requires WfFrom(b, off) && GoodSet(d) && off + |d| <= |b|
    requires forall k :: 0 <= k < |d| / 32 ==> b[off + 32 * k] < 0x80
    requires EntryAt(Splice(b, off, d), off).name != []
    ensures var b' := Splice(b, off, d);
      WfFrom(b', off) && InsertedAt(ParseFrom(b, off), ParseFrom(b', off), EntryAt(b', off), 0)
  {
    var b' := Splice(b, off, d);
    var end := off + |d|;
    SkipFree(b, off, |d| / 32);
    SuffixSame(b, b', end);
    GoodSetAt(b', off, d);
  }

  /** One parser step past an entry that is not a file's. */
  lemma StepOther(b: seq<byte>, i: nat)
    requires i + 32 <= |b| && b[i] != FILE && b[i] != EOD
    ensures ParseFrom(b, i) == ParseFrom(b, i + 32) && WfFrom(b, i) == WfFrom(b, i + 32)
  {
  }

  /** One parser step past a set, when the slot at off is no part of any set. */
  lemma StepSet(b: seq<byte>, b': seq<byte>, i: nat, off: nat)
    requires WfFrom(b, i) && i + 32 <= |b| && b[i] == FILE && |b| == |b'|
    requires Aligned(i) && Aligned(off) && i < off < |b| && b[off] <= 0x80
    requires forall j :: 0 <= j < off ==> b'[j] == b[j]
    ensures var next := i + SetLen(b[i + 1]);
      && next <= off && WfFrom(b, next) && (WfFrom(b', next) ==> WfFrom(b', i))
      && ParseFrom(b, i) == (if EntryAt(b, i).name == [] then [] else [EntryAt(b, i)]) + ParseFrom(b, next)
      && ParseFrom(b', i) == (if EntryAt(b, i).name == [] then [] else [EntryAt(b, i)]) + ParseFrom(b', next)
  {
    hide EntryAt, ChecksumOk;
    assert SecsInUse(b, i, b[i + 1]);
    assert i + SetLen(b[i + 1]) <= off;
    StepSetBefore(b, b', i, off);
  }

  lemma InsertedPrefix(pre: seq<DirEntry>, es: seq<DirEntry>, es': seq<DirEntry>, e: DirEntry, k: nat)
    requires InsertedAt(es, es', e, k)
    ensures InsertedAt(pre + es, pre + es', e, |pre| + k)
  {
    assert (pre + es)[..|pre| + k] == pre + es[..k];
    assert (pre + es)[|pre| + k..] == es[k..];
    assert pre + es' == pre + es[..k] + [e] + es[k..];
  }

  lemma GoodSetFits(d: seq<byte>)
    requires GoodSet(d)
    ensures |d| == 32 * (|d| / 32) && |d| / 32 >= 1
  {
    GoodSetAligned(d);
  }

  lemma FreeRunFits(b: seq<byte>, i: nat, off: nat, n: nat)
    requires FreeRun(b, i, off, n)
    ensures i <= off && off + 32 * n <= |b| && forall k :: 0 <= k < n ==> b[off + 32 * k] < 0x80
  {
  }

  /** The run is still ahead after one parser step. */
  lemma FreeRunStep(b: seq<byte>, i: nat, off: nat, n: nat)
    requires FreeRun(b, i, off, n) && i < off && n >= 1
    ensures i + 32 <= |b| && b[i] != EOD && b[off] < 0x80 && Aligned(i) && Aligned(off)
    ensures FreeRun(b, i + 32, off, n)
    ensures forall sec: nat :: i + SetLen(sec) <= off ==> FreeRun(b, i + SetLen(sec), off, n)
  {
    assert b[off + 32 * 0] < 0x80;
  }

  lemma {:induction false} InsertFrom(b: seq<byte>, i: nat, off: nat, d: seq<byte>) returns (k: nat)
    requires WfFrom(b, i) && GoodSet(d) && FreeRun(b, i, off, |d| / 32)
    requires EntryAt(Splice(b, off, d), off).name != []
    ensures var b' := Splice(b, off, d);
      WfFrom(b', i) && InsertedAt(ParseFrom(b, i), ParseFrom(b', i), EntryAt(b', off), k)
    decreases |b| - i
  {
    hide EntryAt, ChecksumOk, InsertedAt, ParseFrom, WfFrom, Splice, FreeRun, GoodSet, Aligned;
    var n := |d| / 32;
    GoodSetFits(d);
    FreeRunFits(b, i, off, n);
    var b' := Splice(b, off, d);
    if i == off {
      InsertHere(b, off, d);
      k := 0;
    } else {
      FreeRunStep(b, i, off, n);
      if b[i] != FILE {
        StepOther(b, i);
        StepOther(b', i);
        k := InsertFrom(b, i + 32, off, d);
      } else {
        var next := i + SetLen(b[i + 1]);
        StepSet(b, b', i, off);
        k := InsertFrom(b, next, off, d);
        var pre := if EntryAt(b, i).name == [] then [] else [EntryAt(b, i)];
        InsertedPrefix(pre, ParseFrom(b, next), ParseFrom(b', next), EntryAt(b', off), k);
        k := |pre| + k;
      }
    }
  }

  // --- replacing a set in place ---

  /** `mark_dentry_range_deleted`: clear the in-use bit of n entries from off on. */
  function MarkDeleted(b: seq<byte>, off: nat, n: nat): (r: seq<byte>)
    ensures |r| == |b|
    decreases n
  {
    if n == 0 then b
    else
      var b1 := if off < |b| then (var t: byte := b[off] % 128; var c: seq<byte> := b[off := t]; c) else b;
      MarkDeleted(b1, off + 32, n - 1)
  }

  lemma {:induction false} MarkDeletedAt(b: seq<byte>, off: nat, n: nat)
    ensures forall j :: 0 <= j < |b| ==>
      MarkDeleted(b, off, n)[j] == if off <= j < off + 32 * n && Aligned(j - off) then b[j] % 128 else b[j]
    decreases n
  {
    if n > 0 {
      var b1 := if off < |b| then b[off := b[off] % 128] else b;
      MarkDeletedAt(b1, off + 32, n - 1);
    }
  }

  /** d written over the first entries of the old set at off; its remaining entries marked deleted. */
  function Rewrite(b: seq<byte>, off: nat, d: seq<byte>, slots: nat): (r: seq<byte>)
    requires off + |d| <= |b| && |d| / 32 <= slots
    ensures |r| == |b|
  {
    MarkDeleted(Splice(b, off, d), off + |d|, slots - |d| / 32)
  }

  lemma RewriteAt(b: seq<byte>, off: nat, d: seq<byte>, slots: nat)
    requires off + |d| <= |b| && |d| / 32 <= slots && Aligned(|d|)
    ensures var r := Rewrite(b, off, d, slots);
      && (forall j :: 0 <= j < off || off + 32 * slots <= j < |b| ==> r[j] == b[j])
      && (forall j :: 0 <= j < |d| ==> r[off + j] == d[j])
      && (forall k :: 0 <= k < slots - |d| / 32 && off + |d| + 32 * k < |b| ==> r[off + |d| + 32 * k] == b[off + |d| + 32 * k] % 128)
  {
    MarkDeletedAt(Splice(b, off, d), off + |d|, slots - |d| / 32);
  }

  lemma RewritePrefix(b: seq<byte>, off: nat, d: seq<byte>, slots: nat)
    requires off + |d| <= |b| && |d| / 32 <= slots && Aligned(|d|)
    ensures var r := Rewrite(b, off, d, slots); |r| == |b| && forall j :: 0 <= j < off ==> r[j] == b[j]
  {
    hide Rewrite;
    RewriteAt(b, off, d, slots);
  }

  lemma AlignedStep(i: nat, sec: nat)
    requires Aligned(i)
    ensures Aligned(i + 32) && Aligned(i + SetLen(sec))
  {
  }

  lemma RewriteHere(b: seq<byte>, off: nat, d: seq<byte>)
    requires off + 32 <= |b| && b[off] == FILE && WfFrom(b, off) && GoodSet(d) && |d| <= SetLen(b[off + 1])
    requires EntryAt(b, off).name != []
    requires EntryAt(Rewrite(b, off, d, Count(b[off + 1])), off).name != []
    ensures var b' := Rewrite(b, off, d, Count(b[off + 1]));
      && WfFrom(b', off)
      && ParseFrom(b, off) == [EntryAt(b, off)] + ParseFrom(b, off + SetLen(b[off + 1]))
      && ParseFrom(b', off) == [EntryAt(b', off)] + ParseFrom(b, off + SetLen(b[off + 1]))
  {
    hide EntryAt, ChecksumOk, Rewrite, WfFrom, ParseFrom, GoodSet;
    var sec: nat := b[off + 1];
    SetUnfold(b, off);
    GoodSetAligned(d);
    var b' := Rewrite(b, off, d, Count(sec));
    var next, mid, n := off + SetLen(sec), off + |d|, 1 + sec - |d| / 32;
    RewriteAt(b, off, d, Count(sec));
    SuffixSame(b, b', next);
    assert mid + 32 * n == next;
    forall k | 0 <= k < n ensures 0 < b'[mid + 32 * k] < 0x80 {
      assert b[mid + 32 * k] > 0x80;
    }
    PrependFree(b', mid, n);
    GoodSetAt(b', off, d);
  }

  lemma SetUnfold(b: seq<byte>, off: nat)
    requires off + 32 <= |b| && b[off] == FILE && WfFrom(b, off) && EntryAt(b, off).name != []
    ensures var next := off + SetLen(b[off + 1]);
      && SecsInUse(b, off, b[off + 1]) && WfFrom(b, next) && ParseFrom(b, off) == [EntryAt(b, off)] + ParseFrom(b, next)
  {
    hide EntryAt, ChecksumOk;
    EntryLocal(b, b, off, b[off + 1]);
  }

  lemma SomeEntry(b: seq<byte>, i: nat)
    requires WfFrom(b, i) && ParseFrom(b, i) != []
    ensures i + 32 <= |b| && b[i] != EOD && (b[i] == FILE ==> i + SetLen(b[i + 1]) <= |b|)
  {
    hide EntryAt, ChecksumOk;
  }

  lemma {:induction false} ParsedOff(b: seq<byte>, i: nat, k: nat)
    requires WfFrom(b, i) && Aligned(i) && k < |ParseFrom(b, i)|
    ensures var e := ParseFrom(b, i)[k];
      i <= e.off && Aligned(e.off) && e.off + SetLen(e.sec) <= |b| && b[e.off] == FILE && b[e.off + 1] == e.sec
      && e == EntryAt(b, e.off) && e.name != [] && WfFrom(b, e.off)
    decreases |b| - i
  {
    hide EntryAt, ChecksumOk, SecsInUse, ParseFrom, WfFrom;
    SomeEntry(b, i);
    if b[i] != FILE {
      StepOther(b, i);
      ParsedOff(b, i + 32, k);
    } else {
      var next, e := i + SetLen(b[i + 1]), EntryAt(b, i);
      OneSet(b, i);
      if e.name == [] {
        ParsedOff(b, next, k);
      } else if k > 0 {
        ParsedOff(b, next, k - 1);
      }
    }
  }

  lemma UpdatePrefix(pre: seq<DirEntry>, es: seq<DirEntry>, e: DirEntry, k: nat)
    requires k < |es|
    ensures pre + es[k := e] == (pre + es)[|pre| + k := e]
  {
  }

  /** Rewriting the set of the k-th entry changes that entry only. */
  lemma {:induction false} RewriteFrom(b: seq<byte>, i: nat, k: nat, d: seq<byte>)
    requires WfFrom(b, i) && Aligned(i) && k < |ParseFrom(b, i)| && GoodSet(d)
    requires var e := ParseFrom(b, i)[k];
      && |d| <= SetLen(e.sec) && e.off + |d| <= |b|
      && EntryAt(Rewrite(b, e.off, d, Count(e.sec)), e.off).name != []
    ensures var e := ParseFrom(b, i)[k]; var b' := Rewrite(b, e.off, d, Count(e.sec));
      WfFrom(b', i) && ParseFrom(b', i) == ParseFrom(b, i)[k := EntryAt(b', e.off)]
    decreases |b| - i
  {
    hide EntryAt, ChecksumOk, Rewrite, WfFrom, ParseFrom, GoodSet, Aligned;
    var e := ParseFrom(b, i)[k];
    ParsedOff(b, i, k);
    var b' := Rewrite(b, e.off, d, Count(e.sec));
    GoodSetAligned(d);
    RewritePrefix(b, e.off, d, Count(e.sec));
    FirstStep(b, i, k);
    AlignedStep(i, b[i + 1]);
    if i == e.off {
      RewriteHere(b, i, d);
    } else if b[i] != FILE {
      StepOther(b, i);
      StepOther(b', i);
      RewriteFrom(b, i + 32, k, d);
    } else {
      var pre := if EntryAt(b, i).name == [] then [] else [EntryAt(b, i)];
      var next := i + SetLen(b[i + 1]);
      StepSetBefore(b, b', i, e.off);
      RewriteFrom(b, next, k - |pre|, d);
      UpdatePrefix(pre, ParseFrom(b, next), EntryAt(b', e.off), k - |pre|);
    }
  }

  lemma GoodSetAligned(d: seq<byte>)
    requires GoodSet(d)
    ensures Aligned(|d|)
  {
  }

  /** Where the k-th entry lies relative to the first step of the parser. */
  lemma FirstStep(b: seq<byte>, i: nat, k: nat)
    requires WfFrom(b, i) && Aligned(i) && k < |ParseFrom(b, i)|
    ensures i + 32 <= |b| && b[i] != EOD
    ensures var e := ParseFrom(b, i)[k];
      && (e.off == i ==> k == 0)
      && (e.off != i && b[i] == FILE ==>
            var pre := if EntryAt(b, i).name == [] then 0 else 1;
            pre <= k && k - pre < |ParseFrom(b, i + SetLen(b[i + 1]))|
            && e == ParseFrom(b, i + SetLen(b[i + 1]))[k - pre] && i + SetLen(b[i + 1]) <= e.off)
  {
    hide EntryAt, ChecksumOk;
    if b[i] == FILE {
      var pre := if EntryAt(b, i).name == [] then 0 else 1;
      if k >= pre { ParsedOff(b, i + SetLen(b[i + 1]), k - pre); }
    } else {
      ParsedOff(b, i + 32, k);
    }
  }

  /** One parser step past a set that lies wholly before an edit at off. */
  lemma StepSetBefore(b: seq<byte>, b': seq<byte>, i: nat, off: nat)
    requires WfFrom(b, i) && i + 32 <= |b| && b[i] == FILE && |b| == |b'|
    requires i + SetLen(b[i + 1]) <= off <= |b|
    requires forall j :: 0 <= j < off ==> b'[j] == b[j]
    ensures var next := i + SetLen(b[i + 1]);
      && WfFrom(b, next) && (WfFrom(b', next) ==> WfFrom(b', i))
      && ParseFrom(b, i) == (if EntryAt(b, i).name == [] then [] else [EntryAt(b, i)]) + ParseFrom(b, next)
      && ParseFrom(b', i) == (if EntryAt(b, i).name == [] then [] else [EntryAt(b, i)]) + ParseFrom(b', next)
  {
    hide EntryAt, ChecksumOk, WfFrom, ParseFrom, SecsInUse;
    var sec := b[i + 1];
    var next := i + SetLen(sec);
    assert b[i..next] == b'[i..next];
    OneSet(b, i);
    SecsSame(b, b', i, sec);
    OneSet(b', i);
    EntryLocal(b, b', i, sec);
  }

  lemma SecsSame(b: seq<byte>, b': seq<byte>, i: nat, sec: nat)
    requires SecsInUse(b, i, sec) && i + SetLen(sec) <= |b'| && forall j :: i <= j < i + SetLen(sec) ==> b'[j] == b[j]
    ensures SecsInUse(b', i, sec)
  {
  }

  /** One step of the parser, and of well-formedness, over a whole set. */
  lemma OneSet(b: seq<byte>, i: nat)
    requires i + 32 <= |b| && b[i] == FILE && i + SetLen(b[i + 1]) <= |b|
    ensures var next := i + SetLen(b[i + 1]);
      && (WfFrom(b, i) <==> SecsInUse(b, i, b[i + 1]) && ChecksumOk(b[i..next]) && WfFrom(b, next))
      && ParseFrom(b, i) == (if EntryAt(b, i).name == [] then [] else [EntryAt(b, i)]) + ParseFrom(b, next)
  {
    hide EntryAt, ChecksumOk, SecsInUse;
  }

  // --- growing a directory ---

  /** Zero bytes at the end change nothing. */
  lemma {:induction false} GrowFrom(b: seq<byte>, i: nat, m: nat)
    requires WfFrom(b, i) && Aligned(i) && Aligned(|b|) && i <= |b|
    ensures WfFrom(b + Zeros(m), i) && ParseFrom(b + Zeros(m), i) == ParseFrom(b, i)
    decreases |b| - i
  {
    hide EntryAt, ChecksumOk, SecsInUse;
    var b' := b + Zeros(m);
    if i + 32 > |b| {
      ZeroTail(b', i, i);
    } else if b[i] == EOD {
      ZeroTail(b', i, i);
    } else if b[i] != FILE {
      GrowFrom(b, i + 32, m);
    } else {
      GrowSet(b, i, m);
      GrowFrom(b, i + SetLen(b[i + 1]), m);
    }
  }

  lemma GrowSet(b: seq<byte>, i: nat, m: nat)
    requires WfFrom(b, i) && Aligned(i) && Aligned(|b|) && i + 32 <= |b| && b[i] == FILE
    ensures var b', next := b + Zeros(m), i + SetLen(b[i + 1]);
      && next <= |b| && Aligned(next) && WfFrom(b, next) && (WfFrom(b', next) ==> WfFrom(b', i))
      && (ParseFrom(b', next) == ParseFrom(b, next) ==> ParseFrom(b', i) == ParseFrom(b, i))
  {
    hide EntryAt, ChecksumOk, Zeros;
    var b', sec := b + Zeros(m), b[i + 1];
    var next := i + SetLen(sec);
    assert b[i..next] == b'[i..next];
    assert SecsInUse(b', i, sec);
    EntryLocal(b, b', i, sec);
  }

  // --- finding room ---

  /** The loop of `find_free_dentry_run`; run is the length in bytes of the free run that ends at i. */
  function FindRun(b: seq<byte>, i: nat, start: nat, run: nat, need: nat): (r: Option<nat>)
    decreases |b| - i
  {
    if i + 32 > |b| then None
    else if b[i] < 0x80 then
      var start' := if run == 0 then i else start;
      if run + 32 >= need then Some(start')
      else if b[i] == EOD then (if run + 32 + (|b| - (i + 32)) >= need then Some(start') else None)
      else FindRun(b, i + 32, start', run + 32, need)
    else FindRun(b, i + 32, start, 0, need)
  }

  /** `find_free_dentry_run`. */
  function FindFreeRun(b: seq<byte>, n: nat): (r: Option<nat>) {
    if n == 0 then None else FindRun(b, 0, 0, 0, 32 * n)
  }

  /** `find_eod_offset`. */
  function FindEod(b: seq<byte>, i: nat): (r: nat)
    ensures i <= |b| && Aligned(i) && Aligned(|b|) ==> i <= r <= |b| && Aligned(r)
    ensures forall j :: i <= j < r && j < |b| && Aligned(j - i) ==> b[j] != EOD || j + 32 > |b|
    ensures r < |b| && i <= |b| && Aligned(i) && Aligned(|b|) ==> r + 32 <= |b| && b[r] == EOD
    decreases |b| - i
  {
    if i + 32 > |b| then |b| else if b[i] == EOD then i else FindEod(b, i + 32)
  }

  /** The run that ends at i, of the given length, consists of free slots; nothing before i is an end mark. */
  ghost predicate RunSoFar(b: seq<byte>, i: nat, start: nat, run: nat) {
    && Aligned(i) && Aligned(run) && i <= |b|
    && (forall j :: 0 <= j < i && Aligned(j) ==> b[j] != EOD)
    && (run > 0 ==> start + run == i && forall j :: start <= j < i && Aligned(j) ==> b[j] < 0x80)
  }

  lemma RunStep(b: seq<byte>, i: nat, start: nat, run: nat)
    requires RunSoFar(b, i, start, run) && Aligned(|b|) && i + 32 <= |b| && b[i] != EOD
    ensures b[i] < 0x80 ==> RunSoFar(b, i + 32, if run == 0 then i else start, run + 32)
    ensures RunSoFar(b, i + 32, start, 0)
  {
  }

  /** Enough free slots up to and including i, or up to the end when i is the end mark. */
  lemma RunEnds(b: seq<byte>, i: nat, start: nat, run: nat, need: nat)
    requires WfDir(b) && RunSoFar(b, i, start, run) && Aligned(need) && i + 32 <= |b| && b[i] < 0x80 && need > 0
    requires run + 32 >= need || (b[i] == EOD && run + (|b| - i) >= need)
    ensures FreeRun(b, 0, if run == 0 then i else start, need / 32)
  {
    hide WfFrom;
    var start' := if run == 0 then i else start;
    if b[i] == EOD { RawEod(b, 0, i); }
    RunIsFree(b, start', need / 32, i);
  }

  lemma {:induction false} FindRunFree(b: seq<byte>, i: nat, start: nat, run: nat, need: nat)
    requires WfDir(b) && RunSoFar(b, i, start, run) && Aligned(need) && run < need
    ensures var r := FindRun(b, i, start, run, need);
      && (r.Some? ==> FreeRun(b, 0, r.value, need / 32))
      && (r.None? ==> FindEod(b, i) + need > |b|)
    decreases |b| - i
  {
    assert i <= |b| && Aligned(i) && Aligned(run);
    hide WfFrom, RunSoFar, FreeRun;
    if i + 32 <= |b| {
      if b[i] == EOD {
        if run + 32 >= need || run + (|b| - i) >= need { RunEnds(b, i, start, run, need); }
      } else {
        RunStep(b, i, start, run);
        if b[i] >= 0x80 {
          FindRunFree(b, i + 32, start, 0, need);
        } else if run + 32 >= need {
          RunEnds(b, i, start, run, need);
        } else {
          FindRunFree(b, i + 32, if run == 0 then i else start, run + 32, need);
        }
      }
    }
  }

  lemma RunIsFree(b: seq<byte>, start: nat, n: nat, i: nat)
    requires Aligned(start) && start <= i && start + 32 * n <= |b|
    requires forall j :: start <= j <= i && Aligned(j) && j < |b| ==> b[j] < 0x80
    requires (forall j :: i <= j < |b| ==> b[j] == 0) || start + 32 * n <= i + 32
    requires forall j :: 0 <= j < i && Aligned(j) && j < |b| ==> b[j] != EOD
    ensures FreeRun(b, 0, start, n)
  {
    forall k | 0 <= k < n ensures b[start + 32 * k] < 0x80 {
      var j := start + 32 * k;
      assert Aligned(j);
      if j > i { assert b[j] == 0; }
    }
  }

  /** A run found in a well-formed directory is free and reachable; a search that fails would need more bytes than are left. */
  lemma FindFreeRunSpec(b: seq<byte>, n: nat)
    requires WfDir(b) && n > 0
    ensures var r := FindFreeRun(b, n);
      && (r.Some? ==> FreeRun(b, 0, r.value, n))
      && (r.None? ==> FindEod(b, 0) + 32 * n > |b|)
  {
    FindRunFree(b, 0, 0, 0, 32 * n);
  }

  /** After growth there is room at the old end mark. */
  lemma GrownRun(b: seq<byte>, m: nat, n: nat)
    requires WfDir(b) && Aligned(m) && FindEod(b, 0) + 32 * n <= |b| + m
    ensures FreeRun(b + Zeros(m), 0, FindEod(b, 0), n)
  {
    hide WfFrom;
    var b', eod := b + Zeros(m), FindEod(b, 0);
    if eod < |b| { RawEod(b, 0, eod); }
    forall j | eod <= j < |b'| ensures b'[j] == 0 {
      if j < |b| { assert b'[j] == b[j]; }
    }
  }

  // --- stream lengths ---

  /** The checksum and length bytes of a set. */
  predicate LengthByte(j: int) { 2 <= j < 4 || 40 <= j < 48 || 56 <= j < 64 }

  /** A set whose stream entry got new lengths and whose checksum was stored again: `update_stream_lengths`. */
  function WithLength(s: seq<byte>, size: nat): (r: seq<byte>)
    requires |s| >= 64
    ensures |r| == |s|
    ensures forall j :: 0 <= j < |s| && !LengthByte(j) ==> r[j] == s[j]
  {
    PutChecksum(Splice(Splice(s, 40, Le(size, 8)), 56, Le(size, 8)))
  }

  /** The updated set is complete and its checksum is correct. */
  lemma WithLengthGood(s: seq<byte>, size: nat)
    requires GoodSet(s) && |s| >= 64
    ensures GoodSet(WithLength(s, size))
  {
    hide ChecksumOk;
    var r := WithLength(s, size);
    PutChecksumOk(Splice(Splice(s, 40, Le(size, 8)), 56, Le(size, 8)));
    forall j | 0 < j < |r| && Aligned(j - 0) ensures r[j] > 0x80 { assert r[j] == s[j]; }
  }

  ghost predicate SameButSize(a: SetInfo, b: SetInfo) {
    b == a.(size := b.size)
  }

  lemma {:induction false} ScanSize(b: seq<byte>, i: nat, b': seq<byte>, i': nat, n: nat, info: SetInfo, info': SetInfo)
    requires i + 32 * n <= |b| && i' + 32 * n <= |b'| && SameButSize(info, info')
    requires b[i..i + 32 * n] == b'[i'..i' + 32 * n]
    ensures SameButSize(Scan(b, i, n, info), Scan(b', i', n, info'))
    decreases n
  {
    if n > 0 {
      var s, s' := b[i..i + 32 * n], b'[i'..i' + 32 * n];
      assert b[i..i + 32] == s[..32] && b'[i'..i' + 32] == s'[..32];
      assert b[i + 32..i + 32 + 32 * (n - 1)] == s[32..] && b'[i' + 32..i' + 32 + 32 * (n - 1)] == s'[32..];
      ScanSize(b, i + 32, b', i' + 32, n - 1, AddSlot(info, b[i..i + 32]), AddSlot(info', b[i..i + 32]));
    }
  }

  lemma StreamSame(x: seq<byte>, y: seq<byte>)
    requires |x| == |y| == 32 && x[0] == STREAM && forall j :: 0 <= j < 32 && !(8 <= j < 16) && !(24 <= j < 32) ==> y[j] == x[j]
    ensures SameButSize(AddSlot(NO_INFO, x), AddSlot(NO_INFO, y))
  {
    assert x[20..24] == y[20..24];
  }

  /** No stream entry among the slots from i up to end. */
  ghost predicate NoStream(b: seq<byte>, i: nat, end: nat) {
    forall j :: i <= j < end && j < |b| && Aligned(j - i) ==> b[j] != STREAM
  }

  lemma {:induction false} ScanNoStream(b: seq<byte>, i: nat, n: nat, info: SetInfo)
    requires i + 32 * n <= |b| && NoStream(b, i, i + 32 * n)
    ensures Scan(b, i, n, info).size == info.size
    decreases n
  {
    if n > 0 { ScanNoStream(b, i + 32, n - 1, AddSlot(info, b[i..i + 32])); }
  }

  /** The last stream entry of a set decides the parsed size. */
  lemma {:induction false} ScanLastStream(b: seq<byte>, b': seq<byte>, i: nat, n: nat, info: SetInfo, info': SetInfo)
    requires i + 32 * n <= |b| && i + 32 * n <= |b'| && b[i..i + 32 * n] == b'[i..i + 32 * n]
    requires !NoStream(b, i, i + 32 * n) || info.size == info'.size
    ensures Scan(b', i, n, info').size == Scan(b, i, n, info).size
    decreases n
  {
    if n > 0 {
      var s, s' := b[i..i + 32 * n], b'[i..i + 32 * n];
      assert b[i..i + 32] == s[..32] && b'[i..i + 32] == s'[..32];
      assert b[i + 32..i + 32 + 32 * (n - 1)] == s[32..] && b'[i + 32..i + 32 + 32 * (n - 1)] == s'[32..];
      if b[i] != STREAM && !NoStream(b, i, i + 32 * n) { assert !NoStream(b, i + 32, i + 32 * n); }
      ScanLastStream(b, b', i + 32, n - 1, AddSlot(info, b[i..i + 32]), AddSlot(info', b[i..i + 32]));
    }
  }

  /** Exactly the first secondary entry is a stream entry, as in every set the driver builds. */
  ghost predicate OneStream(b: seq<byte>, off: nat, sec: nat)
    requires off + SetLen(sec) <= |b|
  {
    sec > 0 && b[off + 32] == STREAM && NoStream(b, off + 64, off + SetLen(sec))
  }

  /** A length update changes nothing of the parsed entry but its size, and that only when no later stream entry overrides it. */
  lemma LengthEntry(b: seq<byte>, b': seq<byte>, off: nat)
    requires |b| == |b'| && off + 64 <= |b| && b[off + 1] >= 1 && off + SetLen(b[off + 1]) <= |b| && b[off + 32] == STREAM
    requires forall j :: off <= j < off + SetLen(b[off + 1]) && !LengthByte(j - off) ==> b'[j] == b[j]
    ensures EntryAt(b', off) == EntryAt(b, off).(size :=
      if OneStream(b, off, b[off + 1]) then FromLe(b'[off + 40..off + 48]) else EntryAt(b, off).size)
  {
    hide NoStream, Scan, FromLe, HasDirAttr, Decode, BytesUnits;
    var sec: nat := b[off + 1];
    assert b'[off + 1] == sec && b'[off + 32] == STREAM;
    assert b[off + 4..off + 6] == b'[off + 4..off + 6];
    StreamSame(b[off + 32..off + 64], b'[off + 32..off + 64]);
    SliceOfSlice(b', off + 32, 32, 8, 16);
    assert b[off + 64..off + 64 + 32 * (sec - 1)] == b'[off + 64..off + 64 + 32 * (sec - 1)];
    FirstScan(b, off + 32, sec);
    FirstScan(b', off + 32, sec);
    LengthScan(b, b', off + 64, sec - 1, AddSlot(NO_INFO, b[off + 32..off + 64]), AddSlot(NO_INFO, b'[off + 32..off + 64]));
  }

  lemma FirstScan(b: seq<byte>, i: nat, n: nat)
    requires n > 0 && i + 32 <= |b|
    ensures Scan(b, i, n, NO_INFO) == Scan(b, i + 32, n - 1, AddSlot(NO_INFO, b[i..i + 32]))
  {
  }

  lemma LengthScan(b: seq<byte>, b': seq<byte>, i: nat, n: nat, info: SetInfo, info': SetInfo)
    requires i + 32 * n <= |b| && i + 32 * n <= |b'| && b[i..i + 32 * n] == b'[i..i + 32 * n] && SameButSize(info, info')
    ensures Scan(b', i, n, info') == Scan(b, i, n, info).(size := if NoStream(b, i, i + 32 * n) then info'.size else Scan(b, i, n, info).size)
  {
    hide NoStream, Scan;
    ScanSize(b, i, b', i, n, info, info');
    if NoStream(b, i, i + 32 * n) {
      NoStreamSame(b, b', i, n);
      ScanNoStream(b', i, n, info');
    } else {
      ScanLastStream(b, b', i, n, info, info');
    }
  }

  lemma NoStreamSame(b: seq<byte>, b': seq<byte>, i: nat, n: nat)
    requires i + 32 * n <= |b| && i + 32 * n <= |b'| && b[i..i + 32 * n] == b'[i..i + 32 * n] && NoStream(b, i, i + 32 * n)
    ensures NoStream(b', i, i + 32 * n)
  {
    forall j | i <= j < i + 32 * n && Aligned(j - i) ensures b'[j] != STREAM {
      assert b[i..i + 32 * n][j - i] == b'[i..i + 32 * n][j - i];
    }
  }

  // --- a built set is complete ---

  lemma {:induction false} NameSlotsInUse(u: seq<u16>, k: nat)
    requires 32 * k < |NameSlots(u)|
    ensures NameSlots(u)[32 * k] == NAME
    decreases k
  {
    hide UnitBytes;
    if |u| > 15 && k > 0 {
      NameSlotsInUse(u[15..], k - 1);
      assert NameSlots(u)[32 * k] == NameSlots(u[15..])[32 * (k - 1)];
    }
  }

  /** Every set the driver builds has one stream entry, so its recorded length can be updated. */
  lemma BuiltOneStream(u: seq<u16>, hash: nat, first: nat, size: nat, attrs: nat)
    requires 1 <= |u| <= 255
    ensures OneStream(EntrySet(u, hash, first, size, attrs), 0, SlotsFor(|u|) - 1)
  {
    hide NameSlots, PutChecksum, Checksum, DivCeil;
    var s, raw := EntrySet(u, hash, first, size, attrs), RawSet(u, hash, first, size, attrs);
    assert s[32] == raw[32] == StreamSlot(|u|, hash, first, size)[0];
    forall j | 64 <= j < |s| && Aligned(j - 64) ensures s[j] != STREAM {
      NameSlotsInUse(u, j / 32 - 2);
      assert s[j] == raw[j] == NameSlots(u)[j - 64];
    }
  }

  lemma EntrySetGood(u: seq<u16>, hash: nat, first: nat, size: nat, attrs: nat)
    requires 1 <= |u| <= 255
    ensures GoodSet(EntrySet(u, hash, first, size, attrs))
  {
    hide NameSlots, ChecksumOk, PutChecksum, Checksum, DivCeil;
    var s, raw := EntrySet(u, hash, first, size, attrs), RawSet(u, hash, first, size, attrs);
    forall j | 0 < j < |s| && Aligned(j) ensures s[j] > 0x80 {
      assert s[j] == raw[j];
      if j >= 64 {
        NameSlotsInUse(u, j / 32 - 2);
        assert raw[j] == NameSlots(u)[j - 64];
      } else {
        assert j == 32;
        assert raw[32] == StreamSlot(|u|, hash, first, size)[0] == STREAM;
      }
    }
  }
}
