/** What each directory edit does to the bytes of the directory, and that it touches nothing else. */
module ExfatEdit {
  import opened Bytes
  import opened Utf16
  import opened ExfatChain
  import opened ExfatAlloc
  import opened ExfatSound
  import opened ExfatDentry
  import opened ExfatDir
  import opened ExfatPath
  import opened ExfatFs

  /** v1 is v with the bytes of one chain replaced by b. */
  ghost predicate DirSet(g: Geo, v: Vol, v1: Vol, chain: seq<nat>, b: seq<byte>) {
    && Shape(g, v) && Shape(g, v1) && v1.fat == v.fat
    && InHeap(v1.heap, chain, g.bpc) && Flat(v1.heap, chain, g.bpc) == b
    && forall c :: 2 <= c < g.Max() && c !in chain ==> v1.heap[c] == v.heap[c]
  }

  lemma {:induction false} SpanQuot(off: nat, bpc: nat)
    requires bpc > 0
    ensures Span(Quot(off, bpc), bpc) + Rem(off, bpc) == off
    decreases off
  {
    hide Quot, Rem;
    if off < bpc {
      QuotRemSmall(off, bpc);
    } else {
      QuotRemSub(off, bpc);
      SpanQuot(off - bpc, bpc);
    }
  }

  lemma {:induction false} SpanMono(a: nat, b: nat, bpc: nat)
    requires a <= b
    ensures Span(a, bpc) <= Span(b, bpc)
    decreases a
  {
    if a > 0 { SpanMono(a - 1, b - 1, bpc); }
  }

  lemma InSpan(off: nat, n: nat, bpc: nat)
    requires bpc > 0
    ensures Quot(off, bpc) < n <==> off < Span(n, bpc)
  {
    hide Quot, Rem;
    SpanQuot(off, bpc);
    var q := Quot(off, bpc);
    if q < n { SpanMono(q + 1, n, bpc); } else { SpanMono(n, q, bpc); }
  }

  /** A byte of a directory is found exactly when it lies within the chain. */
  lemma LocateIs(g: Geo, v: Vol, chain: seq<nat>, off: nat)
    requires g.Valid() && Shape(g, v) && IsChain(v.fat, chain)
    ensures off < Span(|chain|, g.bpc) ==> Quot(off, g.bpc) < |chain|
    ensures Locate(g, v, chain[0], off) ==
      if off < Span(|chain|, g.bpc) then Some((chain[Quot(off, g.bpc)], Rem(off, g.bpc))) else None
  {
    hide Quot, Rem;
    ChainIs(g, v, chain);
    InSpan(off, |chain|, g.bpc);
  }

  lemma PokeCluster(g: Geo, v: Vol, chain: seq<nat>, ci: nat, within: nat, x: seq<byte>)
    requires Shape(g, v) && IsChain(v.fat, chain) && InHeap(v.heap, chain, g.bpc)
    requires ci < |chain| && within + |x| <= g.bpc
    ensures Span(ci, g.bpc) + within + |x| <= Span(|chain|, g.bpc)
    ensures var v1 := v.(heap := Poke(v.heap, chain[ci], within, x));
      DirSet(g, v, v1, chain, Splice(Flat(v.heap, chain, g.bpc), Span(ci, g.bpc) + within, x))
  {
    hide Flat, Splice, Poke;
    FlatPoke(v.heap, chain, g.bpc, ci, within, x);
    PokeShape(g, v, chain[ci], within, x);
  }

  /** An edit that stays within one cluster. */
  lemma PokeDir(g: Geo, v: Vol, chain: seq<nat>, off: nat, x: seq<byte>)
    requires g.bpc > 0 && Shape(g, v) && IsChain(v.fat, chain) && InHeap(v.heap, chain, g.bpc)
    requires Rem(off, g.bpc) + |x| <= g.bpc && off < Span(|chain|, g.bpc)
    ensures Quot(off, g.bpc) < |chain| && off + |x| <= Span(|chain|, g.bpc)
    ensures var v1 := v.(heap := Poke(v.heap, chain[Quot(off, g.bpc)], Rem(off, g.bpc), x));
      DirSet(g, v, v1, chain, Splice(Flat(v.heap, chain, g.bpc), off, x))
  {
    hide Quot, Rem, Flat, Splice, IsChain, Poke, DirSet, Shape, InHeap;
    InSpan(off, |chain|, g.bpc);
    SpanQuot(off, g.bpc);
    PokeCluster(g, v, chain, Quot(off, g.bpc), Rem(off, g.bpc), x);
  }

  lemma DirSetHeap(g: Geo, v: Vol, v1: Vol, chain: seq<nat>, b: seq<byte>)
    requires DirSet(g, v, v1, chain, b) && IsChain(v.fat, chain)
    ensures Shape(g, v1) && IsChain(v1.fat, chain) && InHeap(v1.heap, chain, g.bpc) && Flat(v1.heap, chain, g.bpc) == b
  {
  }

  lemma DirSetRefl(g: Geo, v: Vol, chain: seq<nat>)
    requires Shape(g, v) && InHeap(v.heap, chain, g.bpc)
    ensures DirSet(g, v, v, chain, Flat(v.heap, chain, g.bpc))
  {
  }

  lemma ChainFacts(fat: seq<nat>, chain: seq<nat>)
    requires IsChain(fat, chain)
    ensures chain != [] && Distinct(chain) && forall i :: 0 <= i < |chain| ==> 2 <= chain[i] < |fat|
  {
  }

  lemma DirSetTrans(g: Geo, v: Vol, v1: Vol, v2: Vol, chain: seq<nat>, b1: seq<byte>, b2: seq<byte>)
    requires DirSet(g, v, v1, chain, b1) && DirSet(g, v1, v2, chain, b2)
    ensures DirSet(g, v, v2, chain, b2)
  {
  }

  lemma SpliceTwice(b: seq<byte>, off: nat, d: seq<byte>, w: nat, n: nat)
    requires w + n <= |d| && off + |d| <= |b|
    ensures Splice(Splice(b, off + w, d[w..w + n]), off + (w + n), d[w + n..]) == Splice(b, off + w, d[w..])
  {
  }

  /** Writing an entry set, across cluster boundaries, replaces exactly its bytes of the directory. */
  lemma {:induction false} WriteDirEffect(g: Geo, v: Vol, chain: seq<nat>, off: nat, d: seq<byte>, w: nat)
    requires g.Valid() && Shape(g, v) && IsChain(v.fat, chain) && InHeap(v.heap, chain, g.bpc)
    requires w <= |d| && off + |d| <= Span(|chain|, g.bpc)
    ensures var r := WriteDir(g, v, chain[0], off, d, w);
      r.st == 0 && DirSet(g, v, r.v, chain, Splice(Flat(v.heap, chain, g.bpc), off + w, d[w..]))
    decreases |d| - w
  {
    hide Quot, Rem, Splice, IsChain, Locate, Flat;
    var b := Flat(v.heap, chain, g.bpc);
    if w == |d| {
      assert d[w..] == [];
      SpliceNothing(b, off + w);
    } else {
      LocateIs(g, v, chain, off + w);
      var c, within := chain[Quot(off + w, g.bpc)], Rem(off + w, g.bpc);
      var n := Min(g.bpc - within, |d| - w);
      PokeDir(g, v, chain, off + w, d[w..w + n]);
      var v1 := v.(heap := Poke(v.heap, c, within, d[w..w + n]));
      WriteDirEffect(g, v1, chain, off, d, w + n);
      var v2 := WriteDir(g, v, chain[0], off, d, w).v;
      SpliceTwice(b, off, d, w, n);
      DirSetTrans(g, v, v1, v2, chain, Splice(b, off + w, d[w..w + n]), Splice(b, off + w, d[w..]));
    }
  }

  lemma SpliceNothing(b: seq<byte>, off: nat)
    requires off <= |b|
    ensures Splice(b, off, []) == b
  {
  }

  lemma MarkOneEffect(g: Geo, v: Vol, chain: seq<nat>, off: nat)
    requires g.Valid() && Shape(g, v) && IsChain(v.fat, chain) && InHeap(v.heap, chain, g.bpc)
    ensures DirSet(g, v, MarkOne(g, v, chain[0], off), chain, MarkDeleted(Flat(v.heap, chain, g.bpc), off, 1))
  {
    hide Quot, Rem, IsChain;
    LocateIs(g, v, chain, off);
    var b := Flat(v.heap, chain, g.bpc);
    if off < |b| {
      var c, within := chain[Quot(off, g.bpc)], Rem(off, g.bpc);
      FlatAt(v.heap, chain, g.bpc, off);
      PokeDir(g, v, chain, off, [b[off] % 128]);
      assert MarkDeleted(b, off, 1) == Splice(b, off, [b[off] % 128]) by { MarkDeletedAt(b, off, 1); }
    }
  }

  lemma FlatAt(heap: seq<seq<byte>>, chain: seq<nat>, bpc: nat, off: nat)
    requires InHeap(heap, chain, bpc) && bpc > 0 && off < Span(|chain|, bpc)
    ensures Quot(off, bpc) < |chain| && Flat(heap, chain, bpc)[off] == heap[chain[Quot(off, bpc)]][Rem(off, bpc)]
    decreases |chain|
  {
    hide Quot, Rem;
    if off < bpc {
      QuotRemSmall(off, bpc);
    } else {
      QuotRemSub(off, bpc);
      FlatAt(heap, chain[1..], bpc, off - bpc);
    }
  }

  lemma MarkNone(b: seq<byte>, off: nat)
    ensures MarkDeleted(b, off, 0) == b
  {
  }

  lemma MarkTwice(b: seq<byte>, off: nat, n: nat)
    requires n > 0
    ensures MarkDeleted(MarkDeleted(b, off, 1), off + 32, n - 1) == MarkDeleted(b, off, n)
  {
    var b1 := MarkDeleted(b, off, 1);
    assert b1 == MarkDeleted(b1, off + 32, 0);
  }

  lemma {:induction false} MarkDirEffect(g: Geo, v: Vol, chain: seq<nat>, off: nat, n: nat)
    requires g.Valid() && Shape(g, v) && IsChain(v.fat, chain) && InHeap(v.heap, chain, g.bpc)
    ensures DirSet(g, v, MarkDir(g, v, chain[0], off, n), chain, MarkDeleted(Flat(v.heap, chain, g.bpc), off, n))
    decreases n
  {
    hide IsChain, MarkOne, Flat, Shape, InHeap, MarkDeleted, DirSet;
    ChainFacts(v.fat, chain);
    var b := Flat(v.heap, chain, g.bpc);
    if n == 0 {
      MarkNone(b, off);
      DirSetRefl(g, v, chain);
    } else {
      MarkOneEffect(g, v, chain, off);
      var v1 := MarkOne(g, v, chain[0], off);
      var b1 := MarkDeleted(b, off, 1);
      DirSetHeap(g, v, v1, chain, b1);
      MarkDirEffect(g, v1, chain, off + 32, n - 1);
      MarkTwice(b, off, n);
      DirSetTrans(g, v, v1, MarkDir(g, v, chain[0], off, n), chain, b1, MarkDeleted(b, off, n));
    }
  }

  // --- stream lengths ---

  function CkBytes(s: seq<byte>): (r: seq<byte>)
    ensures |r| == 2
  {
    [Checksum(s) % 256, Checksum(s) / 256]
  }

  lemma PutChecksumIs(g: Geo, v: Vol, chain: seq<nat>, off: nat, n: nat)
    requires g.Valid() && Shape(g, v) && IsChain(v.fat, chain) && InHeap(v.heap, chain, g.bpc) && Aligned(off)
    requires n > 0 && off + 32 * n <= Span(|chain|, g.bpc)
    ensures PutChecksumAt(g, v, chain[0], off, n) ==
      WriteDir(g, v, chain[0], off + 2, CkBytes(Flat(v.heap, chain, g.bpc)[off..off + 32 * n]), 0).v
  {
    hide Flat, Checksum, Walk, WriteDir;
    ChainIs(g, v, chain);
  }

  lemma PutChecksumEffect(g: Geo, v: Vol, chain: seq<nat>, off: nat, n: nat)
    requires g.Valid() && Shape(g, v) && IsChain(v.fat, chain) && InHeap(v.heap, chain, g.bpc) && Aligned(off)
    requires n > 0 && off + 32 * n <= Span(|chain|, g.bpc)
    ensures var b := Flat(v.heap, chain, g.bpc);
      DirSet(g, v, PutChecksumAt(g, v, chain[0], off, n), chain, Splice(b, off, PutChecksum(b[off..off + 32 * n])))
  {
    hide IsChain, Flat, WriteDir, Shape, InHeap, Span, PutChecksumAt, DirSet, Splice, CkBytes, PutChecksum;
    ChainFacts(v.fat, chain);
    var b := Flat(v.heap, chain, g.bpc);
    var x := CkBytes(b[off..off + 32 * n]);
    PutChecksumIs(g, v, chain, off, n);
    WriteDirEffect(g, v, chain, off + 2, x, 0);
    assert x[0..] == x;
    ChecksumSplice(b, off, 32 * n);
  }

  lemma ChecksumSplice(b: seq<byte>, off: nat, len: nat)
    requires off + len <= |b| && len >= 32
    ensures Splice(b, off + 2, CkBytes(b[off..off + len])) == Splice(b, off, PutChecksum(b[off..off + len]))
  {
    hide Checksum;
    var s := b[off..off + len];
    var l, r := Splice(b, off + 2, CkBytes(s)), Splice(b, off, PutChecksum(s));
    forall i | 0 <= i < |b| ensures l[i] == r[i] {
      if off <= i < off + len { assert s[i - off] == b[i]; }
    }
  }

  /** The directory's bytes after the lengths in the set at off were updated. */
  function LengthsAt(b: seq<byte>, off: nat, sec: nat, size: nat): (r: seq<byte>)
    requires off + SetLen(sec) <= |b|
    ensures |r| == |b|
  {
    if sec > 0 && b[off + 32] == STREAM then Splice(b, off, WithLength(b[off..off + SetLen(sec)], size)) else b
  }

  lemma LengthSplice(b: seq<byte>, off: nat, len: nat, x: seq<byte>)
    requires off + len <= |b| && len >= 64 && |x| == 8
    ensures Splice(Splice(b, off + 40, x), off + 56, x) == Splice(b, off, Splice(Splice(b[off..off + len], 40, x), 56, x))
  {
    var s := b[off..off + len];
    var l, r := Splice(Splice(b, off + 40, x), off + 56, x), Splice(b, off, Splice(Splice(s, 40, x), 56, x));
    forall i | 0 <= i < |b| ensures l[i] == r[i] {
      if off <= i < off + len { assert s[i - off] == b[i]; }
    }
  }

  lemma SpliceSlice(b: seq<byte>, off: nat, s: seq<byte>, t: seq<byte>)
    requires off + |s| <= |b| && |t| == |s|
    ensures Splice(b, off, s)[off..off + |s|] == s && Splice(Splice(b, off, s), off, t) == Splice(b, off, t)
  {
  }

  lemma PokeOk(g: Geo, v: Vol, chain: seq<nat>, ci: nat)
    requires Shape(g, v) && IsChain(v.fat, chain) && ci < |chain|
    ensures 2 <= chain[ci] < |v.heap| && chain[ci] < g.Max() && |v.heap[chain[ci]]| == g.bpc
  {
  }

  lemma PokeTwice(g: Geo, v: Vol, chain: seq<nat>, ci: nat, within: nat, x: seq<byte>)
    requires Shape(g, v) && IsChain(v.fat, chain) && InHeap(v.heap, chain, g.bpc)
    requires ci < |chain| && within + 32 <= g.bpc && |x| == 8
    ensures Span(ci, g.bpc) + within + 32 <= Span(|chain|, g.bpc)
    ensures var v1 := v.(heap := Poke(v.heap, chain[ci], within + 8, x));
      var v2 := v1.(heap := Poke(v1.heap, chain[ci], within + 24, x));
      DirSet(g, v, v2, chain, Splice(Splice(Flat(v.heap, chain, g.bpc), Span(ci, g.bpc) + within + 8, x), Span(ci, g.bpc) + within + 24, x))
  {
    hide IsChain, Flat, Splice, Poke, DirSet, Shape, InHeap, Span;
    var off := Span(ci, g.bpc) + within;
    PokeCluster(g, v, chain, ci, within + 8, x);
    PokeOk(g, v, chain, ci);
    var v1 := v.(heap := Poke(v.heap, chain[ci], within + 8, x));
    var b1 := Splice(Flat(v.heap, chain, g.bpc), off + 8, x);
    DirSetHeap(g, v, v1, chain, b1);
    PokeOk(g, v1, chain, ci);
    PokeCluster(g, v1, chain, ci, within + 24, x);
    var v2 := v1.(heap := Poke(v1.heap, chain[ci], within + 24, x));
    DirSetTrans(g, v, v1, v2, chain, b1, Splice(b1, off + 24, x));
  }

  /** The volume after both lengths of the stream entry at off were stored. */
  function PokeLengths(g: Geo, v: Vol, c: nat, within: nat, size: nat): (r: Vol)
    requires Shape(g, v) && 2 <= c < g.Max() && within + 32 <= g.bpc
    ensures Shape(g, r)
  {
    PokeShape(g, v, c, within + 8, Le(size, 8));
    var v1 := v.(heap := Poke(v.heap, c, within + 8, Le(size, 8)));
    PokeShape(g, v1, c, within + 24, Le(size, 8));
    v1.(heap := Poke(v1.heap, c, within + 24, Le(size, 8)))
  }

  lemma UpdateLengthsIs(g: Geo, v: Vol, f: Found, size: nat)
    requires g.Valid() && Shape(g, v) && Aligned(f.e.off)
    ensures var p := Locate(g, v, f.parent, f.e.off + 32);
      if f.parent < 2 || f.e.sec == 0 || p.None? || v.heap[p.value.0][p.value.1] != STREAM then UpdateLengths(g, v, f, size) == v
      else
        && p.value.1 + 32 <= g.bpc
        && UpdateLengths(g, v, f, size) == PutChecksumAt(g, PokeLengths(g, v, p.value.0, p.value.1, size), f.parent, f.e.off, 1 + f.e.sec)
  {
    SlotInCluster(f.e.off + 32, g.bpc);
  }

  /** Updating stream lengths rewrites the lengths and the checksum of one set, and nothing else. */
  lemma UpdateLengthsEffect(g: Geo, v: Vol, chain: seq<nat>, f: Found, size: nat)
    requires g.Valid() && Shape(g, v) && IsChain(v.fat, chain) && InHeap(v.heap, chain, g.bpc)
    requires f.parent == chain[0] && Aligned(f.e.off) && f.e.off + SetLen(f.e.sec) <= Span(|chain|, g.bpc)
    ensures DirSet(g, v, UpdateLengths(g, v, f, size), chain, LengthsAt(Flat(v.heap, chain, g.bpc), f.e.off, f.e.sec, size))
  {
    hide Quot, Rem, IsChain, Flat, Locate, UpdateLengths, PutChecksumAt, PokeLengths, Shape, InHeap, DirSet, Span;
    ChainFacts(v.fat, chain);
    DirSetRefl(g, v, chain);
    var b, off := Flat(v.heap, chain, g.bpc), f.e.off;
    UpdateLengthsIs(g, v, f, size);
    if f.e.sec > 0 {
      LocateIs(g, v, chain, off + 32);
      FlatAt(v.heap, chain, g.bpc, off + 32);
      if b[off + 32] == STREAM {
        StoreLengths(g, v, chain, f, size);
      }
    }
  }

  lemma StoreLengths(g: Geo, v: Vol, chain: seq<nat>, f: Found, size: nat)
    requires g.Valid() && Shape(g, v) && IsChain(v.fat, chain) && InHeap(v.heap, chain, g.bpc)
    requires f.parent == chain[0] && Aligned(f.e.off) && f.e.sec > 0 && f.e.off + SetLen(f.e.sec) <= Span(|chain|, g.bpc)
    requires Quot(f.e.off + 32, g.bpc) < |chain| && Rem(f.e.off + 32, g.bpc) + 32 <= g.bpc
    requires 2 <= chain[Quot(f.e.off + 32, g.bpc)] < g.Max()
    ensures var c, within, b := chain[Quot(f.e.off + 32, g.bpc)], Rem(f.e.off + 32, g.bpc), Flat(v.heap, chain, g.bpc);
      DirSet(g, v, PutChecksumAt(g, PokeLengths(g, v, c, within, size), chain[0], f.e.off, 1 + f.e.sec), chain,
        Splice(b, f.e.off, WithLength(b[f.e.off..f.e.off + SetLen(f.e.sec)], size)))
  {
    hide Quot, Rem, IsChain, Flat, Splice, DirSet, Le, PutChecksum, PutChecksumAt, PokeLengths, Shape, InHeap, Span;
    ChainFacts(v.fat, chain);
    var within, off := Rem(f.e.off + 32, g.bpc), f.e.off;
    var b, x, len := Flat(v.heap, chain, g.bpc), Le(size, 8), SetLen(f.e.sec);
    PokedDir(g, v, chain, off, size);
    var v2 := PokeLengths(g, v, chain[Quot(off + 32, g.bpc)], within, size);
    var b2 := Splice(Splice(b, off + 40, x), off + 56, x);
    DirSetHeap(g, v, v2, chain, b2);
    PutChecksumEffect(g, v2, chain, off, 1 + f.e.sec);
    var s2 := Splice(Splice(b[off..off + len], 40, x), 56, x);
    LengthSplice(b, off, len, x);
    SpliceSlice(b, off, s2, PutChecksum(s2));
    DirSetTrans(g, v, v2, PutChecksumAt(g, v2, chain[0], off, 1 + f.e.sec), chain, b2, Splice(b, off, PutChecksum(s2)));
  }

  /** Both stored lengths, as bytes of the directory. */
  lemma PokedDir(g: Geo, v: Vol, chain: seq<nat>, off: nat, size: nat)
    requires g.Valid() && Shape(g, v) && IsChain(v.fat, chain) && InHeap(v.heap, chain, g.bpc)
    requires Quot(off + 32, g.bpc) < |chain| && Rem(off + 32, g.bpc) + 32 <= g.bpc
    requires 2 <= chain[Quot(off + 32, g.bpc)] < g.Max()
    ensures off + 64 <= Span(|chain|, g.bpc)
    ensures var c, within, b := chain[Quot(off + 32, g.bpc)], Rem(off + 32, g.bpc), Flat(v.heap, chain, g.bpc);
      DirSet(g, v, PokeLengths(g, v, c, within, size), chain, Splice(Splice(b, off + 40, Le(size, 8)), off + 56, Le(size, 8)))
  {
    hide Quot, Rem, IsChain, Flat, Splice, DirSet, Le, Shape, InHeap, Span, Poke;
    SpanQuot(off + 32, g.bpc);
    PokeTwice(g, v, chain, Quot(off + 32, g.bpc), Rem(off + 32, g.bpc), Le(size, 8));
  }

  // --- what the edits mean for the entries ---

  /** The bytes of a set in a well-formed directory are a complete set. */
  lemma SetAt(b: seq<byte>, off: nat)
    requires WfFrom(b, off) && off + 32 <= |b| && b[off] == FILE
    ensures off + SetLen(b[off + 1]) <= |b| && GoodSet(b[off..off + SetLen(b[off + 1])])
  {
    hide ChecksumOk;
    var s := b[off..off + SetLen(b[off + 1])];
    forall j | 0 < j < |s| && Aligned(j - 0) ensures s[j] > 0x80 { assert s[j] == b[off + j] && Aligned(off + j - off); }
  }

  lemma RewriteWhole(b: seq<byte>, off: nat, d: seq<byte>, slots: nat)
    requires off + |d| <= |b| && |d| == 32 * slots
    ensures Rewrite(b, off, d, slots) == Splice(b, off, d)
  {
  }

  /** The size that a set's entry shows after its lengths were updated. */
  ghost function NewSize(b: seq<byte>, e: DirEntry, size: nat): nat
    requires e.off + SetLen(e.sec) <= |b|
  {
    if OneStream(b, e.off, e.sec) then size % Pow256(8) else e.size
  }

  lemma LengthsEntry(b: seq<byte>, off: nat, sec: nat, size: nat)
    requires sec > 0 && off + SetLen(sec) <= |b| && b[off + 1] == sec && b[off + 32] == STREAM
    ensures EntryAt(LengthsAt(b, off, sec, size), off) == EntryAt(b, off).(size := NewSize(b, EntryAt(b, off), size))
  {
    hide EntryAt, OneStream;
    var b' := LengthsAt(b, off, sec, size);
    var s := b[off..off + SetLen(sec)];
    forall j | off <= j < off + SetLen(sec) && !LengthByte(j - off) ensures b'[j] == b[j] {
      assert b'[j] == WithLength(s, size)[j - off] == s[j - off];
    }
    StoredLength(b, off, sec, size);
    LengthEntry(b, b', off);
  }

  lemma StoredLength(b: seq<byte>, off: nat, sec: nat, size: nat)
    requires sec > 0 && off + SetLen(sec) <= |b| && b[off + 32] == STREAM
    ensures FromLe(LengthsAt(b, off, sec, size)[off + 40..off + 48]) == size % Pow256(8)
  {
    hide Le, FromLe, Pow256, Checksum;
    LeTruncates(size, 8);
    var s := WithLength(b[off..off + SetLen(sec)], size);
    assert s[40..48] == Le(size, 8);
    assert LengthsAt(b, off, sec, size)[off + 40..off + 48] == s[40..48];
  }

  /**
   * Updating the lengths of the k-th entry keeps the directory well formed and changes only that entry's size: to the
   * length passed in when the first secondary entry is the set's one stream entry, and not at all otherwise.
   */
  lemma LengthsParse(b: seq<byte>, k: nat, size: nat)
    requires WfDir(b) && k < |Parse(b)|
    ensures var e := Parse(b)[k];
      && e.off + SetLen(e.sec) <= |b|
      && WfDir(LengthsAt(b, e.off, e.sec, size))
      && Parse(LengthsAt(b, e.off, e.sec, size)) == Parse(b)[k := e.(size := NewSize(b, e, size))]
  {
    hide EntryAt, GoodSet, ParseFrom, WfFrom, WithLength, Rewrite, NoStream;
    var e := Parse(b)[k];
    ParsedOff(b, 0, k);
    if e.sec > 0 && b[e.off + 32] == STREAM {
      var s := b[e.off..e.off + SetLen(e.sec)];
      SetAt(b, e.off);
      WithLengthGood(s, size);
      LengthsEntry(b, e.off, e.sec, size);
      RewriteWhole(b, e.off, WithLength(s, size), Count(e.sec));
      RewriteFrom(b, 0, k, WithLength(s, size));
    }
  }

  /** A built set written over the k-th entry's set, the leftover entries marked deleted: only that entry changes. */
  lemma ReplaceParse(b: seq<byte>, k: nat, name: string, hash: nat, first: nat, size: nat, attrs: nat)
    requires WfDir(b) && k < |Parse(b)| && LegalName(name) && first < Pow256(4) && size < Pow256(8) && attrs < Pow256(2)
    requires SlotsFor(|Encode(name)|) <= 1 + Parse(b)[k].sec
    ensures var e, d := Parse(b)[k], EntrySet(Encode(name), hash, first, size, attrs);
      && |d| == 32 * SlotsFor(|Encode(name)|) && e.off + SetLen(e.sec) <= |b|
      && var b' := Rewrite(b, e.off, d, Count(e.sec));
        && WfDir(b')
        && Parse(b') == Parse(b)[k := DirEntry(name, first, size, HasDirAttr(attrs), e.off, SlotsFor(|Encode(name)|) - 1)]
  {
    hide EntryAt, GoodSet, ParseFrom, WfFrom, Rewrite, EntrySet, Encode, DivCeil;
    var e, d := Parse(b)[k], EntrySet(Encode(name), hash, first, size, attrs);
    ParsedOff(b, 0, k);
    EntrySetGood(Encode(name), hash, first, size, attrs);
    var b' := Rewrite(b, e.off, d, Count(e.sec));
    RewriteAt(b, e.off, d, Count(e.sec));
    assert b'[e.off..e.off + |d|] == d;
    BuiltEntry(b', e.off, name, hash, first, size, attrs);
    RewriteFrom(b, 0, k, d);
  }

  /** A built set written into a free run: one entry is added, the others keep their order. */
  lemma InsertParse(b: seq<byte>, off: nat, name: string, hash: nat, first: nat, size: nat, attrs: nat) returns (k: nat)
    requires WfDir(b) && LegalName(name) && first < Pow256(4) && size < Pow256(8) && attrs < Pow256(2)
    requires FreeRun(b, 0, off, SlotsFor(|Encode(name)|))
    ensures var d := EntrySet(Encode(name), hash, first, size, attrs);
      && off + |d| <= |b| && WfDir(Splice(b, off, d))
      && InsertedAt(Parse(b), Parse(Splice(b, off, d)), DirEntry(name, first, size, HasDirAttr(attrs), off, SlotsFor(|Encode(name)|) - 1), k)
  {
    hide EntryAt, GoodSet, ParseFrom, WfFrom, EntrySet, InsertedAt, Encode, DivCeil;
    var d := EntrySet(Encode(name), hash, first, size, attrs);
    EntrySetGood(Encode(name), hash, first, size, attrs);
    var b' := Splice(b, off, d);
    assert b'[off..off + |d|] == d;
    BuiltEntry(b', off, name, hash, first, size, attrs);
    k := InsertFrom(b, 0, off, d);
  }
}
