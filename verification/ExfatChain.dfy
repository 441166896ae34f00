/** The cluster heap of an exFAT volume: the FAT, cluster chains, and the bytes a chain holds. */
module ExfatChain {
  import opened Bytes

  const FAT_FREE := 0
  const FAT_BAD := 0xFFFF_FFF7
  const FAT_EOC := 0xFFFF_FFFF

  datatype Extent = Extent(first: nat, len: nat)

  /** The fields of a mounted volume that no operation changes. */
  datatype Geo = Geo(
    bytesPerSector: nat, secsPerCluster: nat, bpc: nat,
    fatOffset: nat, fatLength: nat, heapOffset: nat,
    count: nat, root: nat, bitmap: Option<Extent>, upcase: Option<Extent>)
  {
    /** First cluster number past the heap: `cluster_count.saturating_add(2)`. */
    function Max(): (m: nat) {
      Min(count + 2, 0xFFFF_FFFF)
    }

    /** A cluster holds whole directory entries, and no cluster number is a reserved FAT value. */
    predicate Valid() {
      && bpc % 32 == 0
      && 0 < bpc < 0x1_0000_0000_0000_0000
      && count + 2 <= FAT_BAD
    }
  }

  /** A volume: FAT entries and cluster contents, both indexed by cluster number. */
  datatype Vol = Vol(fat: seq<nat>, heap: seq<seq<byte>>)

  predicate Shape(g: Geo, v: Vol) {
    && |v.fat| == |v.heap| == g.Max()
    && (forall c :: 0 <= c < |v.fat| ==> v.fat[c] <= FAT_EOC)
    && (forall c :: 2 <= c < |v.heap| ==> |v.heap[c]| == g.bpc)
  }

  // --- chains ---

  /** The loop of `cluster_chain`, entered with `len` clusters already collected. */
  function Walk(fat: seq<nat>, cur: nat, len: nat, count: nat): (chain: seq<nat>)
    ensures forall c :: c in chain ==> 2 <= c < |fat|
    decreases count + 1 - len
  {
    if !(2 <= cur < FAT_BAD && cur < |fat|) then []
    else
      var next := fat[cur];
      if next == FAT_FREE || next >= FAT_BAD || len + 1 > count then [cur]
      else [cur] + Walk(fat, next, len + 1, count)
  }

  function Chain(g: Geo, v: Vol, first: nat): (chain: seq<nat>)
    ensures forall c :: c in chain ==> 2 <= c < |v.fat|
  {
    Walk(v.fat, first, 0, g.count)
  }

  ghost predicate Distinct(s: seq<nat>) {
    forall i, j :: 0 <= i < j < |s| ==> s[i] != s[j]
  }

  /** s is a terminated, acyclic chain of the FAT: section 4.1 of the exFAT specification. */
  ghost predicate IsChain(fat: seq<nat>, s: seq<nat>) {
    && s != []
    && (forall i :: 0 <= i < |s| ==> 2 <= s[i] < |fat|)
    && (forall i {:trigger fat[s[i]]} :: 0 <= i < |s| - 1 ==> fat[s[i]] == s[i + 1])
    && FAT_BAD <= fat[s[|s| - 1]]
    && Distinct(s)
  }

  lemma {:induction false} DistinctBound(s: seq<nat>, n: nat)
    requires Distinct(s)
    requires forall i :: 0 <= i < |s| ==> 2 <= s[i] < n + 2
    ensures |s| <= n
    decreases n
  {
    assert |s| > 0 ==> 2 <= s[0] < n + 2;
    if n > 0 {
      if i :| 0 <= i < |s| && s[i] == n + 1 {
        DistinctBound(s[..i] + s[i + 1..], n - 1);
      } else {
        DistinctBound(s, n - 1);
      }
    }
  }

  lemma {:induction false} WalkChain(fat: seq<nat>, s: seq<nat>, i: nat, count: nat)
    requires IsChain(fat, s) && i < |s| <= count && |fat| <= FAT_BAD
    ensures Walk(fat, s[i], i, count) == s[i..]
    decreases |s| - i
  {
    if i + 1 < |s| {
      WalkChain(fat, s, i + 1, count);
      assert s[i..] == [s[i]] + s[i + 1..];
    } else {
      assert s[i..] == [s[i]];
    }
  }

  /** `cluster_chain` returns exactly the chain that starts at its argument; its length cut-off is never reached. */
  lemma ChainIs(g: Geo, v: Vol, s: seq<nat>)
    requires g.Valid() && Shape(g, v) && IsChain(v.fat, s)
    ensures Chain(g, v, s[0]) == s
  {
    DistinctBound(s, g.count);
    WalkChain(v.fat, s, 0, g.count);
    assert s[0..] == s;
  }

  /** A chain survives any change to the FAT outside its own clusters. */
  lemma ChainFrame(fat: seq<nat>, fat': seq<nat>, s: seq<nat>)
    requires IsChain(fat, s) && |fat'| == |fat|
    requires forall c :: c in s ==> fat'[c] == fat[c]
    ensures IsChain(fat', s)
  {
    forall i | 0 <= i < |s| - 1 ensures fat'[s[i]] == s[i + 1] {
      assert s[i] in s;
    }
    assert s[|s| - 1] in s;
  }

  // --- bytes of a chain ---

  predicate InHeap(heap: seq<seq<byte>>, chain: seq<nat>, bpc: nat) {
    forall i :: 0 <= i < |chain| ==> chain[i] < |heap| && |heap[chain[i]]| == bpc
  }

  /** n clusters of bpc bytes: n * bpc, unrolled. */
  function Span(n: nat, bpc: nat): (r: nat)
  {
    if n == 0 then 0 else bpc + Span(n - 1, bpc)
  }

  lemma {:induction false} SpanIs(n: nat, bpc: nat)
    ensures Span(n, bpc) == n * bpc
  {
    if n > 0 {
      SpanIs(n - 1, bpc);
      assert n * bpc == bpc + (n - 1) * bpc;
    }
  }

  /** `read_chain`: the clusters' bytes, one after the other. */
  function Flat(heap: seq<seq<byte>>, chain: seq<nat>, bpc: nat): (b: seq<byte>)
    requires InHeap(heap, chain, bpc)
    ensures |b| == Span(|chain|, bpc)
  {
    if chain == [] then [] else heap[chain[0]] + Flat(heap, chain[1..], bpc)
  }

  /** The copy loop of `write_file`: the contents over the start of the chain's clusters. */
  function Fill(heap: seq<seq<byte>>, chain: seq<nat>, d: seq<byte>, bpc: nat): (h: seq<seq<byte>>)
    requires InHeap(heap, chain, bpc)
    ensures |h| == |heap|
    ensures forall c :: 0 <= c < |heap| ==> |h[c]| == |heap[c]|
    ensures forall c :: 0 <= c < |heap| && c !in chain ==> h[c] == heap[c]
    decreases |chain|
  {
    if chain == [] then heap
    else
      var n := Min(bpc, |d|);
      Fill(heap[chain[0] := Splice(heap[chain[0]], 0, d[..n])], chain[1..], d[n..], bpc)
  }

  lemma {:induction false} FlatFrame(heap: seq<seq<byte>>, heap': seq<seq<byte>>, chain: seq<nat>, bpc: nat)
    requires InHeap(heap, chain, bpc) && InHeap(heap', chain, bpc)
    requires forall i :: 0 <= i < |chain| ==> heap'[chain[i]] == heap[chain[i]]
    ensures Flat(heap', chain, bpc) == Flat(heap, chain, bpc)
  {
    if chain != [] {
      FlatFrame(heap, heap', chain[1..], bpc);
    }
  }

  lemma PadFirst(d: seq<byte>, bpc: nat, m: nat)
    requires |d| <= bpc + m
    ensures var n := Min(bpc, |d|);
      Splice(Zeros(bpc), 0, d[..n]) + (d[n..] + Zeros(m - |d[n..]|)) == d + Zeros(bpc + m - |d|)
  {
  }

  /** What is written over an acyclic chain of zeros is what is read back, padded with zeros. */
  lemma {:induction false} FlatFill(heap: seq<seq<byte>>, chain: seq<nat>, d: seq<byte>, bpc: nat)
    requires InHeap(heap, chain, bpc) && |d| <= Span(|chain|, bpc) && Distinct(chain)
    requires forall i :: 0 <= i < |chain| ==> heap[chain[i]] == Zeros(bpc)
    ensures InHeap(Fill(heap, chain, d, bpc), chain, bpc)
    ensures Flat(Fill(heap, chain, d, bpc), chain, bpc) == d + Zeros(Span(|chain|, bpc) - |d|)
    decreases |chain|
  {
    hide Splice, Zeros;
    if chain != [] {
      var c, rest, n := chain[0], chain[1..], Min(bpc, |d|);
      var h := heap[c := Splice(heap[c], 0, d[..n])];
      FlatFill(h, rest, d[n..], bpc);
      var s := Fill(h, rest, d[n..], bpc);
      assert c !in rest;
      assert s[c] == Splice(Zeros(bpc), 0, d[..n]);
      PadFirst(d, bpc, Span(|rest|, bpc));
    }
  }

  // --- editing a few bytes of a chain ---

  /** x over the bytes at `within` of cluster c. */
  function Poke(heap: seq<seq<byte>>, c: nat, within: nat, x: seq<byte>): (h: seq<seq<byte>>)
    requires c < |heap| && within + |x| <= |heap[c]|
    ensures |h| == |heap| && forall k :: 0 <= k < |heap| ==> |h[k]| == |heap[k]|
    ensures forall k :: 0 <= k < |heap| && k != c ==> h[k] == heap[k]
  {
    heap[c := Splice(heap[c], within, x)]
  }

  /** An edit inside one cluster of a chain is the same edit of the chain's bytes. */
  lemma {:induction false} FlatPoke(heap: seq<seq<byte>>, chain: seq<nat>, bpc: nat, ci: nat, within: nat, x: seq<byte>)
    requires InHeap(heap, chain, bpc) && Distinct(chain) && ci < |chain| && within + |x| <= bpc
    ensures Span(ci, bpc) + within + |x| <= Span(|chain|, bpc)
    ensures InHeap(Poke(heap, chain[ci], within, x), chain, bpc)
    ensures Flat(Poke(heap, chain[ci], within, x), chain, bpc) == Splice(Flat(heap, chain, bpc), Span(ci, bpc) + within, x)
    decreases |chain|
  {
    hide Splice;
    var h := Poke(heap, chain[ci], within, x);
    if ci == 0 {
      FlatFrame(heap, h, chain[1..], bpc);
      SpliceLeft(heap[chain[0]], Flat(heap, chain[1..], bpc), within, x);
    } else {
      FlatPoke(heap, chain[1..], bpc, ci - 1, within, x);
      assert h[chain[0]] == heap[chain[0]];
      SpliceRight(heap[chain[0]], Flat(heap, chain[1..], bpc), Span(ci - 1, bpc) + within, x);
    }
  }

  lemma {:induction false} FlatConcat(heap: seq<seq<byte>>, a: seq<nat>, b: seq<nat>, bpc: nat)
    requires InHeap(heap, a, bpc) && InHeap(heap, b, bpc)
    ensures InHeap(heap, a + b, bpc)
    ensures Flat(heap, a + b, bpc) == Flat(heap, a, bpc) + Flat(heap, b, bpc)
  {
    assert InHeap(heap, a + b, bpc) by {
      forall i | 0 <= i < |a + b| ensures (a + b)[i] < |heap| && |heap[(a + b)[i]]| == bpc {
        if i < |a| { assert (a + b)[i] == a[i]; } else { assert (a + b)[i] == b[i - |a|]; }
      }
    }
    if a == [] {
      assert a + b == b;
    } else {
      FlatConcat(heap, a[1..], b, bpc);
      assert (a + b)[1..] == a[1..] + b;
    }
  }

  lemma {:induction false} FlatZeros(heap: seq<seq<byte>>, chain: seq<nat>, bpc: nat)
    requires InHeap(heap, chain, bpc)
    requires forall i :: 0 <= i < |chain| ==> heap[chain[i]] == Zeros(bpc)
    ensures Flat(heap, chain, bpc) == Zeros(Span(|chain|, bpc))
  {
    if chain != [] {
      FlatZeros(heap, chain[1..], bpc);
    }
  }
}
