/** Ownership of clusters: the chains in use are disjoint and are exactly what FAT and bitmap call allocated. */
module ExfatSound {
  import opened Bytes
  import opened ExfatChain
  import opened ExfatAlloc

  /** The chains in use, by first cluster. */
  type Chains = map<nat, seq<nat>>

  ghost predicate Owned(ch: Chains, c: nat) {
    exists k :: k in ch && c in ch[k]
  }

  ghost predicate ChainsOk(fat: seq<nat>, ch: Chains) {
    forall k :: k in ch ==> IsChain(fat, ch[k]) && ch[k][0] == k
  }

  ghost predicate Disjoint(ch: Chains) {
    forall k, k', c :: k in ch && k' in ch && c in ch[k] && c in ch[k'] ==> k == k'
  }

  ghost predicate FatExact(fat: seq<nat>, ch: Chains) {
    forall c {:trigger Owned(ch, c)} :: 2 <= c < |fat| ==> (fat[c] != FAT_FREE <==> Owned(ch, c))
  }

  /** The clusters of the bitmap itself. */
  ghost function BmSeq(g: Geo, ch: Chains): seq<nat> {
    if g.bitmap.Some? && g.bitmap.value.first in ch then ch[g.bitmap.value.first] else []
  }

  ghost predicate BitmapExact(g: Geo, v: Vol, ch: Chains)
    requires g.bpc > 0 && Shape(g, v)
  {
    && BmFits(g, v, BmSeq(g, ch))
    && InHeap(v.heap, BmSeq(g, ch), g.bpc)
    && (g.bitmap.Some? ==> forall c {:trigger Owned(ch, c)} :: 2 <= c < g.Max() ==> (BitSet(g, v, BmSeq(g, ch), c) <==> Owned(ch, c)))
  }

  /** Chains are acyclic and pairwise disjoint, and FAT-used and bitmap-used clusters are exactly their union. */
  ghost predicate Sound(g: Geo, v: Vol, ch: Chains) {
    && g.Valid() && Shape(g, v)
    && ChainsOk(v.fat, ch) && Disjoint(ch) && FatExact(v.fat, ch) && BitmapExact(g, v, ch)
  }

  lemma FreeNotOwned(fat: seq<nat>, ch: Chains, c: nat)
    requires FatExact(fat, ch) && 2 <= c < |fat| && fat[c] == FAT_FREE
    ensures forall k :: k in ch ==> c !in ch[k]
  {
    assert !Owned(ch, c);
  }

  lemma ChainUsed(fat: seq<nat>, s: seq<nat>, c: nat)
    requires IsChain(fat, s) && c in s
    ensures 2 <= c < |fat| && fat[c] != FAT_FREE
  {
    var i :| 0 <= i < |s| && s[i] == c;
    assert i == |s| - 1 || fat[s[i]] == s[i + 1];
  }

  /** A heap change that leaves the bitmap's clusters alone keeps ownership. */
  lemma SoundHeap(g: Geo, v: Vol, v1: Vol, ch: Chains)
    requires Sound(g, v, ch) && Shape(g, v1) && v1.fat == v.fat
    requires forall c :: c in BmSeq(g, ch) ==> v1.heap[c] == v.heap[c]
    ensures Sound(g, v1, ch)
  {
    hide ClusterIx, ByteIx, Owned;
    var bm := BmSeq(g, ch);
    if g.bitmap.Some? {
      forall c | 2 <= c < g.Max() ensures BitSet(g, v1, bm, c) == BitSet(g, v, bm, c) {
        if ClusterIx(c - 2, g.bpc) < |bm| { assert bm[ClusterIx(c - 2, g.bpc)] in bm; }
      }
    }
  }

  lemma OwnedAdd(ch: Chains, k: nat, s: seq<nat>, c: nat)
    requires k !in ch
    ensures Owned(ch[k := s], c) <==> c in s || Owned(ch, c)
  {
    var ch' := ch[k := s];
    if c in s { assert k in ch' && c in ch'[k]; }
    if Owned(ch, c) { var j :| j in ch && c in ch[j]; assert j in ch' && c in ch'[j]; }
  }

  lemma AddChainsOk(fat: seq<nat>, fat1: seq<nat>, ch: Chains, cs: seq<nat>)
    requires ChainsOk(fat, ch) && Disjoint(ch) && FatExact(fat, ch) && |fat1| == |fat| && IsChain(fat1, cs)
    requires forall c :: 0 <= c < |fat| && c !in cs ==> fat1[c] == fat[c]
    requires forall c :: c in cs ==> fat[c] == FAT_FREE
    ensures cs[0] !in ch && ChainsOk(fat1, ch[cs[0] := cs]) && Disjoint(ch[cs[0] := cs])
  {
    hide Owned;
    var k := cs[0];
    assert k in ch ==> ch[k][0] in ch[k];
    forall c | c in cs ensures forall j :: j in ch ==> c !in ch[j] {
      FreeNotOwned(fat, ch, c);
    }
    assert k in cs;
    forall j | j in ch ensures IsChain(fat1, ch[j]) {
      ChainFrame(fat, fat1, ch[j]);
    }
  }

  lemma BitmapOwned(g: Geo, v: Vol, ch: Chains)
    requires Sound(g, v, ch)
    ensures g.bitmap.Some? ==> g.bitmap.value.first in ch
  {
  }

  /** Claimed clusters that were linked into one chain become a new chain in use. */
  lemma AddChain(g: Geo, v: Vol, v1: Vol, ch: Chains, cs: seq<nat>)
    requires Sound(g, v, ch) && Taken(g, BmSeq(g, ch), v, v1, cs, {}) && IsChain(v1.fat, cs)
    ensures cs[0] !in ch && Sound(g, v1, ch[cs[0] := cs])
  {
    BitmapOwned(g, v, ch);
    hide ClusterIx, ByteIx, FBit, Owned, ChainsOk, Disjoint, FatExact, BitmapExact, BitsFlip, BmFits, BmSeq, IsChain;
    AddChainsOk(v.fat, v1.fat, ch, cs);
    AddFatExact(g, v, v1, ch, cs);
    AddBitmapExact(g, v, v1, ch, cs);
  }

  lemma AddFatExact(g: Geo, v: Vol, v1: Vol, ch: Chains, cs: seq<nat>)
    requires Shape(g, v) && Shape(g, v1) && FatExact(v.fat, ch)
    requires IsChain(v1.fat, cs) && cs[0] !in ch
    requires forall c :: 0 <= c < g.Max() && c !in cs ==> v1.fat[c] == v.fat[c]
    ensures FatExact(v1.fat, ch[cs[0] := cs])
  {
    hide Owned;
    forall c | 2 <= c < |v1.fat| ensures v1.fat[c] != FAT_FREE <==> Owned(ch[cs[0] := cs], c) {
      OwnedAdd(ch, cs[0], cs, c);
      if c in cs { ChainUsed(v1.fat, cs, c); }
    }
  }

  lemma AddBitmapExact(g: Geo, v: Vol, v1: Vol, ch: Chains, cs: seq<nat>)
    requires g.Valid() && Shape(g, v) && Shape(g, v1) && BitmapExact(g, v, ch) && cs != [] && cs[0] !in ch
    requires Taken(g, BmSeq(g, ch), v, v1, cs, {})
    requires g.bitmap.Some? ==> g.bitmap.value.first in ch
    ensures BitmapExact(g, v1, ch[cs[0] := cs])
  {
    hide ClusterIx, ByteIx, FBit, Owned, Shape, BitSet, IsChain;
    var ch' := ch[cs[0] := cs];
    var bm := BmSeq(g, ch);
    assert BmSeq(g, ch') == bm;
    if g.bitmap.Some? {
      forall c | 2 <= c < g.Max() ensures BitSet(g, v1, bm, c) <==> Owned(ch', c) {
        OwnedAdd(ch, cs[0], cs, c);
        assert HasBit(g, |bm|, c);
        assert BitSet(g, v, bm, c) <==> Owned(ch, c);
        TakenBit(g, bm, v, v1, cs, c);
      }
    }
  }

  lemma TakenBit(g: Geo, bm: seq<nat>, v: Vol, v1: Vol, cs: seq<nat>, c: nat)
    requires g.bpc > 0 && Taken(g, bm, v, v1, cs, {}) && 2 <= c < g.Max() && HasBit(g, |bm|, c)
    ensures BitSet(g, v1, bm, c) <==> c in cs || BitSet(g, v, bm, c)
  {
    hide ClusterIx, ByteIx, FBit, Shape, IsChain;
    var i := c - 2;
    assert FBit(v1.heap, bm, g.bpc, i) <==> if i + 2 in cs then true else FBit(v.heap, bm, g.bpc, i);
  }

  // --- releasing a chain ---

  lemma OwnedDrop(ch: Chains, k: nat, c: nat)
    requires k in ch && Disjoint(ch)
    ensures Owned(ch - {k}, c) <==> Owned(ch, c) && c !in ch[k]
  {
    var ch' := ch - {k};
    if Owned(ch', c) { var j :| j in ch' && c in ch'[j]; assert j in ch && c in ch[j]; }
    if Owned(ch, c) && c !in ch[k] { var j :| j in ch && c in ch[j]; assert j in ch' && c in ch'[j]; }
  }

  lemma DropFatExact(fat: seq<nat>, fat1: seq<nat>, ch: Chains, k: nat)
    requires ChainsOk(fat, ch) && Disjoint(ch) && FatExact(fat, ch) && |fat1| == |fat| && k in ch
    requires forall c :: 0 <= c < |fat| ==> fat1[c] == if c in ch[k] then FAT_FREE else fat[c]
    ensures ChainsOk(fat1, ch - {k}) && FatExact(fat1, ch - {k})
  {
    hide Owned;
    forall j | j in ch - {k} ensures IsChain(fat1, ch[j]) {
      ChainFrame(fat, fat1, ch[j]);
    }
    forall c | 2 <= c < |fat1| ensures fat1[c] != FAT_FREE <==> Owned(ch - {k}, c) {
      OwnedDrop(ch, k, c);
    }
  }

  lemma DropBitmapExact(g: Geo, v: Vol, v1: Vol, ch: Chains, k: nat)
    requires g.Valid() && Shape(g, v) && Shape(g, v1) && BitmapExact(g, v, ch) && Disjoint(ch)
    requires k in ch && (g.bitmap.Some? ==> k != g.bitmap.value.first)
    requires Freed(g, BmSeq(g, ch), v, v1, ch[k])
    ensures BitmapExact(g, v1, ch - {k})
  {
    hide ClusterIx, ByteIx, FBit, Owned;
    var ch' := ch - {k};
    var bm := BmSeq(g, ch);
    assert BmSeq(g, ch') == bm;
    if g.bitmap.Some? {
      forall c | 2 <= c < g.Max() ensures BitSet(g, v1, bm, c) <==> Owned(ch', c) {
        OwnedDrop(ch, k, c);
        assert HasBit(g, |bm|, c);
        assert BitSet(g, v, bm, c) <==> Owned(ch, c);
        var i := c - 2;
        assert FBit(v1.heap, bm, g.bpc, i) <==> if i + 2 in ch[k] then false else FBit(v.heap, bm, g.bpc, i);
      }
    }
  }

  /** Freeing a chain drops exactly that chain; every other chain keeps its clusters and its bytes. */
  lemma DropChain(g: Geo, v: Vol, ch: Chains, k: nat)
    requires Sound(g, v, ch) && k in ch && (g.bitmap.Some? ==> k != g.bitmap.value.first)
    ensures Chain(g, v, k) == ch[k] && Clusters(g, ch[k])
    ensures Freed(g, BmSeq(g, ch), v, FreeAll(g, v, ch[k]), ch[k])
    ensures Sound(g, FreeAll(g, v, ch[k]), ch - {k})
  {
    hide ClusterIx, ByteIx, FBit, Owned, FatExact, BitsFlip;
    ChainIs(g, v, ch[k]);
    FreeAllEffect(g, v, BmSeq(g, ch), ch[k]);
    var v1 := FreeAll(g, v, ch[k]);
    DropFatExact(v.fat, v1.fat, ch, k);
    DropBitmapExact(g, v, v1, ch, k);
  }

  // --- linking and appending ---

  /** The FAT after `set_fat_entry` has linked cs[i..] in order and terminated the last. */
  function LinkFat(fat: seq<nat>, cs: seq<nat>, i: nat): (r: seq<nat>)
    requires i <= |cs| && forall j :: 0 <= j < |cs| ==> cs[j] < |fat|
    ensures |r| == |fat|
    decreases |cs| - i
  {
    if i == |cs| then fat
    else LinkFat(fat[cs[i] := if i + 1 < |cs| then cs[i + 1] else FAT_EOC], cs, i + 1)
  }

  lemma {:induction false} LinkFatAt(fat: seq<nat>, cs: seq<nat>, i: nat)
    requires i <= |cs| && Distinct(cs) && forall j :: 0 <= j < |cs| ==> cs[j] < |fat|
    ensures var r := LinkFat(fat, cs, i);
      && (forall j {:trigger r[cs[j]]} :: i <= j < |cs| - 1 ==> r[cs[j]] == cs[j + 1])
      && (i < |cs| ==> r[cs[|cs| - 1]] == FAT_EOC)
      && (forall c :: 0 <= c < |fat| && c !in cs[i..] ==> r[c] == fat[c])
    decreases |cs| - i
  {
    if i < |cs| {
      LinkFatAt(fat[cs[i] := if i + 1 < |cs| then cs[i + 1] else FAT_EOC], cs, i + 1);
      assert cs[i..] == [cs[i]] + cs[i + 1..];
    }
  }

  /** Linking fresh clusters in order makes them a chain and touches no other FAT entry. */
  lemma LinkMakesChain(fat: seq<nat>, cs: seq<nat>)
    requires cs != [] && Distinct(cs) && forall j :: 0 <= j < |cs| ==> 2 <= cs[j] < |fat|
    ensures IsChain(LinkFat(fat, cs, 0), cs)
    ensures forall c :: 0 <= c < |fat| && c !in cs ==> LinkFat(fat, cs, 0)[c] == fat[c]
  {
    hide LinkFat, Distinct;
    LinkFatAt(fat, cs, 0);
    assert cs[0..] == cs;
    var r := LinkFat(fat, cs, 0);
    assert r[cs[|cs| - 1]] == FAT_EOC;
  }

  function Last(s: seq<nat>): nat
    requires s != []
  {
    s[|s| - 1]
  }

  ghost function Merged(ch: Chains, p: nat, q: nat): Chains
    requires p in ch && q in ch
  {
    (ch - {q})[p := ch[p] + ch[q]]
  }

  lemma JoinChain(fat: seq<nat>, s: seq<nat>, t: seq<nat>)
    requires IsChain(fat, s) && IsChain(fat, t) && |fat| <= FAT_BAD
    requires forall c :: c in s ==> c !in t
    ensures IsChain(fat[Last(s) := t[0]], s + t)
  {
    var fat1, u := fat[Last(s) := t[0]], s + t;
    forall i | 0 <= i < |u| - 1 ensures fat1[u[i]] == u[i + 1] {
      if i < |s| - 1 {
        assert u[i] == s[i];
      } else if i >= |s| {
        assert u[i] == t[i - |s|] && Last(s) in s;
      }
    }
    assert u[|u| - 1] == Last(t) && Last(s) in s && Last(t) in t;
    forall i, j | 0 <= i < j < |u| ensures u[i] != u[j] {
      if i < |s| <= j { assert s[i] in s && t[j - |s|] in t; }
    }
  }

  lemma MergedOwned(ch: Chains, p: nat, q: nat, c: nat)
    requires p in ch && q in ch && p != q
    ensures Owned(Merged(ch, p, q), c) <==> Owned(ch, c)
  {
    var m := Merged(ch, p, q);
    if Owned(ch, c) {
      var k :| k in ch && c in ch[k];
      var k' := if k == q then p else k;
      assert k' in m && c in m[k'];
    }
    if Owned(m, c) {
      var k :| k in m && c in m[k];
      if k == p {
        var k' := if c in ch[p] then p else q;
        assert c in ch[k'];
      } else {
        assert k in ch && c in ch[k];
      }
    }
  }

  lemma MergeChainsOk(fat: seq<nat>, ch: Chains, p: nat, q: nat)
    requires ChainsOk(fat, ch) && Disjoint(ch) && p in ch && q in ch && p != q && |fat| <= FAT_BAD
    ensures ChainsOk(fat[Last(ch[p]) := q], Merged(ch, p, q)) && Disjoint(Merged(ch, p, q))
  {
    var fat1, m := fat[Last(ch[p]) := q], Merged(ch, p, q);
    assert Last(ch[p]) in ch[p];
    JoinChain(fat, ch[p], ch[q]);
    forall k | k in m && k != p ensures IsChain(fat1, m[k]) {
      ChainFrame(fat, fat1, ch[k]);
    }
    forall k, k', c | k in m && k' in m && c in m[k] && c in m[k'] ensures k == k' {
      var j := if k == p && c !in ch[p] then q else k;
      var j' := if k' == p && c !in ch[p] then q else k';
      assert c in ch[j] && c in ch[j'];
    }
  }

  /** Pointing the tail of one chain at another joins them and changes no other chain. */
  lemma MergeChains(g: Geo, v: Vol, ch: Chains, p: nat, q: nat)
    requires Sound(g, v, ch) && p in ch && q in ch && p != q
    requires g.bitmap.Some? ==> g.bitmap.value.first != p && g.bitmap.value.first != q
    ensures Sound(g, v.(fat := v.fat[Last(ch[p]) := q]), Merged(ch, p, q))
  {
    hide ClusterIx, ByteIx, FBit, Owned;
    var v1, m := v.(fat := v.fat[Last(ch[p]) := q]), Merged(ch, p, q);
    MergeChainsOk(v.fat, ch, p, q);
    forall c: nat ensures Owned(m, c) <==> Owned(ch, c) { MergedOwned(ch, p, q, c); }
    assert Last(ch[p]) in ch[p];
    ChainUsed(v.fat, ch[p], Last(ch[p]));
    assert q in ch[q] by { assert ch[q][0] == q; }
    ChainUsed(v.fat, ch[q], q);
    assert BmSeq(g, m) == BmSeq(g, ch);
    if g.bitmap.Some? { assert m[g.bitmap.value.first] == ch[g.bitmap.value.first]; }
  }

  /** Claimed clusters, linked: the loop that follows the allocation loop in `write_file` and `append_clusters_to_chain`. */
  function Link(v: Vol, cs: seq<nat>): (r: Vol)
    requires forall j :: 0 <= j < |cs| ==> cs[j] < |v.fat|
    ensures |r.fat| == |v.fat| && r.heap == v.heap
  {
    v.(fat := LinkFat(v.fat, cs, 0))
  }

  lemma {:induction false} LinkFatRange(fat: seq<nat>, cs: seq<nat>, i: nat)
    requires i <= |cs| && |fat| <= FAT_EOC + 1 && forall j :: 0 <= j < |cs| ==> cs[j] < |fat|
    requires forall c :: 0 <= c < |fat| ==> fat[c] <= FAT_EOC
    ensures forall c :: 0 <= c < |fat| ==> LinkFat(fat, cs, i)[c] <= FAT_EOC
    decreases |cs| - i
  {
    if i < |cs| {
      LinkFatRange(fat[cs[i] := if i + 1 < |cs| then cs[i + 1] else FAT_EOC], cs, i + 1);
    }
  }

  lemma LinkShape(g: Geo, v: Vol, cs: seq<nat>)
    requires Shape(g, v) && Clusters(g, cs)
    ensures Shape(g, Link(v, cs))
  {
    LinkFatRange(v.fat, cs, 0);
  }

  /** Linking keeps the relation between the volume before and after the claims. */
  lemma TakenLink(g: Geo, bm: seq<nat>, v: Vol, v1: Vol, cs: seq<nat>)
    requires g.Valid() && Taken(g, bm, v, v1, cs, {}) && Distinct(cs) && cs != []
    ensures Taken(g, bm, v, Link(v1, cs), cs, {}) && IsChain(Link(v1, cs).fat, cs)
  {
    hide ClusterIx, ByteIx, FBit, LinkFat, BitsFlip;
    LinkShape(g, v1, cs);
    LinkMakesChain(v1.fat, cs);
    if g.bitmap.Some? { ChainFrame(v1.fat, Link(v1, cs).fat, bm); }
  }

  datatype Grown = Grown(v: Vol, st: int)

  /** `append_clusters_to_chain`. */
  function Append(g: Geo, v: Vol, first: nat, n: nat): (r: Grown)
    requires g.bpc > 0 && Shape(g, v)
    ensures Shape(g, r.v)
  {
    if first < 2 then Grown(v, -5)
    else if n == 0 then Grown(v, 0)
    else
      var chain := Chain(g, v, first);
      if chain == [] then Grown(v, -5)
      else
        var a := AllocMany(g, v, n, []);
        if !a.ok then Grown(FreeAll(g, a.v, a.cs), -28)
        else
          assert Last(chain) in chain;
          var v1 := a.v.(fat := a.v.fat[Last(chain) := a.cs[0]]);
          LinkShape(g, v1, a.cs);
          Grown(Link(v1, a.cs), 0)
  }

  lemma LinkCommutes(fat: seq<nat>, cs: seq<nat>, t: nat, x: nat)
    requires Distinct(cs) && t < |fat| && t !in cs && forall j :: 0 <= j < |cs| ==> cs[j] < |fat|
    ensures LinkFat(fat[t := x], cs, 0) == LinkFat(fat, cs, 0)[t := x]
  {
    hide LinkFat;
    LinkFatAt(fat, cs, 0);
    LinkFatAt(fat[t := x], cs, 0);
    assert cs[0..] == cs;
    var a, b := LinkFat(fat[t := x], cs, 0), LinkFat(fat, cs, 0)[t := x];
    forall c | 0 <= c < |fat| ensures a[c] == b[c] {
      if c in cs {
        var j :| 0 <= j < |cs| && cs[j] == c;
        assert j == |cs| - 1 || (a[cs[j]] == cs[j + 1] && b[cs[j]] == cs[j + 1]);
      }
    }
  }

  /** A fresh cluster's bit is clear and the cluster belongs to no chain. */
  lemma FreshFacts(g: Geo, v: Vol, v1: Vol, ch: Chains, cs: seq<nat>)
    requires Sound(g, v, ch) && Taken(g, BmSeq(g, ch), v, v1, cs, {})
    ensures forall c: nat :: c in cs ==> 2 <= c < g.Max() && !Owned(ch, c) && !BitSet(g, v, BmSeq(g, ch), c)
  {
    hide ClusterIx, ByteIx, FBit, Owned, BitsFlip;
    forall c: nat | c in cs ensures 2 <= c < g.Max() && !Owned(ch, c) && !BitSet(g, v, BmSeq(g, ch), c) {
      var i :| 0 <= i < |cs| && cs[i] == c;
      assert v.fat[c] == FAT_FREE;
      assert g.bitmap.None? ==> BmSeq(g, ch) == [];
    }
  }

  /** n allocations in a sound volume: the clusters handed out, or their exact return. */
  lemma AllocSound(g: Geo, v: Vol, ch: Chains, n: nat)
    requires Sound(g, v, ch)
    ensures var a := AllocMany(g, v, n, []);
      && Taken(g, BmSeq(g, ch), v, a.v, a.cs, {}) && Fresh(g, v, a.v, a.cs)
      && (forall c: nat :: c in a.cs ==> 2 <= c < g.Max() && !Owned(ch, c))
  {
    hide ClusterIx, ByteIx, FBit, Owned, BitsFlip, AllocMany;
    TakenNone(g, BmSeq(g, ch), v);
    AllocManyEffect(g, v, v, BmSeq(g, ch), n, []);
    FreshFacts(g, v, AllocMany(g, v, n, []).v, ch, AllocMany(g, v, n, []).cs);
  }

  /** Same FAT, and same bytes in every cluster that was in use: what a rollback restores. */
  ghost predicate Restored(g: Geo, v: Vol, v1: Vol, ch: Chains) {
    && Shape(g, v) && Shape(g, v1) && v1.fat == v.fat
    && forall c :: 2 <= c < g.Max() && Owned(ch, c) ==> v1.heap[c] == v.heap[c]
  }

  lemma RollbackSound(g: Geo, v: Vol, v1: Vol, ch: Chains, cs: seq<nat>, dirty: set<nat>)
    requires Sound(g, v, ch) && Taken(g, BmSeq(g, ch), v, v1, cs, dirty)
    requires forall c: nat :: c in dirty ==> !Owned(ch, c)
    ensures Restored(g, v, FreeAll(g, v1, cs), ch) && Sound(g, FreeAll(g, v1, cs), ch)
  {
    hide ClusterIx, ByteIx, FBit, BitsFlip, FreeAll;
    var bm := BmSeq(g, ch);
    forall c: nat | c in cs ensures !Owned(ch, c) && !BitSet(g, v, bm, c) {
      var i :| 0 <= i < |cs| && cs[i] == c;
      assert v.fat[c] == FAT_FREE;
      assert g.bitmap.None? ==> bm == [];
    }
    forall c: nat | c in bm ensures Owned(ch, c) {
      assert c in ch[g.bitmap.value.first];
    }
    FreeAllUndoes(g, v, v1, bm, cs, dirty);
    var r := FreeAll(g, v1, cs);
    SoundHeap(g, v, r, ch);
  }

  lemma AppendLinks(g: Geo, v: Vol, ch: Chains, p: nat, n: nat)
    requires Sound(g, v, ch) && p in ch && n > 0 && AllocMany(g, v, n, []).ok
    ensures var cs := AllocMany(g, v, n, []).cs;
      && p >= 2 && Chain(g, v, p) == ch[p] && ch[p] != [] && Last(ch[p]) < |v.fat| && |cs| == n
      && Append(g, v, p, n) == Grown(
          var l := Link(AllocMany(g, v, n, []).v, cs); l.(fat := l.fat[Last(ch[p]) := cs[0]]), 0)
  {
    hide ClusterIx, ByteIx, FBit, BitsFlip, AllocMany, BitmapExact, FatExact, LinkFat, Owned, Walk;
    var a := AllocMany(g, v, n, []);
    AllocSound(g, v, ch, n);
    ChainIs(g, v, ch[p]);
    assert IsChain(v.fat, ch[p]) && Last(ch[p]) in ch[p];
    OwnedBy(ch, p, Last(ch[p]));
    LinkCommutes(a.v.fat, a.cs, Last(ch[p]), a.cs[0]);
  }

  lemma OwnedBy(ch: Chains, k: nat, c: nat)
    requires k in ch && c in ch[k]
    ensures Owned(ch, c)
  {
  }

  lemma AppendOk(g: Geo, v: Vol, ch: Chains, p: nat, n: nat)
    requires Sound(g, v, ch) && p in ch && n > 0 && (g.bitmap.Some? ==> p != g.bitmap.value.first)
    requires AllocMany(g, v, n, []).ok
    ensures var r, cs := Append(g, v, p, n), AllocMany(g, v, n, []).cs;
      && r.st == 0 && |cs| == n && Sound(g, r.v, ch[p := ch[p] + cs])
      && r.v.heap == AllocMany(g, v, n, []).v.heap
  {
    hide ClusterIx, ByteIx, FBit, BitsFlip, AllocMany, Owned, LinkFat, FatExact, BitmapExact, Walk, Disjoint, Append, BmFits, Shape, Merged;
    var a := AllocMany(g, v, n, []);
    AllocSound(g, v, ch, n);
    AppendLinks(g, v, ch, p, n);
    TakenLink(g, BmSeq(g, ch), v, a.v, a.cs);
    var l := Link(a.v, a.cs);
    AddChain(g, v, l, ch, a.cs);
    var ch1 := ch[a.cs[0] := a.cs];
    BitmapOwned(g, v, ch);
    MergeChains(g, l, ch1, p, a.cs[0]);
    MergedIs(ch, p, a.cs);
  }

  lemma MergedIs(ch: Chains, p: nat, cs: seq<nat>)
    requires p in ch && cs != [] && cs[0] !in ch
    ensures Merged(ch[cs[0] := cs], p, cs[0]) == ch[p := ch[p] + cs]
  {
  }

  lemma AppendFull(g: Geo, v: Vol, ch: Chains, p: nat, n: nat)
    requires Sound(g, v, ch) && p in ch && n > 0 && !AllocMany(g, v, n, []).ok
    ensures var r := Append(g, v, p, n); r.st == -28 && Restored(g, v, r.v, ch) && Sound(g, r.v, ch)
  {
    hide ClusterIx, ByteIx, FBit, BitsFlip, AllocMany, FreeAll, Owned, LinkFat, FatExact, BitmapExact, Walk, Disjoint;
    var a := AllocMany(g, v, n, []);
    AllocSound(g, v, ch, n);
    ChainIs(g, v, ch[p]);
    RollbackSound(g, v, a.v, ch, a.cs, {});
  }

  /** The chain of p was extended by the zero-filled clusters cs; all else that was in use is unchanged. */
  ghost predicate GrownBy(g: Geo, v: Vol, v1: Vol, ch: Chains, p: nat, cs: seq<nat>)
    requires p in ch && Shape(g, v)
  {
    && Sound(g, v1, ch[p := ch[p] + cs])
    && Clusters(g, cs)
    && (forall i :: 0 <= i < |cs| ==> v1.heap[cs[i]] == Zeros(g.bpc))
    && (forall c :: 2 <= c < g.Max() && c !in cs && c !in BmSeq(g, ch) ==> v1.heap[c] == v.heap[c])
    && (forall c: nat :: c in cs ==> !Owned(ch, c))
  }

  lemma AppendGrows(g: Geo, v: Vol, ch: Chains, p: nat, n: nat)
    requires Sound(g, v, ch) && p in ch && n > 0 && (g.bitmap.Some? ==> p != g.bitmap.value.first)
    requires AllocMany(g, v, n, []).ok
    ensures Append(g, v, p, n).st == 0 && |AllocMany(g, v, n, []).cs| == n
    ensures GrownBy(g, v, Append(g, v, p, n).v, ch, p, AllocMany(g, v, n, []).cs)
  {
    hide ClusterIx, ByteIx, FBit, BitsFlip, AllocMany, Owned, FatExact, BitmapExact, Disjoint, Append, BmSeq, BmFits, ChainsOk;
    AllocSound(g, v, ch, n);
    AppendOk(g, v, ch, p, n);
  }

  /**
   * Appending to a chain either extends it by exactly n zero-filled clusters that no chain used,
   * leaving every other chain and its bytes alone, or fails with ENOSPC and restores the volume.
   */
  lemma AppendSound(g: Geo, v: Vol, ch: Chains, p: nat, n: nat)
    requires Sound(g, v, ch) && p in ch && n > 0 && (g.bitmap.Some? ==> p != g.bitmap.value.first)
    ensures var r, cs := Append(g, v, p, n), AllocMany(g, v, n, []).cs;
      if r.st == 0 then |cs| == n && GrownBy(g, v, r.v, ch, p, cs)
      else r.st == -28 && Restored(g, v, r.v, ch) && Sound(g, r.v, ch)
  {
    hide ClusterIx, ByteIx, FBit, BitsFlip, AllocMany, Owned, FatExact, BitmapExact, Disjoint, Append, BmSeq, BmFits, Restored, ChainsOk, GrownBy;
    if AllocMany(g, v, n, []).ok {
      AppendGrows(g, v, ch, p, n);
    } else {
      AppendFull(g, v, ch, p, n);
    }
  }
}
