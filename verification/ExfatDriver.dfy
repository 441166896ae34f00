/** The driver itself: one byte vector, edited in place. Each method is tied to its function on the view. */
module ExfatDriver {
  import opened Bytes
  import opened Utf16
  import opened ExfatChain
  import opened ExfatAlloc
  import opened ExfatSound
  import opened ExfatDentry
  import opened ExfatDir
  import opened ExfatPath
  import opened ExfatFs
  import ExfatEdit
  import ExfatMain
  import ExfatSpace
  import opened ExfatImage
  import opened ExfatCodec

  lemma MarkIsPoke(heap: seq<seq<byte>>, x: nat, w: nat, b: byte)
    requires x < |heap| && w < |heap[x]|
    ensures var row: seq<byte> := heap[x]; var row': seq<byte> := row[w := b]; Poke(heap, x, w, [b]) == heap[x := row']
  {
    var row: seq<byte> := heap[x];
    var row': seq<byte> := row[w := b];
    assert Splice(row, w, [b]) == row';
  }

  lemma ZeroIsPoke(heap: seq<seq<byte>>, x: nat, bpc: nat)
    requires x < |heap| && |heap[x]| == bpc
    ensures Poke(heap, x, 0, Zeros(bpc)) == heap[x := Zeros(bpc)]
  {
    assert Splice(heap[x], 0, Zeros(bpc)) == Zeros(bpc);
  }

  lemma FlatSplit(heap: seq<seq<byte>>, chain: seq<nat>, i: nat, bpc: nat)
    requires InHeap(heap, chain, bpc) && i < |chain|
    ensures InHeap(heap, chain[i..], bpc) && InHeap(heap, chain[i + 1..], bpc)
    ensures Flat(heap, chain[i..], bpc) == heap[chain[i]] + Flat(heap, chain[i + 1..], bpc)
  {
    assert chain[i..][1..] == chain[i + 1..];
  }

  lemma ViewEntry(g: Geo, data: seq<byte>, c: nat)
    requires Covers(g, data) && 2 <= c < g.Max()
    ensures |View(g, data).fat| == g.Max() && FatEntryAt(g, data, c) == View(g, data).fat[c]
  {
    ViewShape(g, data);
  }

  lemma ViewLength(g: Geo, data: seq<byte>)
    requires Covers(g, data)
    ensures |View(g, data).fat| == g.Max()
  {
    ViewShape(g, data);
  }

  /** One step of the chain walk, after the clusters of pre. */
  lemma WalkStep(fat: seq<nat>, cur: nat, len: nat, count: nat, pre: seq<nat>)
    requires 2 <= cur < FAT_BAD && cur < |fat|
    ensures pre + Walk(fat, cur, len, count) ==
      if fat[cur] == FAT_FREE || fat[cur] >= FAT_BAD || len + 1 > count then pre + [cur]
      else pre + [cur] + Walk(fat, fat[cur], len + 1, count)
  {
    if !(fat[cur] == FAT_FREE || fat[cur] >= FAT_BAD || len + 1 > count) {
      var w := Walk(fat, fat[cur], len + 1, count);
      assert pre + ([cur] + w) == pre + [cur] + w;
    }
  }

  lemma WalkEnds(fat: seq<nat>, cur: nat, len: nat, count: nat, pre: seq<nat>)
    requires !(2 <= cur < FAT_BAD && cur < |fat|)
    ensures pre + Walk(fat, cur, len, count) == pre
  {
  }

  lemma AllocStep(g: Geo, v: Vol, n: nat, cs: seq<nat>)
    requires g.bpc > 0 && Shape(g, v) && Clusters(g, cs)
    ensures var c := FindFree(g, v, 2);
      AllocMany(g, v, n, cs) ==
        if n == 0 then Alloced(v, cs, true)
        else if c.None? then Alloced(v, cs, false)
        else AllocMany(g, Take(g, v, c.value), n - 1, cs + [c.value])
  {
    hide FindFree, Take;
  }

  lemma LegalUnits(name: string)
    requires NameStatus(name) == 0
    ensures 1 <= |Encode(name)| <= 255
  {
  }

  lemma RowLength(g: Geo, v: Vol, c: nat)
    requires Shape(g, v) && 2 <= c < g.Max()
    ensures |v.heap[c]| == g.bpc
  {
  }

  lemma FillNothing(heap: seq<seq<byte>>, cs: seq<nat>, d: seq<byte>, bpc: nat)
    requires cs == [] && InHeap(heap, cs, bpc)
    ensures Fill(heap, cs, d, bpc) == heap
  {
  }

  /** One step of the copy loop. */
  lemma FillStep(heap: seq<seq<byte>>, cs: seq<nat>, i: nat, d: seq<byte>, at: nat, bpc: nat)
    requires i < |cs| && InHeap(heap, cs[i..], bpc) && at <= |d|
    ensures var n := Min(bpc, |d| - at); var h := Poke(heap, cs[i], 0, d[at..at + n]);
      InHeap(h, cs[i + 1..], bpc) &&
      Fill(heap, cs[i..], d[at..], bpc) == Fill(h, cs[i + 1..], d[at + n..], bpc)
  {
    hide Splice;
    var n := Min(bpc, |d| - at);
    assert cs[i..][1..] == cs[i + 1..] && d[at..][n..] == d[at + n..] && d[at..][..n] == d[at..at + n];
  }

  class Volume {
    const g: Geo
    var data: seq<byte>

    ghost predicate Valid()
      reads this
    {
      Covers(g, data)
    }

    /** The FAT and clusters that the image holds. */
    ghost function V(): (v: Vol)
      requires Valid()
      reads this
      ensures g.Valid() && Shape(g, v)
    {
      ViewShape(g, data);
      View(g, data)
    }

    constructor (g: Geo, image: seq<byte>)
      requires Covers(g, image)
      ensures Valid() && this.g == g && data == image
    {
      this.g := g;
      data := image;
    }

    // --- clusters ---

    method SetFatEntry(c: nat, x: nat)
      requires Valid() && x <= FAT_EOC
      modifies this
      ensures Valid() && V() == SetEntry(old(V()), c, x)
    {
      hide SetFatAt, Covers, View;
      SetFatView(g, data, c, x);
      data := SetFatAt(g, data, c, x);
    }

    /** Writing x at `within` of cluster c. */
    method PokeBytes(c: nat, within: nat, x: seq<byte>)
      requires Valid() && 2 <= c < g.Max() && within + |x| <= g.bpc
      modifies this
      ensures Valid() && V() == old(V()).(heap := Poke(old(V()).heap, c, within, x))
    {
      hide Covers, View, Splice, Poke, Place, ClusterOffset;
      PokeView(g, data, c, within, x);
      PlaceIs(g, data, c);
      var off := ClusterOffset(g, |data|, c).value + within;
      data := Splice(data, off, x);
    }

    method ClusterBytes(c: nat) returns (b: Option<seq<byte>>)
      requires Valid()
      ensures b == if 2 <= c < g.Max() then Some(V().heap[c]) else None
    {
      var off := ClusterOffset(g, |data|, c);
      if off.None? {
        if 2 <= c < g.Max() { PlaceIs(g, data, c); }
        return None;
      }
      PlaceIs(g, data, c);
      b := Some(data[off.value..off.value + g.bpc]);
    }

    method ClusterChain(first: nat) returns (chain: seq<nat>)
      requires Valid()
      ensures chain == Chain(g, V(), first)
    {
      hide Walk, View, Shape, Covers;
      ghost var fat := V().fat;
      chain := [];
      var cur: nat := first;
      while 2 <= cur < FAT_BAD && cur < g.Max()
        invariant |chain| <= g.count
        invariant chain + Walk(fat, cur, |chain|, g.count) == Walk(fat, first, 0, g.count)
        decreases g.count + 1 - |chain|
      {
        ViewEntry(g, data, cur);
        WalkStep(fat, cur, |chain|, g.count, chain);
        chain := chain + [cur];
        var next := FatEntryAt(g, data, cur);
        if next == FAT_FREE || next >= FAT_BAD || |chain| > g.count {
          return;
        }
        cur := next;
      }
      ViewLength(g, data);
      WalkEnds(fat, cur, |chain|, g.count, chain);
    }

    method ReadChainBytes(first: nat) returns (b: seq<byte>)
      requires Valid()
      ensures b == ReadChain(g, V(), first)
    {
      hide Covers, View, Walk, Shape;
      var chain := ClusterChain(first);
      ghost var heap := V().heap;
      ChainInHeap(g, V(), first);
      ChainClusters(g, V(), first);
      b := [];
      assert chain[0..] == chain;
      for i := 0 to |chain|
        invariant InHeap(heap, chain, g.bpc) && InHeap(heap, chain[i..], g.bpc)
        invariant b + Flat(heap, chain[i..], g.bpc) == Flat(heap, chain, g.bpc)
      {
        FlatSplit(heap, chain, i, g.bpc);
        var c := ClusterBytes(chain[i]);
        var x := c.value;
        assert b + (x + Flat(heap, chain[i + 1..], g.bpc)) == b + x + Flat(heap, chain[i + 1..], g.bpc);
        b := b + x;
      }
      assert b + [] == b;
    }

    // --- the bitmap ---

    method BitmapPos(c: nat) returns (p: Option<(nat, nat)>)
      requires Valid()
      ensures p == BitPos(g, V(), c)
    {
      if g.bitmap.None? || c < 2 {
        return None;
      }
      var chain := ClusterChain(g.bitmap.value.first);
      var i := (c - 2) / 8;
      if i >= g.bitmap.value.len || ClusterIx(c - 2, g.bpc) >= |chain| {
        return None;
      }
      p := Some((chain[ClusterIx(c - 2, g.bpc)], ByteIx(c - 2, g.bpc)));
    }

    method BitmapAllocated(c: nat) returns (r: Option<bool>)
      requires Valid()
      ensures r == BitAt(g, V(), c)
    {
      var p := BitmapPos(c);
      if p.None? {
        return None;
      }
      var c' := ClusterBytes(p.value.0);
      var b := c'.value;
      r := Some(Bit(b[p.value.1], (c - 2) % 8));
    }

    method SetBitmap(c: nat, on: bool)
      requires Valid()
      modifies this
      ensures Valid() && V() == MarkBit(g, old(V()), c, on)
    {
      var p := BitmapPos(c);
      if p.Some? {
        var (x, w) := p.value;
        var bytes := ClusterBytes(x);
        var row := bytes.value;
        var b: byte := PutByteBit(row[w], (c - 2) % 8, on);
        MarkIsPoke(V().heap, x, w, b);
        PokeBytes(x, w, [b]);
      }
    }

    // --- the allocator ---

    method AllocCluster() returns (r: Option<nat>)
      requires Valid()
      modifies this
      ensures Valid() && r == FindFree(g, old(V()), 2)
      ensures V() == if r.Some? then Take(g, old(V()), r.value) else old(V())
    {
      hide Covers, View, BitAt, MarkBit, Zeros;
      var c := 2;
      while c < g.Max()
        invariant c >= 2 && data == old(data)
        invariant FindFree(g, V(), c) == FindFree(g, V(), 2)
      {
        var bit := BitmapAllocated(c);
        if FatEntryAt(g, data, c) == FAT_FREE && bit != Some(true) {
          SetFatEntry(c, FAT_EOC);
          SetBitmap(c, true);
          ZeroIsPoke(V().heap, c, g.bpc);
          PokeBytes(c, 0, Zeros(g.bpc));
          return Some(c);
        }
        c := c + 1;
      }
      r := None;
    }

    method FreeClusters(cs: seq<nat>)
      requires Valid() && Clusters(g, cs)
      modifies this
      ensures Valid() && V() == FreeAll(g, old(V()), cs)
    {
      assert cs[0..] == cs;
      for i := 0 to |cs|
        invariant Valid() && FreeAll(g, V(), cs[i..]) == FreeAll(g, old(V()), cs)
      {
        assert cs[i..][1..] == cs[i + 1..];
        SetFatEntry(cs[i], FAT_FREE);
        SetBitmap(cs[i], false);
      }
    }

    /** The allocation loop: n clusters, or as many as there were. */
    method AllocClusters(n: nat) returns (cs: seq<nat>, ok: bool)
      requires Valid()
      modifies this
      ensures Valid() && Clusters(g, cs)
      ensures AllocMany(g, old(V()), n, []) == Alloced(V(), cs, ok)
    {
      hide Covers, View, FindFree, Take, Shape, AllocMany;
      cs := [];
      for i := 0 to n
        invariant Valid() && Clusters(g, cs)
        invariant AllocMany(g, V(), n - i, cs) == AllocMany(g, old(V()), n, [])
      {
        AllocStep(g, V(), n - i, cs);
        var c := AllocCluster();
        if c.None? {
          return cs, false;
        }
        cs := cs + [c.value];
      }
      AllocStep(g, V(), 0, cs);
      ok := true;
    }

    method LinkClusters(cs: seq<nat>)
      requires Valid() && Clusters(g, cs)
      modifies this
      ensures Valid() && V() == Link(old(V()), cs)
    {
      for i := 0 to |cs|
        invariant Valid() && V().heap == old(V()).heap
        invariant LinkFat(V().fat, cs, i) == LinkFat(old(V()).fat, cs, 0)
      {
        SetFatEntry(cs[i], if i + 1 < |cs| then cs[i + 1] else FAT_EOC);
      }
    }

    method AppendClusters(first: nat, n: nat) returns (st: int)
      requires Valid()
      modifies this
      ensures Valid() && Append(g, old(V()), first, n) == Grown(V(), st)
    {
      hide Covers, View, AllocMany, FreeAll, LinkFat, Walk;
      if first < 2 {
        return -5;
      }
      if n == 0 {
        return 0;
      }
      var chain := ClusterChain(first);
      if chain == [] {
        return -5;
      }
      ChainClusters(g, V(), first);
      var cs, ok := AllocClusters(n);
      if !ok {
        FreeClusters(cs);
        return -28;
      }
      SetFatEntry(chain[|chain| - 1], cs[0]);
      LinkClusters(cs);
      st := 0;
    }

    // --- looking up ---

    method ReadUpTable() returns (t: Option<seq<byte>>)
      requires Valid()
      ensures t == UpTable(g, V())
    {
      hide Covers, View, Walk, ReadChain;
      if g.upcase.None? {
        return None;
      }
      if g.upcase.value.first < 2 || g.upcase.value.len == 0 {
        return Some([]);
      }
      var b := ReadChainBytes(g.upcase.value.first);
      t := Some(b[..Min(g.upcase.value.len, |b|)]);
    }

    method ReadEntries(dir: nat) returns (es: seq<DirEntry>)
      requires Valid()
      ensures es == Entries(g, V(), dir)
    {
      hide Covers, View, ReadChain, Parse;
      var b := ReadChainBytes(dir);
      es := ParseDir(b);
    }

    method ResolvePath(comps: seq<string>) returns (r: Option<Found>)
      requires Valid()
      ensures r == Resolve(g, V(), comps)
    {
      hide Covers, View, Entries, UpTable, FindIx;
      if comps == [] {
        return Some(RootFound(g));
      }
      var dir := g.root;
      var i := 0;
      assert comps[0..] == comps;
      while true
        invariant 0 <= i < |comps|
        invariant ResolveFrom(g, V(), comps[i..], dir) == Resolve(g, V(), comps)
        decreases |comps| - i
      {
        var es := ReadEntries(dir);
        var table := ReadUpTable();
        var ix := FindName(table, es, comps[i]);
        if ix.None? {
          return None;
        }
        var e := es[ix.value];
        if i + 1 == |comps| {
          return Some(Found(e, dir));
        }
        if !e.isDir {
          return None;
        }
        assert comps[i..][1..] == comps[i + 1..];
        dir, i := e.first, i + 1;
      }
    }

    method ReadFileAt(path: string) returns (r: Result<seq<byte>, int>)
      requires Valid()
      ensures r == ReadFile(g, V(), path)
    {
      hide Covers, View, Resolve, ReadChain, Comps;
      var f := ResolvePath(Comps(path));
      if f.None? {
        return Err(-2);
      }
      if f.value.e.isDir {
        return Err(-21);
      }
      var b := ReadChainBytes(f.value.e.first);
      r := Ok(b[..Min(f.value.e.size, |b|)]);
    }

    method ReadDirAt(path: string) returns (r: Result<seq<(string, bool)>, int>)
      requires Valid()
      ensures r == ReadDir(g, V(), path)
    {
      hide Covers, View, Resolve, Entries, Comps, Listing;
      var f := ResolvePath(Comps(path));
      if f.None? {
        return Err(-2);
      }
      if !f.value.e.isDir {
        return Err(-20);
      }
      var es := ReadEntries(f.value.e.first);
      var names := [];
      for i := 0 to |es|
        invariant |names| == i && forall j :: 0 <= j < i ==> names[j] == (es[j].name, es[j].isDir)
      {
        names := names + [(es[i].name, es[i].isDir)];
      }
      assert names == Listing(es);
      r := Ok(names);
    }

    method LocateByte(dir: nat, off: nat) returns (r: Option<(nat, nat)>)
      requires Valid()
      ensures r == Locate(g, V(), dir, off)
    {
      hide Covers, View, Walk, Quot, Rem;
      var chain := ClusterChain(dir);
      var ci := Quot(off, g.bpc);
      if ci >= |chain| {
        return None;
      }
      r := Some((chain[ci], Rem(off, g.bpc)));
    }

    // --- editing a directory ---

    method WriteDentries(dir: nat, off: nat, d: seq<byte>) returns (st: int)
      requires Valid()
      modifies this
      ensures Valid() && WriteDir(g, old(V()), dir, off, d, 0) == Op(V(), st)
    {
      hide Covers, View, Locate, Poke, Shape;
      var w := 0;
      while w < |d|
        invariant Valid() && 0 <= w <= |d|
        invariant WriteDir(g, V(), dir, off, d, w) == WriteDir(g, old(V()), dir, off, d, 0)
        decreases |d| - w
      {
        var p := LocateByte(dir, off + w);
        if p.None? {
          return -28;
        }
        var (c, within) := p.value;
        var n := Min(g.bpc - within, |d| - w);
        PokeBytes(c, within, d[w..w + n]);
        w := w + n;
      }
      st := 0;
    }

    method MarkDentries(dir: nat, off: nat, n: nat)
      requires Valid()
      modifies this
      ensures Valid() && V() == MarkDir(g, old(V()), dir, off, n)
    {
      hide Covers, View, Locate, Poke, Shape;
      for i := 0 to n
        invariant Valid()
        invariant MarkDir(g, V(), dir, off + 32 * i, n - i) == MarkDir(g, old(V()), dir, off, n)
      {
        var p := LocateByte(dir, off + 32 * i);
        if p.Some? {
          var (c, within) := p.value;
          var bytes := ClusterBytes(c);
          var row := bytes.value;
          RowLength(g, V(), c);
          PokeBytes(c, within, [row[within] % 128]);
        }
      }
    }

    method RecomputeChecksum(dir: nat, off: nat, n: nat)
      requires Valid() && Aligned(off)
      modifies this
      ensures Valid() && V() == PutChecksumAt(g, old(V()), dir, off, n)
    {
      hide Covers, View, ReadChain, Checksum, WriteDir;
      var b := ReadChainBytes(dir);
      if off + 32 * n > |b| || n == 0 {
        return;
      }
      var ck := SumSet(b[off..off + 32 * n]);
      var st := WriteDentries(dir, off + 2, [ck % 256, ck / 256]);
    }

    /** Both length fields of a stream entry. */
    method PokeBoth(c: nat, within: nat, size: nat)
      requires Valid() && 2 <= c < g.Max() && within + 32 <= g.bpc
      modifies this
      ensures Valid() && V() == ExfatEdit.PokeLengths(g, old(V()), c, within, size)
    {
      hide Covers, View, Poke, Le, Shape;
      PokeBytes(c, within + 8, Le(size, 8));
      PokeBytes(c, within + 24, Le(size, 8));
    }

    method UpdateStreamLengths(f: Found, size: nat)
      requires Valid() && Aligned(f.e.off)
      modifies this
      ensures Valid() && V() == UpdateLengths(g, old(V()), f, size)
    {
      hide Covers, View, Locate, UpdateLengths, PutChecksumAt, ExfatEdit.PokeLengths, Shape;
      ExfatEdit.UpdateLengthsIs(g, V(), f, size);
      if f.parent < 2 || f.e.sec == 0 {
        return;
      }
      var p := LocateByte(f.parent, f.e.off + 32);
      if p.None? {
        return;
      }
      var (c, within) := p.value;
      var bytes := ClusterBytes(c);
      var row := bytes.value;
      RowLength(g, V(), c);
      if row[within] != STREAM {
        return;
      }
      PokeBoth(c, within, size);
      RecomputeChecksum(f.parent, f.e.off, 1 + f.e.sec);
    }

    method UpdateDirSizeOf(f: Found)
      requires Valid() && Aligned(f.e.off)
      modifies this
      ensures Valid() && V() == UpdateDirSize(g, old(V()), f)
    {
      hide Covers, View, UpdateLengths, Walk;
      if f.parent < 2 {
        return;
      }
      var chain := ClusterChain(f.e.first);
      UpdateStreamLengths(f, Span(|chain|, g.bpc));
    }

    method EnsureRunIn(dir: nat, b: seq<byte>, n: nat) returns (st: int, off: nat, grown: bool)
      requires Valid()
      modifies this
      ensures Valid() && EnsureRun(g, old(V()), dir, b, n) == Room(V(), st, off, grown)
    {
      hide Covers, View, FindFreeRun, FindEod, Append, DivCeil;
      ghost var v := V();
      var run := SearchRun(b, n);
      if run.Some? {
        return 0, run.value, false;
      }
      off := SearchEod(b);
      var end := off + 32 * n;
      var extra := if end <= |b| then 0 else DivCeil(end - |b|, g.bpc);
      st := AppendClusters(dir, extra);
      grown := extra > 0;
    }

    method ChooseOffsetIn(dir: nat, b: seq<byte>, ex: Option<DirEntry>, n: nat) returns (st: int, off: nat, grown: bool)
      requires Valid()
      modifies this
      ensures Valid() && ChooseOffset(g, old(V()), dir, b, ex, n) == Room(V(), st, off, grown)
    {
      hide Covers, View, EnsureRun, MarkDeleted;
      if ex.Some? {
        if 1 + ex.value.sec >= n {
          return 0, ex.value.off, false;
        }
        var b' := ClearInUse(b, ex.value.off, 1 + ex.value.sec);
        st, off, grown := EnsureRunIn(dir, b', n);
      } else {
        st, off, grown := EnsureRunIn(dir, b, n);
      }
    }

    method FreeChain(first: nat)
      requires Valid()
      modifies this
      ensures Valid() && V() == FreeOld(g, old(V()), Some(first))
    {
      hide Covers, View, Walk, FreeAll;
      if first < 2 {
        return;
      }
      var chain := ClusterChain(first);
      ChainClusters(g, V(), first);
      FreeClusters(chain);
    }

    method MarkRest(dir: nat, e: DirEntry, off: nat, n: nat)
      requires Valid()
      modifies this
      ensures Valid() && V() == MarkLeftover(g, old(V()), dir, e, off, n)
    {
      hide Covers, View, MarkDir;
      if off != e.off {
        MarkDentries(dir, e.off, 1 + e.sec);
      } else if 1 + e.sec > n {
        MarkDentries(dir, e.off + 32 * n, 1 + e.sec - n);
      }
    }

    method InsertOrReplaceIn(parent: Found, name: string, d: seq<byte>, oldFirst: Option<nat>) returns (st: int)
      requires Valid() && Aligned(parent.e.off)
      modifies this
      ensures Valid() && InsertOrReplace(g, old(V()), parent, name, d, oldFirst) == Op(V(), st)
    {
      hide Covers, View, ReadChain, Parse, FindIx, UpTable, ChooseOffset, WriteDir, MarkLeftover, FreeAll, UpdateDirSize;
      var dir := parent.e.first;
      var b := ReadChainBytes(dir);
      var es := ParseDir(b);
      var table := ReadUpTable();
      var ix := FindName(table, es, name);
      var ex := if ix.Some? then Some(es[ix.value]) else None;
      if ex.Some? && ex.value.isDir && oldFirst.Some? {
        return -21;
      }
      var n := |d| / 32;
      var off, grown;
      st, off, grown := ChooseOffsetIn(dir, b, ex, n);
      if st != 0 {
        return;
      }
      st := WriteDentries(dir, off, d);
      if st != 0 {
        return;
      }
      if ex.Some? {
        MarkRest(dir, ex.value, off, n);
        if oldFirst.Some? && oldFirst.value >= 2 {
          FreeChain(oldFirst.value);
        }
      }
      if grown {
        UpdateDirSizeOf(parent);
      }
    }

    // --- files and directories ---

    /** The copy loop of `write_file`. */
    method CopyClusters(cs: seq<nat>, contents: seq<byte>)
      requires Valid() && Clusters(g, cs) && InHeap(V().heap, cs, g.bpc)
      modifies this
      ensures Valid() && V() == Vol(old(V()).fat, Fill(old(V()).heap, cs, contents, g.bpc))
    {
      hide Covers, View, Fill, Poke, Shape, InHeap;
      ghost var heap := V().heap;
      var at := 0;
      assert cs[0..] == cs && contents[0..] == contents;
      for i := 0 to |cs|
        invariant Valid() && V().fat == old(V()).fat && 0 <= at <= |contents| && InHeap(V().heap, cs[i..], g.bpc)
        invariant Fill(V().heap, cs[i..], contents[at..], g.bpc) == Fill(heap, cs, contents, g.bpc)
      {
        var n := Min(g.bpc, |contents| - at);
        FillStep(V().heap, cs, i, contents, at, g.bpc);
        PokeBytes(cs[i], 0, contents[at..at + n]);
        at := at + n;
      }
      FillNothing(V().heap, cs[|cs|..], contents[at..], g.bpc);
    }

    /** The claimed clusters, linked and filled. */
    method FillClusters(cs: seq<nat>, contents: seq<byte>)
      requires Valid() && Clusters(g, cs)
      modifies this
      ensures Valid() && V() == FillNew(g, old(V()), cs, contents)
    {
      hide Covers, View, LinkFat, Fill;
      LinkShape(g, V(), cs);
      LinkClusters(cs);
      CopyClusters(cs, contents);
    }

    method WriteFileAt(path: string, contents: seq<byte>) returns (st: int)
      requires Valid()
      modifies this
      ensures Valid() && WriteFile(g, old(V()), path, contents) == Op(V(), st)
      ensures ExfatMain.WfVol(g, old(V())) && |contents| < 0x1_0000_0000_0000_0000 ==>
        ExfatSpace.WriteDone(g, old(V()), V(), path, contents, st)
    {
      hide Covers, View, SplitParent, NameStatus, ResolveDir, Entries, FindIx, UpTable, StoreFile, Encode, Comps,
        ExfatMain.WfVol, ExfatSpace.WriteDone;
      if ExfatMain.WfVol(g, V()) && |contents| < 0x1_0000_0000_0000_0000 {
        ExfatSpace.WriteFileDone(g, V(), path, contents);
      }
      var (parent, name) := SplitParent(path);
      st := CheckName(name);
      if st != 0 {
        return;
      }
      var p := ResolveParent(parent);
      if p.None? {
        return -2;
      }
      var es := ReadEntries(p.value.e.first);
      var table := ReadUpTable();
      var ix := FindName(table, es, name);
      if ix.Some? && es[ix.value].isDir {
        return -21;
      }
      var oldFirst := if ix.Some? && es[ix.value].first >= 2 then Some(es[ix.value].first) else None;
      st := StoreFileIn(p.value, name, contents, oldFirst);
    }

    /** The second half of `write_file`: allocate, fill, and enter the file, or give the clusters back. */
    method StoreFileIn(p: Found, name: string, contents: seq<byte>, oldFirst: Option<nat>) returns (st: int)
      requires Valid() && Aligned(p.e.off) && NameStatus(name) == 0
      modifies this
      ensures Valid() && StoreFile(g, old(V()), p, name, contents, oldFirst) == Op(V(), st)
    {
      hide Covers, View, UpTable, AllocMany, FreeAll, FillNew, EntrySet, NameHash, InsertOrReplace, Encode;
      ghost var v := V();
      var cs, ok := AllocClusters(DivCeil(|contents|, g.bpc));
      if !ok {
        FreeClusters(cs);
        return -28;
      }
      FillClusters(cs, contents);
      var first := if cs == [] then 0 else cs[0];
      var table := ReadUpTable();
      LegalUnits(name);
      var d := BuildSet(table, Encode(name), first, |contents|, ATTR_ARCHIVE);
      st := InsertOrReplaceIn(p, name, d, oldFirst);
      if st != 0 {
        FreeClusters(cs);
      }
    }

    method ResolveParent(path: string) returns (r: Option<Found>)
      requires Valid()
      ensures r == ResolveDir(g, V(), path)
    {
      hide Covers, View, Comps, ResolveFrom;
      r := ResolvePath(Comps(path));
      if r.Some? && !r.value.e.isDir {
        r := None;
      }
    }

    method CreateDirAt(path: string) returns (st: int)
      requires Valid()
      modifies this
      ensures Valid() && CreateDir(g, old(V()), path) == Op(V(), st)
      ensures ExfatMain.WfVol(g, old(V())) ==> ExfatSpace.MakeDone(g, old(V()), V(), path, st)
    {
      hide Covers, View, SplitParent, NameStatus, ResolveDir, Entries, FindIx, UpTable, FindFree, Take, FreeOld,
        EntrySet, NameHash, InsertOrReplace, Encode, Comps, ExfatMain.WfVol, ExfatSpace.MakeDone;
      if ExfatMain.WfVol(g, V()) { ExfatSpace.CreateDirDone(g, V(), path); }
      var (parent, name) := SplitParent(path);
      st := CheckName(name);
      if st != 0 {
        return;
      }
      var p := ResolveParent(parent);
      if p.None? {
        return -2;
      }
      var es := ReadEntries(p.value.e.first);
      var table := ReadUpTable();
      var ix := FindName(table, es, name);
      if ix.Some? {
        return -17;
      }
      var c := AllocCluster();
      if c.None? {
        return -28;
      }
      SetFatEntry(c.value, FAT_EOC);
      ZeroIsPoke(V().heap, c.value, g.bpc);
      PokeBytes(c.value, 0, Zeros(g.bpc));
      table := ReadUpTable();
      LegalUnits(name);
      var d := BuildSet(table, Encode(name), c.value, g.bpc, ATTR_DIRECTORY + ATTR_ARCHIVE);
      st := InsertOrReplaceIn(p.value, name, d, None);
      if st != 0 {
        FreeChain(c.value);
      }
    }
  }
}
