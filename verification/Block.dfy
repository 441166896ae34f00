/** Byte-granular access to a device of 512-byte sectors, by read-modify-write. */
module Block {
  import opened Bytes

  const SECTOR_SIZE: nat := 512

  /** The sectors as one run of bytes. */
  ghost function Flat(ss: seq<seq<byte>>): (f: seq<byte>)
    requires forall s :: s in ss ==> |s| == SECTOR_SIZE
    ensures |f| == SECTOR_SIZE * |ss|
  {
    if ss == [] then [] else Flat(ss[..|ss| - 1]) + ss[|ss| - 1]
  }

  lemma {:induction false} FlatSector(ss: seq<seq<byte>>, l: nat)
    requires (forall s :: s in ss ==> |s| == SECTOR_SIZE) && l < |ss|
    ensures Flat(ss)[SECTOR_SIZE * l..SECTOR_SIZE * l + SECTOR_SIZE] == ss[l]
    decreases |ss|
  {
    var n := |ss| - 1;
    if l < n {
      FlatSector(ss[..n], l);
      var f := Flat(ss[..n]);
      assert (f + ss[n])[SECTOR_SIZE * l..SECTOR_SIZE * l + SECTOR_SIZE] == f[SECTOR_SIZE * l..SECTOR_SIZE * l + SECTOR_SIZE];
    }
  }

  /** Storing one sector stores its bytes and no others. */
  lemma {:induction false} FlatStore(ss: seq<seq<byte>>, l: nat, x: seq<byte>)
    requires (forall s :: s in ss ==> |s| == SECTOR_SIZE) && l < |ss| && |x| == SECTOR_SIZE
    ensures Flat(ss[l := x]) == Splice(Flat(ss), SECTOR_SIZE * l, x)
    decreases |ss|
  {
    hide Splice, Flat;
    var n := |ss| - 1;
    var a, ss' := ss[..n], ss[l := x];
    FlatUnfold(ss);
    FlatUnfold(ss');
    if l < n {
      assert ss'[..n] == a[l := x];
      FlatStore(a, l, x);
      SpliceLeft(Flat(a), ss[n], SECTOR_SIZE * l, x);
    } else {
      assert ss'[..n] == a;
      StoreLast(Flat(a), ss[n], x);
    }
  }

  lemma FlatUnfold(ss: seq<seq<byte>>)
    requires (forall s :: s in ss ==> |s| == SECTOR_SIZE) && ss != []
    ensures Flat(ss) == Flat(ss[..|ss| - 1]) + ss[|ss| - 1]
  {
  }

  lemma StoreLast(f: seq<byte>, s: seq<byte>, x: seq<byte>)
    requires |s| == |x|
    ensures Splice(f + s, |f|, x) == f + x
  {
  }

  /** The outcome of a transfer: the bytes moved, or an error when none could be. */
  function Outcome(done: nat, wanted: nat): (r: Option<nat>)
    requires done <= wanted
  {
    if done == 0 && wanted > 0 then None else Some(done)
  }

  /** A device whose n-th sector operation fails when `fails(n)` says so, and past its end. */
  class Device {
    const fails: nat -> bool
    var ops: nat
    var sectors: seq<seq<byte>>

    ghost predicate Valid()
      reads this
    {
      forall s :: s in sectors ==> |s| == SECTOR_SIZE
    }

    ghost function Bytes(): (f: seq<byte>)
      requires Valid()
      reads this
    {
      Flat(sectors)
    }

    constructor (sectors: seq<seq<byte>>, fails: nat -> bool)
      requires forall s :: s in sectors ==> |s| == SECTOR_SIZE
      ensures Valid() && this.sectors == sectors && this.fails == fails
    {
      this.sectors, this.fails, ops := sectors, fails, 0;
    }

    /** The last sector operation failed, or byte `at` is past the end. */
    ghost predicate Stopped(at: nat)
      requires Valid()
      reads this
    {
      (ops > 0 && fails(ops - 1)) || at >= |Bytes()|
    }

    /** One sector read. */
    method ReadSector(lba: nat) returns (ok: bool, sector: seq<byte>)
      requires Valid()
      modifies this`ops
      ensures ops == old(ops) + 1 && ok == (!fails(old(ops)) && lba < |sectors|)
      ensures ok ==> sector == sectors[lba]
    {
      ok := !fails(ops) && lba < |sectors|;
      sector := if ok then sectors[lba] else [];
      ops := ops + 1;
    }

    /** One sector write; a failed one changes nothing. */
    method WriteSector(lba: nat, sector: seq<byte>) returns (ok: bool)
      requires Valid() && |sector| == SECTOR_SIZE
      modifies this
      ensures Valid() && ops == old(ops) + 1 && ok == (!fails(old(ops)) && lba < |sectors|)
      ensures |sectors| == |old(sectors)| && sectors == if ok then old(sectors)[lba := sector] else old(sectors)
    {
      ok := !fails(ops) && lba < |sectors|;
      if ok {
        sectors := sectors[lba := sector];
      }
      ops := ops + 1;
    }

    /** `read_at`: the reported prefix is the device's bytes, and the rest of the buffer is untouched. */
    method ReadAt(offset: nat, buf: array<byte>) returns (r: Option<nat>)
      requires Valid()
      modifies buf, this`ops
      ensures r.None? ==> buf.Length > 0 && buf[..] == old(buf[..]) && Stopped(offset)
      ensures r.Some? && r.value < buf.Length ==> Stopped(offset + r.value)
      ensures r.Some? ==> (r.value == 0 <==> buf.Length == 0) && Loaded(Bytes(), offset, old(buf[..]), buf[..], r.value)
    {
      hide Loaded, Flat, Quot, Rem;
      var done := 0;
      LoadedNone(Bytes(), offset, buf[..]);
      while done < buf.Length
        invariant 0 <= done <= buf.Length && Loaded(Bytes(), offset, old(buf[..]), buf[..], done)
        invariant done == 0 ==> buf[..] == old(buf[..])
      {
        var abs := offset + done;
        var lba, sectorOff := Quot(abs, SECTOR_SIZE), Rem(abs, SECTOR_SIZE);
        var n := Min(SECTOR_SIZE - sectorOff, buf.Length - done);
        QuotRem(abs);
        var ok, sector := ReadSector(lba);
        if !ok {
          FlatLength(sectors);
          r := Outcome(done, buf.Length);
          return;
        }
        FlatSector(sectors, lba);
        LoadedMore(Bytes(), offset, old(buf[..]), buf[..], done, sector, lba, sectorOff, n);
        CopyInto(buf, done, sector[sectorOff..sectorOff + n]);
        done := done + n;
      }
      r := Some(done);
    }

    /** `write_at`: exactly the reported prefix is stored; every other byte stays. */
    method WriteAt(offset: nat, buf: seq<byte>) returns (r: Option<nat>)
      requires Valid()
      modifies this
      ensures Valid()
      ensures r.None? ==> buf != [] && Bytes() == old(Bytes()) && Stopped(offset)
      ensures r.Some? && r.value < |buf| ==> Stopped(offset + r.value)
      ensures r.Some? ==> (r.value == 0 <==> buf == []) && Stored(old(Bytes()), Bytes(), offset, buf, r.value)
    {
      hide Stored, Flat, Quot, Rem, Splice;
      var done := 0;
      var sector: seq<byte> := Zeros(SECTOR_SIZE);
      StoredNone(Bytes(), offset, buf);
      while done < |buf|
        invariant Valid() && 0 <= done <= |buf| && |sector| == SECTOR_SIZE
        invariant Stored(old(Bytes()), Bytes(), offset, buf, done)
        invariant done == 0 ==> Bytes() == old(Bytes())
      {
        var abs := offset + done;
        var lba, sectorOff := Quot(abs, SECTOR_SIZE), Rem(abs, SECTOR_SIZE);
        var n := Min(SECTOR_SIZE - sectorOff, |buf| - done);
        QuotRem(abs);
        FlatLength(sectors);
        if n != SECTOR_SIZE {
          var ok, s := ReadSector(lba);
          if !ok {
            r := Outcome(done, |buf|);
            return;
          }
          sector := s;
        }
        ghost var before, ss := sector, sectors;
        sector := Splice(sector, sectorOff, buf[done..done + n]);
        var ok := WriteSector(lba, sector);
        if !ok {
          r := Outcome(done, |buf|);
          return;
        }
        FlatStore(ss, lba, sector);
        FlatSector(ss, lba);
        PartStored(Flat(ss), lba, sectorOff, before, buf[done..done + n]);
        StoredMore(old(Bytes()), Flat(ss), offset, buf, done, n);
        done := done + n;
      }
      r := Some(done);
    }
  }

  lemma FlatLength(ss: seq<seq<byte>>)
    requires forall s :: s in ss ==> |s| == SECTOR_SIZE
    ensures |Flat(ss)| == SECTOR_SIZE * |ss|
  {
  }

  lemma QuotRem(abs: nat)
    ensures SECTOR_SIZE * Quot(abs, SECTOR_SIZE) + Rem(abs, SECTOR_SIZE) == abs
  {
  }

  /** The first `done` bytes of the buffer come from the device, the others are as they were. */
  ghost predicate Loaded(f: seq<byte>, offset: nat, was: seq<byte>, now: seq<byte>, done: nat) {
    |now| == |was| && done <= |now| && now[done..] == was[done..] &&
    (done > 0 ==> offset + done <= |f| && now[..done] == f[offset..offset + done])
  }

  /** The device holds the first `done` bytes of buf at offset, and is otherwise as it was. */
  ghost predicate Stored(f0: seq<byte>, f: seq<byte>, offset: nat, buf: seq<byte>, done: nat) {
    |f| == |f0| && done <= |buf| &&
    if done == 0 then f == f0 else offset + done <= |f| && f == Splice(f0, offset, buf[..done])
  }

  lemma LoadedNone(f: seq<byte>, offset: nat, b: seq<byte>)
    ensures Loaded(f, offset, b, b, 0)
  {
  }

  lemma StoredNone(f: seq<byte>, offset: nat, buf: seq<byte>)
    ensures Stored(f, f, offset, buf, 0)
  {
  }

  lemma StoredMore(f0: seq<byte>, f: seq<byte>, offset: nat, buf: seq<byte>, done: nat, n: nat)
    requires Stored(f0, f, offset, buf, done) && 0 < n && done + n <= |buf| && offset + done + n <= |f|
    ensures Stored(f0, Splice(f, offset + done, buf[done..done + n]), offset, buf, done + n)
  {
    hide Splice;
    if done > 0 { PrefixStored(f0, offset, buf, done, n); } else { assert buf[0..n] == buf[..n]; }
  }

  /** What was stored is what a read of the same bytes returns. */
  lemma ReadBack(f0: seq<byte>, f: seq<byte>, offset: nat, buf: seq<byte>, done: nat, was: seq<byte>, now: seq<byte>, got: nat)
    requires Stored(f0, f, offset, buf, done) && Loaded(f, offset, was, now, got) && got <= done
    ensures now[..got] == buf[..got]
  {
    if got > 0 {
      forall i | 0 <= i < got ensures now[i] == buf[i] { assert now[..got][i] == f[offset..offset + got][i]; }
    }
  }

  /** One more piece of a read. */
  lemma LoadedMore(f: seq<byte>, offset: nat, was: seq<byte>, now: seq<byte>, done: nat, sector: seq<byte>, lba: nat, sectorOff: nat, n: nat)
    requires Loaded(f, offset, was, now, done) && sectorOff + n <= SECTOR_SIZE == |sector| && 0 < n && done + n <= |was|
    requires SECTOR_SIZE * lba + sectorOff == offset + done && SECTOR_SIZE * lba + SECTOR_SIZE <= |f|
    requires f[SECTOR_SIZE * lba..SECTOR_SIZE * lba + SECTOR_SIZE] == sector
    ensures Loaded(f, offset, was, Splice(now, done, sector[sectorOff..sectorOff + n]), done + n)
  {
    var now' := Splice(now, done, sector[sectorOff..sectorOff + n]);
    forall i | 0 <= i < done + n ensures now'[i] == f[offset + i] {
      if i < done {
        assert now[..done][i] == f[offset..offset + done][i];
      } else {
        assert sector[sectorOff + (i - done)] == f[SECTOR_SIZE * lba..SECTOR_SIZE * lba + SECTOR_SIZE][sectorOff + (i - done)];
      }
    }
    forall i | done + n <= i < |was| ensures now'[i] == was[i] {
      assert now[done..][i - done] == was[done..][i - done];
    }
  }

  /** Storing a sector that was read and then changed in part, or is new as a whole, stores just that part. */
  lemma PartStored(f: seq<byte>, lba: nat, off: nat, before: seq<byte>, x: seq<byte>)
    requires SECTOR_SIZE * lba + SECTOR_SIZE <= |f| && off + |x| <= SECTOR_SIZE == |before|
    requires |x| < SECTOR_SIZE ==> before == f[SECTOR_SIZE * lba..SECTOR_SIZE * lba + SECTOR_SIZE]
    ensures Splice(f, SECTOR_SIZE * lba, Splice(before, off, x)) == Splice(f, SECTOR_SIZE * lba + off, x)
  {
  }

  lemma PrefixStored(f: seq<byte>, offset: nat, buf: seq<byte>, done: nat, n: nat)
    requires done + n <= |buf| && offset + done + n <= |f|
    ensures Splice(Splice(f, offset, buf[..done]), offset + done, buf[done..done + n]) == Splice(f, offset, buf[..done + n])
  {
  }
}
