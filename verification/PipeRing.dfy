/** The pipe's ring buffer, and one critical section of a reader and of a writer. */
module PipeRing {
  import opened Bytes

  const PIPE_BUF_SIZE: nat := 65536
  const PIPE_BUF: nat := 4096

  /** How a critical section ends: bytes moved, the other side gone, or nothing possible now. */
  datatype Section = Moved(n: nat) | Closed | Full

  /** The bytes that a writer with `rest` left may append at once; none when it has to wait. */
  function Chunk(rest: nat, space: nat): (n: nat)
    ensures n <= rest && n <= space
  {
    if rest <= PIPE_BUF then (if space >= rest then rest else 0) else Min(space, rest)
  }

  /** How a writer with `rest` bytes left fares against a buffer that holds `len`. */
  function WriteOutcome(rest: nat, len: nat, readOpen: nat): (r: Section)
    requires len <= PIPE_BUF_SIZE
    ensures r.Moved? ==> 0 < r.n <= rest && len + r.n <= PIPE_BUF_SIZE
  {
    var n := Chunk(rest, PIPE_BUF_SIZE - len);
    if readOpen == 0 then Closed else if n == 0 then Full else Moved(n)
  }

  function ReadOutcome(want: nat, len: nat, writeOpen: nat): (r: Section)
    ensures r.Moved? ==> r.n <= want && r.n <= len
  {
    if len > 0 then Moved(Min(want, len)) else if writeOpen == 0 then Closed else Full
  }

  function Amount(r: Section): nat { if r.Moved? then r.n else 0 }

  /** The place in the buffer of the byte i after the head. */
  function Slot(head: nat, i: nat): (k: nat)
    ensures k < PIPE_BUF_SIZE
  {
    (head + i) % PIPE_BUF_SIZE
  }

  lemma SlotsDiffer(head: nat, a: nat, b: nat)
    requires a < b < a + PIPE_BUF_SIZE
    ensures Slot(head, a) != Slot(head, b)
  {
  }

  class PipeInner {
    var buf: array<byte>
    var head: nat
    var len: nat
    var writeOpen: nat
    var readOpen: nat
    const nonblocking: bool

    ghost predicate Valid()
      reads this
    {
      buf.Length == PIPE_BUF_SIZE && head < PIPE_BUF_SIZE && len <= PIPE_BUF_SIZE
    }

    /** The buffered bytes, oldest first. */
    ghost function Contents(): (s: seq<byte>)
      requires Valid()
      reads this, buf
      ensures |s| == len
    {
      seq(len, i requires 0 <= i < len && Valid() reads this, buf => buf[Slot(head, i)])
    }

    constructor (nonblocking: bool)
      ensures Valid() && Contents() == [] && fresh(buf)
      ensures readOpen == writeOpen == 1 && this.nonblocking == nonblocking
    {
      buf := new byte[PIPE_BUF_SIZE](_ => 0);
      head, len, writeOpen, readOpen := 0, 0, 1, 1;
      this.nonblocking := nonblocking;
    }

    function Space(): nat
      requires Valid()
      reads this
    {
      PIPE_BUF_SIZE - len
    }

    /** `read_bytes`: the oldest bytes leave the buffer. */
    method ReadBytes(want: nat) returns (dst: seq<byte>)
      requires Valid()
      modifies this`head, this`len
      ensures Valid() && dst == old(Contents())[..Min(want, old(len))] && Contents() == old(Contents())[Min(want, old(len))..]
    {
      var n := Min(want, len);
      dst := [];
      for i := 0 to n
        invariant dst == Contents()[..i]
      {
        dst := dst + [buf[Slot(head, i)]];
      }
      head, len := (head + n) % PIPE_BUF_SIZE, len - n;
      assert Contents() == old(Contents())[n..] by {
        forall i | 0 <= i < len ensures Contents()[i] == old(Contents())[n + i] {
          assert Slot(head, i) == Slot(old(head), n + i);
        }
      }
    }

    /** `write_bytes`: the new bytes join at the end. */
    method WriteBytes(src: seq<byte>)
      requires Valid() && |src| <= Space()
      modifies this`len, buf
      ensures Valid() && Contents() == old(Contents()) + src
    {
      var tail := (head + len) % PIPE_BUF_SIZE;
      ghost var want := Contents() + src;
      for i := 0 to |src|
        invariant len == old(len)
        invariant forall j :: 0 <= j < len + i ==> buf[Slot(head, j)] == want[j]
      {
        assert Slot(tail, i) == Slot(head, len + i);
        forall j | 0 <= j < len + i ensures Slot(head, j) != Slot(tail, i) {
          SlotsDiffer(head, j, len + i);
        }
        buf[Slot(tail, i)] := src[i];
      }
      len := len + |src|;
    }

    /** One pass of `pipe_read` under the lock. */
    method ReadSection(want: nat) returns (r: Section, dst: seq<byte>)
      requires Valid() && want > 0
      modifies this`head, this`len
      ensures Valid() && r == ReadOutcome(want, old(len), writeOpen)
      ensures dst == old(Contents())[..Amount(r)] && Contents() == old(Contents())[Amount(r)..]
    {
      dst := [];
      if len > 0 {
        dst := ReadBytes(want);
        r := Moved(|dst|);
      } else if writeOpen == 0 {
        r := Closed;
      } else {
        r := Full;
      }
    }

    /** One pass of `pipe_write` under the lock. */
    method WriteSection(rest: seq<byte>) returns (r: Section)
      requires Valid() && rest != []
      modifies this`len, buf
      ensures Valid() && r == WriteOutcome(|rest|, old(len), readOpen)
      ensures Contents() == old(Contents()) + rest[..Amount(r)]
    {
      if readOpen == 0 {
        return Closed;
      }
      var space := Space();
      if space == 0 {
        r := Full;
      } else if |rest| <= PIPE_BUF {
        if space >= |rest| {
          WriteBytes(rest);
          assert rest[..|rest|] == rest;
          r := Moved(|rest|);
        } else {
          r := Full;
        }
      } else {
        var chunk := Min(space, |rest|);
        WriteBytes(rest[..chunk]);
        r := Moved(chunk);
      }
    }
  }

  // --- readiness ---

  /** The bits of `pipe_ready`. */
  datatype Ready = Ready(err: bool, hup: bool, input: bool, output: bool)

  function WriteReady(len: nat, readOpen: nat, wanted: bool): Ready
    requires len <= PIPE_BUF_SIZE
  {
    Ready(readOpen == 0, false, false, wanted && PIPE_BUF_SIZE - len > 0)
  }

  function ReadReady(len: nat, writeOpen: nat, wanted: bool): Ready {
    Ready(false, writeOpen == 0, writeOpen == 0 || (wanted && len > 0), false)
  }
}
