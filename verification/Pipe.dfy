/** Any number of readers and writers of one pipe, interleaved at their critical sections. */
module Pipe {
  import opened Bytes
  import opened PipeRing

  const EAGAIN: int := -11
  const EINTR: int := -4
  const EPIPE: int := -32

  /** One call of `pipe_write` or `pipe_read`, under way or returned. */
  datatype Call =
    | Writing(data: seq<byte>, written: nat, waiting: bool)
    | Wrote(data: seq<byte>, written: nat, result: int)
    | Reading(want: nat, waiting: bool)
    | DidRead(want: nat, got: seq<byte>, result: int)

  /** What one critical section of a call moved. */
  datatype Piece = Piece(id: nat, bytes: seq<byte>)

  /** The pipe, its calls, and the history of what was appended and taken, in lock order. */
  datatype State = State(buf: seq<byte>, appended: seq<Piece>, taken: seq<Piece>, calls: map<nat, Call>,
                         readOpen: nat, writeOpen: nat, nonblocking: bool)

  datatype Action =
    | BeginWrite(id: nat, data: seq<byte>)
    | BeginRead(id: nat, want: nat)
    | Enter(id: nat)
    | Cancel(id: nat)
    | SetEnds(readOpen: nat, writeOpen: nat)

  function Init(nonblocking: bool): State { State([], [], [], map[], 1, 1, nonblocking) }

  /** The return value of a write that stops early. */
  function Short(written: nat, errno: int): int { if written == 0 then errno else written }

  function EnterWrite(s: State, id: nat, c: Call): State
    requires c.Writing? && c.written <= |c.data| && |s.buf| <= PIPE_BUF_SIZE
  {
    var rest := c.data[c.written..];
    match WriteOutcome(|rest|, |s.buf|, s.readOpen)
    case Closed => s.(calls := s.calls[id := Wrote(c.data, c.written, Short(c.written, EPIPE))])
    case Full =>
      if s.nonblocking then s.(calls := s.calls[id := Wrote(c.data, c.written, Short(c.written, EAGAIN))])
      else s.(calls := s.calls[id := Writing(c.data, c.written, true)])
    case Moved(n) =>
      var w := c.written + n;
      s.(buf := s.buf + rest[..n], appended := s.appended + [Piece(id, rest[..n])],
         calls := s.calls[id := if w == |c.data| then Wrote(c.data, w, w) else Writing(c.data, w, false)])
  }

  function EnterRead(s: State, id: nat, c: Call): State
    requires c.Reading?
  {
    match ReadOutcome(c.want, |s.buf|, s.writeOpen)
    case Moved(n) =>
      s.(buf := s.buf[n..], taken := s.taken + [Piece(id, s.buf[..n])],
         calls := s.calls[id := DidRead(c.want, s.buf[..n], n)])
    case Closed => s.(calls := s.calls[id := DidRead(c.want, [], 0)])
    case Full =>
      if s.nonblocking then s.(calls := s.calls[id := DidRead(c.want, [], EAGAIN)])
      else s.(calls := s.calls[id := Reading(c.want, true)])
  }

  /** One step; an action that is not possible changes nothing. */
  function Step(s: State, a: Action): State
    requires Inv(s)
  {
    match a
    case BeginWrite(id, data) =>
      if id in s.calls then s
      else if data == [] then s.(calls := s.calls[id := Wrote(data, 0, 0)])
      else s.(calls := s.calls[id := Writing(data, 0, false)])
    case BeginRead(id, want) =>
      if id in s.calls then s
      else if want == 0 then s.(calls := s.calls[id := DidRead(0, [], 0)])
      else s.(calls := s.calls[id := Reading(want, false)])
    case Enter(id) =>
      if id !in s.calls then s
      else
        var c := s.calls[id];
        assert CallOk(s, id);
        if c.Writing? then EnterWrite(s, id, c) else if c.Reading? then EnterRead(s, id, c) else s
    case Cancel(id) =>
      if id !in s.calls then s
      else
        var c := s.calls[id];
        if c.Writing? && c.waiting then s.(calls := s.calls[id := Wrote(c.data, c.written, Short(c.written, EINTR))])
        else if c.Reading? && c.waiting then s.(calls := s.calls[id := DidRead(c.want, [], EINTR)])
        else s
    case SetEnds(r, w) => s.(readOpen := r, writeOpen := w)
  }

  // --- what every state satisfies ---

  function Flat(log: seq<Piece>): seq<byte> {
    if log == [] then [] else Flat(log[..|log| - 1]) + log[|log| - 1].bytes
  }

  /** The pieces that one call moved. */
  function Mine(log: seq<Piece>, id: nat): seq<seq<byte>> {
    if log == [] then []
    else Mine(log[..|log| - 1], id) + if log[|log| - 1].id == id then [log[|log| - 1].bytes] else []
  }

  function Join(ps: seq<seq<byte>>): seq<byte> {
    if ps == [] then [] else Join(ps[..|ps| - 1]) + ps[|ps| - 1]
  }

  /** What call `id` has moved is what it has been told, and a short write is whole or absent. */
  ghost predicate CallOk(s: State, id: nat)
    requires id in s.calls
  {
    var put, got := Mine(s.appended, id), Mine(s.taken, id);
    match s.calls[id]
    case Writing(d, w, _) =>
      w < |d| && Join(put) == d[..w] && got == [] && (|d| <= PIPE_BUF ==> put == [])
    case Wrote(d, w, r) =>
      w <= |d| && Join(put) == d[..w] && got == [] && (if r >= 0 then r == w && (r == 0 ==> d == []) else w == 0) &&
      (|d| <= PIPE_BUF ==> put == if w == 0 then [] else [d])
    case Reading(want, _) => want > 0 && put == [] && got == []
    case DidRead(want, g, r) =>
      put == [] && Join(got) == g && |g| <= want && (if r >= 0 then r == |g| else g == [])
  }

  ghost predicate Inv(s: State) {
    |s.buf| <= PIPE_BUF_SIZE && Flat(s.appended) == Flat(s.taken) + s.buf &&
    (forall id: nat :: id in s.calls ==> CallOk(s, id)) &&
    (forall id: nat :: id !in s.calls ==> Mine(s.appended, id) == [] && Mine(s.taken, id) == [])
  }

  lemma FlatSnoc(log: seq<Piece>, p: Piece)
    ensures Flat(log + [p]) == Flat(log) + p.bytes
  {
    assert (log + [p])[..|log|] == log;
  }

  lemma MineSnoc(log: seq<Piece>, p: Piece, id: nat)
    ensures Mine(log + [p], id) == if p.id == id then Mine(log, id) + [p.bytes] else Mine(log, id)
  {
    assert (log + [p])[..|log|] == log;
  }

  lemma JoinSnoc(ps: seq<seq<byte>>, b: seq<byte>)
    ensures Join(ps + [b]) == Join(ps) + b
  {
    assert (ps + [b])[..|ps|] == ps;
  }

  /** Changing one call keeps the others right. */
  lemma OtherCalls(s: State, s': State, id: nat)
    requires Inv(s) && s'.calls.Keys == s.calls.Keys + {id}
    requires forall o: nat :: o in s.calls && o != id ==> s'.calls[o] == s.calls[o]
    requires forall o: nat :: o != id ==> Mine(s'.appended, o) == Mine(s.appended, o) && Mine(s'.taken, o) == Mine(s.taken, o)
    requires |s'.buf| <= PIPE_BUF_SIZE && Flat(s'.appended) == Flat(s'.taken) + s'.buf && CallOk(s', id)
    ensures Inv(s')
  {
    hide Join, Flat, Mine;
    forall o: nat | o in s'.calls ensures CallOk(s', o) {
      if o != id { assert CallOk(s, o); }
    }
  }

  /** A short write under way has appended nothing. */
  lemma ShortNotStarted(s: State, id: nat)
    requires id in s.calls && s.calls[id].Writing? && CallOk(s, id) && |s.calls[id].data| <= PIPE_BUF
    ensures s.calls[id].written == 0
  {
    hide Mine, Flat;
    assert |s.calls[id].data[..s.calls[id].written]| == s.calls[id].written;
  }

  /** The call of a writer that moved n bytes. */
  lemma MovedCallOk(s: State, s': State, id: nat, n: nat)
    requires id in s.calls && s.calls[id].Writing? && CallOk(s, id) && id in s'.calls
    requires var c := s.calls[id]; 0 < n <= |c.data| - c.written && (|c.data| <= PIPE_BUF ==> n == |c.data| - c.written)
    requires var c := s.calls[id]; Mine(s'.appended, id) == Mine(s.appended, id) + [c.data[c.written..c.written + n]]
    requires var c, w := s.calls[id], s.calls[id].written + n;
      s'.calls[id] == if w == |c.data| then Wrote(c.data, w, w) else Writing(c.data, w, false)
    requires Mine(s'.taken, id) == Mine(s.taken, id)
    ensures CallOk(s', id)
  {
    hide Mine, Flat, Join;
    var c := s.calls[id];
    JoinSnoc(Mine(s.appended, id), c.data[c.written..c.written + n]);
    assert c.data[..c.written] + c.data[c.written..c.written + n] == c.data[..c.written + n];
    if |c.data| <= PIPE_BUF {
      ShortNotStarted(s, id);
      assert c.data[0..|c.data|] == c.data;
    }
  }

  /** The call of a writer that stopped or waits. */
  lemma StoppedCallOk(s: State, s': State, id: nat, errno: int)
    requires id in s.calls && s.calls[id].Writing? && CallOk(s, id) && id in s'.calls && errno < 0
    requires s'.appended == s.appended && s'.taken == s.taken
    requires var c := s.calls[id]; s'.calls[id] in {Writing(c.data, c.written, true), Wrote(c.data, c.written, Short(c.written, errno))}
    ensures CallOk(s', id)
  {
    hide Mine, Flat, Join;
    if |s.calls[id].data| <= PIPE_BUF { ShortNotStarted(s, id); }
  }

  lemma CallBounds(s: State, id: nat)
    requires id in s.calls && s.calls[id].Writing? && CallOk(s, id)
    ensures s.calls[id].written < |s.calls[id].data|
  {
  }

  lemma EnterWriteKeeps(s: State, id: nat)
    requires Inv(s) && id in s.calls && s.calls[id].Writing?
    ensures CallOk(s, id) && Inv(EnterWrite(s, id, s.calls[id]))
  {
    hide Join, Flat, Mine, Chunk, CallOk;
    assert CallOk(s, id);
    CallBounds(s, id);
    var c := s.calls[id];
    var s' := EnterWrite(s, id, c);
    var rest := c.data[c.written..];
    var n := Chunk(|rest|, PIPE_BUF_SIZE - |s.buf|);
    if s.readOpen > 0 && n > 0 {
      var p := Piece(id, rest[..n]);
      FlatSnoc(s.appended, p);
      assert Flat(s.taken) + (s.buf + rest[..n]) == Flat(s.taken) + s.buf + rest[..n];
      forall o: nat ensures Mine(s'.appended, o) == if o == id then Mine(s.appended, id) + [rest[..n]] else Mine(s.appended, o) {
        MineSnoc(s.appended, p, o);
      }
      ShortIsWhole(|rest|, PIPE_BUF_SIZE - |s.buf|);
      assert rest[..n] == c.data[c.written..c.written + n];
      MovedCallOk(s, s', id, n);
    } else {
      StoppedCallOk(s, s', id, if s.readOpen == 0 then EPIPE else EAGAIN);
    }
    OtherCalls(s, s', id);
  }

  lemma JoinNone()
    ensures Join([]) == []
  {
  }

  lemma ShortIsWhole(rest: nat, space: nat)
    ensures rest <= PIPE_BUF ==> Chunk(rest, space) == 0 || Chunk(rest, space) == rest
  {
  }

  lemma EnterReadKeeps(s: State, id: nat)
    requires Inv(s) && id in s.calls && s.calls[id].Reading?
    ensures Inv(EnterRead(s, id, s.calls[id]))
  {
    hide Join, Flat, Mine;
    assert CallOk(s, id);
    var c := s.calls[id];
    var s' := EnterRead(s, id, c);
    JoinNone();
    if s.buf != [] {
      var n := Min(c.want, |s.buf|);
      var p := Piece(id, s.buf[..n]);
      FlatSnoc(s.taken, p);
      assert Flat(s.taken) + s.buf == (Flat(s.taken) + s.buf[..n]) + s.buf[n..];
      forall o: nat ensures Mine(s'.taken, o) == if o == id then Mine(s.taken, id) + [s.buf[..n]] else Mine(s.taken, o) {
        MineSnoc(s.taken, p, o);
      }
      JoinSnoc(Mine(s.taken, id), s.buf[..n]);
    }
    OtherCalls(s, s', id);
  }

  /** A new call, or one that is given up, has moved nothing yet. */
  lemma NewCallKeeps(s: State, s': State, id: nat)
    requires Inv(s) && id !in s.calls && id in s'.calls && s' == s.(calls := s.calls[id := s'.calls[id]])
    requires match s'.calls[id]
      case Writing(d, w, _) => w == 0 < |d|
      case Wrote(d, w, r) => w == 0 == r && d == []
      case Reading(want, _) => want > 0
      case DidRead(want, g, r) => g == [] && r == 0
    ensures Inv(s')
  {
    hide Join, Flat, Mine;
    JoinNone();
    var c := s'.calls[id];
    if c.Writing? || c.Wrote? { assert c.data[..0] == []; }
    OtherCalls(s, s', id);
  }

  lemma CancelKeeps(s: State, id: nat)
    requires Inv(s) && id in s.calls
    ensures Inv(Step(s, Cancel(id)))
  {
    hide Join, Flat, Mine, Chunk;
    assert CallOk(s, id);
    JoinNone();
    if s.calls[id].Writing? && |s.calls[id].data| <= PIPE_BUF { ShortNotStarted(s, id); }
    OtherCalls(s, Step(s, Cancel(id)), id);
  }

  lemma StepKeeps(s: State, a: Action)
    requires Inv(s)
    ensures Inv(Step(s, a))
  {
    hide Join, Flat, Mine, EnterWrite, EnterRead, Chunk, CallOk;
    var s' := Step(s, a);
    match a
    case BeginWrite(id, data) =>
      if id !in s.calls { NewCallKeeps(s, s', id); }
    case BeginRead(id, want) =>
      if id !in s.calls { NewCallKeeps(s, s', id); }
    case Enter(id) =>
      if id in s.calls {
        if s.calls[id].Writing? { EnterWriteKeeps(s, id); } else if s.calls[id].Reading? { EnterReadKeeps(s, id); }
      }
    case Cancel(id) =>
      if id in s.calls { CancelKeeps(s, id); }
    case SetEnds(r, w) =>
      forall id: nat | id in s'.calls ensures CallOk(s', id) { SameCall(s, s', id); }
  }

  lemma SameCall(s: State, s': State, id: nat)
    requires id in s.calls && id in s'.calls && s'.calls[id] == s.calls[id] && CallOk(s, id)
    requires s'.appended == s.appended && s'.taken == s.taken
    ensures CallOk(s', id)
  {
  }

  /** The state after a run, whatever the interleaving. */
  function Run(nonblocking: bool, actions: seq<Action>): (s: State)
    ensures Inv(s)
  {
    if actions == [] then Init(nonblocking)
    else
      var s := Run(nonblocking, actions[..|actions| - 1]);
      StepKeeps(s, actions[|actions| - 1]);
      Step(s, actions[|actions| - 1])
  }

  /** A write that returned r appended exactly the first r bytes of its data, or nothing when r is an error. */
  lemma WriteResult(nonblocking: bool, actions: seq<Action>, id: nat)
    requires var s := Run(nonblocking, actions); id in s.calls && s.calls[id].Wrote?
    ensures var s := Run(nonblocking, actions); var c := s.calls[id];
      if c.result >= 0 then c.result <= |c.data| && Join(Mine(s.appended, id)) == c.data[..c.result]
      else Join(Mine(s.appended, id)) == []
  {
    hide Join, Mine, Flat;
    var s := Run(nonblocking, actions);
    assert CallOk(s, id);
    assert s.calls[id].data[..0] == [];
  }

  lemma {:induction false} OnlyPiece(log: seq<Piece>, id: nat, d: seq<byte>) returns (pre: seq<byte>, post: seq<byte>)
    requires Mine(log, id) == [d]
    ensures Flat(log) == pre + d + post
    decreases |log|
  {
    var init, last := log[..|log| - 1], log[|log| - 1];
    if last.id == id {
      pre, post := Flat(init), [];
      var ps := Mine(init, id) + [last.bytes];
      assert ps == [d] && ps[|ps| - 1] == last.bytes;
      assert Flat(log) == pre + d == pre + d + post;
    } else {
      assert Mine(init, id) == [d] by { assert Mine(init, id) + [] == Mine(init, id); }
      pre, post := OnlyPiece(init, id, d);
      post := post + last.bytes;
    }
  }

  /** A write of at most PIPE_BUF bytes is never split or short: all its bytes are contiguous in the stream, or none are there. */
  lemma ShortWriteContiguous(nonblocking: bool, actions: seq<Action>, id: nat) returns (pre: seq<byte>, post: seq<byte>)
    requires var s := Run(nonblocking, actions); id in s.calls && s.calls[id].Wrote? && |s.calls[id].data| <= PIPE_BUF
    ensures var s := Run(nonblocking, actions); var c := s.calls[id];
      if c.result < 0 || c.data == [] then Mine(s.appended, id) == []
      else c.result == |c.data| && Flat(s.appended) == pre + c.data + post && Mine(s.appended, id) == [c.data]
  {
    var s := Run(nonblocking, actions);
    assert CallOk(s, id);
    var c := s.calls[id];
    pre, post := [], [];
    if c.written > 0 {
      JoinSnoc([], c.data);
      assert [] + [c.data] == [c.data];
      assert c.data[..c.written] == c.data;
      pre, post := OnlyPiece(s.appended, id, c.data);
    }
  }

  // --- blocking ---

  predicate ReaderWaits(s: State) { s.buf == [] && s.writeOpen > 0 && !s.nonblocking }

  predicate WriterWaits(s: State, rest: nat)
    requires |s.buf| <= PIPE_BUF_SIZE
  {
    s.readOpen > 0 && Chunk(rest, PIPE_BUF_SIZE - |s.buf|) == 0 && !s.nonblocking
  }

  /** These are the conditions under which a critical section leaves its call waiting. */
  lemma WaitsExactly(s: State, id: nat)
    requires Inv(s) && id in s.calls
    ensures s.calls[id].Reading? ==>
      (var c := Step(s, Enter(id)).calls[id]; ReaderWaits(s) <==> c.Reading? && c.waiting)
    ensures s.calls[id].Writing? ==>
      (var c := Step(s, Enter(id)).calls[id];
       var rest := |s.calls[id].data| - s.calls[id].written;
       rest > 0 && (WriterWaits(s, rest) <==> c.Writing? && c.waiting))
  {
    hide Join, Flat, Mine, Chunk;
    assert CallOk(s, id);
  }

  /** In no reachable state would both a reader and a writer be left waiting for the other. */
  lemma NeverBothWait(s: State, r: nat, w: nat)
    requires Inv(s) && r in s.calls && w in s.calls && s.calls[r].Reading? && s.calls[w].Writing?
    ensures var a, b := Step(s, Enter(r)).calls[r], Step(s, Enter(w)).calls[w];
      !(a.Reading? && a.waiting && b.Writing? && b.waiting)
  {
    hide Step, Inv;
    BufFits(s);
    WaitsExactly(s, r);
    WaitsExactly(s, w);
  }

  lemma BufFits(s: State)
    requires Inv(s)
    ensures |s.buf| <= PIPE_BUF_SIZE
  {
  }

  /** Polling agrees: readable means a read will not wait, writable means a one-byte write will not. */
  lemma ReadyMeansNoWait(s: State)
    requires |s.buf| <= PIPE_BUF_SIZE && !s.nonblocking
    ensures ReadReady(|s.buf|, s.writeOpen, true).input <==> !ReaderWaits(s)
    ensures var r := WriteReady(|s.buf|, s.readOpen, true); r.err || r.output <==> !WriterWaits(s, 1)
  {
  }
}
