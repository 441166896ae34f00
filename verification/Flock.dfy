/** Advisory locks: the shared table, and lock calls interleaved at their critical sections. */
module Flock {
  import opened Bytes
  import opened MapSum

  const F_RDLCK: int := 0
  const F_WRLCK: int := 1
  const F_UNLCK: int := 2
  const F_GETLK: int := 5
  const F_SETLK: int := 6
  const U64_MAX: nat := 0xFFFF_FFFF_FFFF_FFFF
  const RLIM_INFINITY: nat := 0xFFFF_FFFF_FFFF_FFFF

  datatype Entry = Entry(pid: nat, ltype: int, start: nat, end: nat, bsd: bool)

  type Table = map<nat, seq<Entry>>

  // --- ranges and conflicts ---

  predicate Overlap(a: Entry, start: nat, end: nat) { a.start < end && start < a.end }

  /** `conflicts`. */
  predicate Conflicts(e: Entry, pid: nat, ltype: int, start: nat, end: nat) {
    e.pid != pid && Overlap(e, start, end) && !(e.ltype == F_RDLCK && ltype == F_RDLCK)
  }

  type i64 = x: int | -0x8000_0000_0000_0000 <= x < 0x8000_0000_0000_0000

  function Abs(x: int): nat { if x < 0 then -x else x }

  /** `lock_range`: never empty, whatever the user asks for. */
  function LockRange(lStart: i64, lLen: i64): (r: (nat, nat))
    ensures r.0 < r.1 <= U64_MAX
  {
    var start := Max(lStart, 0);
    (start, if lLen == 0 then U64_MAX else Min(start + Abs(lLen), U64_MAX))
  }

  function List(t: Table, ino: nat): seq<Entry> { if ino in t then t[ino] else [] }

  /** `retain`. */
  function Keep(es: seq<Entry>, f: Entry -> bool): (r: seq<Entry>)
    ensures forall e :: e in r <==> e in es && f(e)
  {
    if es == [] then [] else Keep(es[..|es| - 1], f) + if f(es[|es| - 1]) then [es[|es| - 1]] else []
  }

  function DropBsd(es: seq<Entry>, pid: nat): seq<Entry> { Keep(es, (e: Entry) => !(e.pid == pid && e.bsd)) }

  function DropOverlap(es: seq<Entry>, pid: nat, start: nat, end: nat): seq<Entry> {
    Keep(es, (e: Entry) => !(e.pid == pid && Overlap(e, start, end)))
  }

  function DropPid(es: seq<Entry>, pid: nat): seq<Entry> { Keep(es, (e: Entry) => e.pid != pid) }

  /** `release_all_locks`. */
  function ReleasePid(t: Table, pid: nat): (r: Table)
    ensures r.Keys == t.Keys && forall i :: i in t ==> r[i] == DropPid(t[i], pid)
  {
    map i | i in t :: DropPid(t[i], pid)
  }

  predicate Blocked(es: seq<Entry>, pid: nat, ltype: int, start: nat, end: nat) {
    exists i :: 0 <= i < |es| && Conflicts(es[i], pid, ltype, start, end)
  }

  /** `F_GETLK`: the first lock that stands in the way. */
  function FirstConflict(es: seq<Entry>, pid: nat, ltype: int, start: nat, end: nat): (r: Option<Entry>)
    ensures r.None? <==> !Blocked(es, pid, ltype, start, end)
    ensures r.Some? ==> r.value in es && Conflicts(r.value, pid, ltype, start, end)
  {
    if es == [] then None
    else if Conflicts(es[0], pid, ltype, start, end) then Some(es[0])
    else
      assert forall i :: 0 < i < |es| ==> es[i] == es[1..][i - 1];
      FirstConflict(es[1..], pid, ltype, start, end)
  }

  // --- counting ---

  function CountIn(es: seq<Entry>, pid: nat): nat {
    if es == [] then 0 else CountIn(es[..|es| - 1], pid) + if es[|es| - 1].pid == pid then 1 else 0
  }

  ghost function Counts(t: Table, pid: nat): map<nat, nat> { map i | i in t :: CountIn(t[i], pid) }

  /** `count_locks_for`. */
  ghost function Count(t: Table, pid: nat): nat { Sum(Counts(t, pid)) }

  // --- calls ---

  datatype Request =
    | FlockReq(operation: int)
    | FcntlReq(cmd: int, ltype: int, lStart: i64, lLen: i64)

  datatype Pc = Start | Limit | Acquire | Done(result: int)

  datatype Call = Call(pid: nat, ino: nat, req: Request, pc: Pc)

  /** The table, the calls under way or returned, and each process's RLIMIT_LOCKS. */
  datatype State = State(table: Table, calls: map<nat, Call>, limits: map<nat, nat>)

  datatype Action =
    | Begin(id: nat, pid: nat, ino: nat, req: Request)
    | Go(id: nat)
    | ReleaseAll(pid: nat)
    | ReleaseBsd(pid: nat, ino: nat)

  /** LOCK_NB of a flock operation, and the operation without it. */
  predicate NonBlocking(operation: int) { (operation / 4) % 2 == 1 }

  function Operation(operation: int): int { if NonBlocking(operation) then operation - 4 else operation }

  function LimitOf(s: State, pid: nat): (l: Option<nat>) {
    if pid in s.limits && s.limits[pid] != RLIM_INFINITY then Some(s.limits[pid]) else None
  }

  function SetList(s: State, ino: nat, es: seq<Entry>): State { s.(table := s.table[ino := es]) }

  function SetPc(s: State, id: nat, pc: Pc): State
    requires id in s.calls
  {
    s.(calls := s.calls[id := s.calls[id].(pc := pc)])
  }

  /** The range and type that an acquiring call asks for. */
  function Wanted(req: Request): (r: (int, nat, nat))
    ensures r.1 < r.2
  {
    match req
    case FlockReq(op) => (if Operation(op) == 1 then F_RDLCK else F_WRLCK, 0, U64_MAX)
    case FcntlReq(_, ltype, s, l) => (ltype, LockRange(s, l).0, LockRange(s, l).1)
  }

  predicate Waits(req: Request) {
    match req
    case FlockReq(op) => !NonBlocking(op)
    case FcntlReq(cmd, _, _, _) => cmd != F_SETLK
  }

  /** The first critical section: unlocking, refusing, querying, or preparing to acquire. */
  function StartStep(s: State, id: nat): State
    requires id in s.calls
  {
    var c := s.calls[id];
    var es := List(s.table, c.ino);
    match c.req
    case FlockReq(operation) =>
      var op := Operation(operation);
      if op == 8 then SetPc(if c.ino in s.table then SetList(s, c.ino, DropBsd(es, c.pid)) else s, id, Done(0))
      else if op != 1 && op != 2 then SetPc(s, id, Done(-22))
      else if exists i :: 0 <= i < |es| && es[i].pid == c.pid && es[i].bsd then
        SetPc(SetList(s, c.ino, DropBsd(es, c.pid)), id, Acquire)
      else SetPc(s, id, Limit)
    case FcntlReq(cmd, ltype, _, _) =>
      var (_, start, end) := Wanted(c.req);
      if cmd == F_GETLK then SetPc(s, id, Done(0))
      else if ltype == F_UNLCK then
        SetPc(if c.ino in s.table then SetList(s, c.ino, DropOverlap(es, c.pid, start, end)) else s, id, Done(0))
      else if exists i :: 0 <= i < |es| && es[i].pid == c.pid && Overlap(es[i], start, end) then SetPc(s, id, Acquire)
      else SetPc(s, id, Limit)
  }

  /** `check_lock_limit`. */
  ghost function LimitStep(s: State, id: nat): State
    requires id in s.calls
  {
    var l := LimitOf(s, s.calls[id].pid);
    if l.Some? && Count(s.table, s.calls[id].pid) >= l.value then SetPc(s, id, Done(-37)) else SetPc(s, id, Acquire)
  }

  /** One try of the acquiring loop. */
  function AcquireStep(s: State, id: nat): State
    requires id in s.calls
  {
    var c := s.calls[id];
    var es := List(s.table, c.ino);
    var (ltype, start, end) := Wanted(c.req);
    if !Blocked(es, c.pid, ltype, start, end) then
      var rest := if c.req.FcntlReq? then DropOverlap(es, c.pid, start, end) else es;
      SetPc(SetList(s, c.ino, rest + [Entry(c.pid, ltype, start, end, c.req.FlockReq?)]), id, Done(0))
    else if !Waits(c.req) then SetPc(SetList(s, c.ino, es), id, Done(-11))
    else SetList(s, c.ino, es)
  }

  ghost function Step(s: State, a: Action): State {
    match a
    case Begin(id, pid, ino, req) =>
      if id in s.calls then s else s.(calls := s.calls[id := Call(pid, ino, req, Start)])
    case Go(id) =>
      if id !in s.calls then s
      else (match s.calls[id].pc
        case Start => StartStep(s, id)
        case Limit => LimitStep(s, id)
        case Acquire => AcquireStep(s, id)
        case Done(_) => s)
    case ReleaseAll(pid) => s.(table := ReleasePid(s.table, pid))
    case ReleaseBsd(pid, ino) => if ino in s.table then SetList(s, ino, DropBsd(s.table[ino], pid)) else s
  }

  ghost function Run(limits: map<nat, nat>, actions: seq<Action>): State {
    if actions == [] then State(map[], map[], limits) else Step(Run(limits, actions[..|actions| - 1]), actions[|actions| - 1])
  }
}
