/** What the lock table guarantees over every run. */
module FlockProofs {
  import opened Bytes
  import opened MapSum
  import opened Flock

  // --- mutual exclusion ---

  /** Two locks on one inode that may stand side by side. */
  predicate Compatible(e: Entry, f: Entry) {
    (e.pid != f.pid && Overlap(e, f.start, f.end) ==> e.ltype == F_RDLCK && f.ltype == F_RDLCK) &&
    (e.pid == f.pid && !e.bsd && !f.bsd ==> !Overlap(e, f.start, f.end))
  }

  predicate Good(es: seq<Entry>) {
    es == [] ||
    (var init, last := es[..|es| - 1], es[|es| - 1];
     Good(init) && last.start < last.end && forall i :: 0 <= i < |init| ==> Compatible(init[i], last))
  }

  lemma {:induction false} GoodPairs(es: seq<Entry>, i: nat, j: nat)
    requires Good(es) && i < j < |es|
    ensures Compatible(es[i], es[j])
    decreases |es|
  {
    var init := es[..|es| - 1];
    if j == |es| - 1 { assert es[i] == init[i]; } else { GoodPairs(init, i, j); }
  }

  lemma {:induction false} KeepGood(es: seq<Entry>, f: Entry -> bool)
    requires Good(es)
    ensures Good(Keep(es, f))
    decreases |es|
  {
    if es != [] {
      var init, last := es[..|es| - 1], es[|es| - 1];
      KeepGood(init, f);
      var k := Keep(init, f);
      if f(last) {
        forall i | 0 <= i < |k| ensures Compatible(k[i], last) { assert k[i] in init; }
        AppendGood(k, last);
      } else {
        assert k + [] == k;
      }
    }
  }

  lemma AppendGood(es: seq<Entry>, e: Entry)
    requires Good(es) && e.start < e.end && forall i :: 0 <= i < |es| ==> Compatible(es[i], e)
    ensures Good(es + [e])
  {
    hide Compatible;
    var es' := es + [e];
    assert es'[..|es'| - 1] == es && es'[|es'| - 1] == e;
  }

  ghost predicate AllGood(t: Table) { forall i :: i in t ==> Good(t[i]) }

  lemma StartGood(s: State, id: nat)
    requires AllGood(s.table) && id in s.calls
    ensures AllGood(StartStep(s, id).table)
  {
    hide Good, Keep;
    var c := s.calls[id];
    var es := List(s.table, c.ino);
    if c.ino in s.table {
      var (_, start, end) := Wanted(c.req);
      KeepGood(es, (e: Entry) => !(e.pid == c.pid && e.bsd));
      KeepGood(es, (e: Entry) => !(e.pid == c.pid && Overlap(e, start, end)));
    }
  }

  lemma UnblockedCompatible(es: seq<Entry>, e: Entry, rest: seq<Entry>)
    requires !Blocked(es, e.pid, e.ltype, e.start, e.end) && forall x :: x in rest ==> x in es
    requires !e.bsd ==> forall x :: x in rest ==> !(x.pid == e.pid && Overlap(x, e.start, e.end))
    ensures forall i :: 0 <= i < |rest| ==> Compatible(rest[i], e)
  {
    forall i | 0 <= i < |rest| ensures Compatible(rest[i], e) {
      assert rest[i] in rest && rest[i] in es;
      var k :| 0 <= k < |es| && es[k] == rest[i];
    }
  }

  lemma AcquireGood(s: State, id: nat)
    requires AllGood(s.table) && id in s.calls
    ensures AllGood(AcquireStep(s, id).table)
  {
    hide Keep, Good, Blocked, Conflicts, Overlap;
    var c := s.calls[id];
    var es := List(s.table, c.ino);
    var (ltype, start, end) := Wanted(c.req);
    GoodNone();
    if !Blocked(es, c.pid, ltype, start, end) {
      var rest := if c.req.FcntlReq? then DropOverlap(es, c.pid, start, end) else es;
      var e := Entry(c.pid, ltype, start, end, c.req.FlockReq?);
      if c.req.FcntlReq? { KeepGood(es, (x: Entry) => !(x.pid == c.pid && Overlap(x, start, end))); }
      UnblockedCompatible(es, e, rest);
      AppendGood(rest, e);
    }
  }

  lemma GoodNone()
    ensures Good([])
  {
  }

  /** Every step, of every call and every release, keeps the locks compatible. */
  lemma StepGood(s: State, a: Action)
    requires AllGood(s.table)
    ensures AllGood(Step(s, a).table)
  {
    hide Good, Keep, StartStep, AcquireStep, Count;
    match a
    case Begin(_, _, _, _) =>
    case Go(id) =>
      if id in s.calls {
        match s.calls[id].pc
        case Start => StartGood(s, id);
        case Limit =>
        case Acquire => AcquireGood(s, id);
        case Done(_) =>
      }
    case ReleaseAll(pid) =>
      forall i | i in s.table ensures Good(DropPid(s.table[i], pid)) { KeepGood(s.table[i], (e: Entry) => e.pid != pid); }
    case ReleaseBsd(pid, ino) =>
      if ino in s.table { KeepGood(s.table[ino], (e: Entry) => !(e.pid == pid && e.bsd)); }
  }

  lemma {:induction false} RunGood(limits: map<nat, nat>, actions: seq<Action>)
    ensures AllGood(Run(limits, actions).table)
    decreases |actions|
  {
    hide Step, Good;
    if actions != [] {
      RunGood(limits, actions[..|actions| - 1]);
      StepGood(Run(limits, actions[..|actions| - 1]), actions[|actions| - 1]);
    }
  }

  predicate Holds(e: Entry, b: nat) { e.start <= b < e.end }

  /** No byte that one process locks other than for reading is locked by any other process. */
  lemma MutualExclusion(limits: map<nat, nat>, actions: seq<Action>, ino: nat, i: nat, j: nat, b: nat)
    requires var t := Run(limits, actions).table; ino in t && i < |t[ino]| && j < |t[ino]|
    requires var es := Run(limits, actions).table[ino]; es[i].pid != es[j].pid && Holds(es[i], b) && Holds(es[j], b)
    ensures var es := Run(limits, actions).table[ino]; es[i].ltype == F_RDLCK && es[j].ltype == F_RDLCK
  {
    hide Run, Good;
    RunGood(limits, actions);
    var es := Run(limits, actions).table[ino];
    GoodPairs(es, Min(i, j), Max(i, j));
  }

  /** The record locks of one process on one inode never share a byte. */
  lemma RecordsDisjoint(limits: map<nat, nat>, actions: seq<Action>, ino: nat, i: nat, j: nat, b: nat)
    requires var t := Run(limits, actions).table; ino in t && i < j < |t[ino]|
    requires var es := Run(limits, actions).table[ino]; es[i].pid == es[j].pid && !es[i].bsd && !es[j].bsd
    ensures var es := Run(limits, actions).table[ino]; !(Holds(es[i], b) && Holds(es[j], b))
  {
    hide Run, Good;
    RunGood(limits, actions);
    GoodPairs(Run(limits, actions).table[ino], i, j);
  }

  // --- RLIMIT_LOCKS ---

  lemma {:induction false} KeepCount(es: seq<Entry>, f: Entry -> bool, pid: nat)
    ensures CountIn(Keep(es, f), pid) <= CountIn(es, pid)
    ensures CountIn(Keep(es, f), pid) == CountIn(es, pid) <==> forall e :: e in es && e.pid == pid ==> f(e)
    decreases |es|
  {
    if es != [] {
      var init, last := es[..|es| - 1], es[|es| - 1];
      KeepCount(init, f, pid);
      var k := Keep(init, f);
      assert es == init + [last];
      if f(last) { CountAppend(k, last, pid); } else { assert k + [] == k; }
    }
  }

  lemma CountAppend(es: seq<Entry>, e: Entry, pid: nat)
    ensures CountIn(es + [e], pid) == CountIn(es, pid) + if e.pid == pid then 1 else 0
  {
    assert (es + [e])[..|es|] == es;
  }

  lemma CountSet(t: Table, ino: nat, es: seq<Entry>, pid: nat)
    ensures Count(t[ino := es], pid) == Count(t, pid) - CountIn(List(t, ino), pid) + CountIn(es, pid)
  {
    SumUpdate(Counts(t, pid), ino, CountIn(es, pid));
    assert Counts(t[ino := es], pid) == Counts(t, pid)[ino := CountIn(es, pid)];
  }

  predicate Active(c: Call) { !c.pc.Done? }

  /** No process has two lock calls under way. */
  ghost predicate SingleFlight(s: State) {
    forall i, j :: i in s.calls && j in s.calls && i != j && Active(s.calls[i]) && Active(s.calls[j]) ==>
      s.calls[i].pid != s.calls[j].pid
  }

  predicate HasOverlap(es: seq<Entry>, pid: nat, start: nat, end: nat) {
    exists i :: 0 <= i < |es| && es[i].pid == pid && Overlap(es[i], start, end)
  }

  /** A call about to push one more lock has room for it, or will replace one. */
  ghost predicate Room(s: State, c: Call) {
    var l, w := LimitOf(s, c.pid), Wanted(c.req);
    l.Some? && c.pc == Acquire ==>
      Count(s.table, c.pid) < l.value || (c.req.FcntlReq? && HasOverlap(List(s.table, c.ino), c.pid, w.1, w.2))
  }

  ghost predicate Within(s: State, pid: nat) { LimitOf(s, pid).Some? ==> Count(s.table, pid) <= LimitOf(s, pid).value }

  ghost predicate LimitInv(s: State) {
    (forall pid: nat :: Within(s, pid)) && forall id :: id in s.calls ==> Room(s, s.calls[id])
  }

  /** Of one process's locks, some are gone, or all are still there and no more. */
  ghost predicate Lessens(t: Table, t': Table, pid: nat) {
    Count(t', pid) < Count(t, pid) ||
    (Count(t', pid) == Count(t, pid) && forall ino, e :: e in List(t, ino) && e.pid == pid ==> e in List(t', ino))
  }

  lemma KeepLessens(t: Table, ino: nat, f: Entry -> bool, pid: nat)
    ensures Lessens(t, t[ino := Keep(List(t, ino), f)], pid)
    ensures (exists e :: e in List(t, ino) && e.pid == pid && !f(e)) ==> Count(t[ino := Keep(List(t, ino), f)], pid) < Count(t, pid)
  {
    hide Keep, CountIn, Count;
    KeepCount(List(t, ino), f, pid);
    CountSet(t, ino, Keep(List(t, ino), f), pid);
  }

  lemma {:induction false} ReleaseLessens(t: Table, q: nat, pid: nat)
    ensures Lessens(t, ReleasePid(t, q), pid)
  {
    hide Keep, CountIn;
    var f := (e: Entry) => e.pid != q;
    var t' := ReleasePid(t, q);
    var m, m' := Counts(t, pid), Counts(t', pid);
    forall i | i in t ensures m'[i] <= m[i] { KeepCount(t[i], f, pid); }
    if ino :| ino in t && m'[ino] < m[ino] {
      SumAt(m, ino);
      SumAt(m', ino);
      SumMono(m - {ino}, m' - {ino});
    } else {
      assert m == m';
      forall ino, e | e in List(t, ino) && e.pid == pid ensures e in List(t', ino) { KeepCount(t[ino], f, pid); }
    }
  }

  /** Losing locks never takes away a call's room. */
  lemma RoomKept(s: State, s': State, c: Call)
    requires s'.limits == s.limits && Within(s, c.pid) && Room(s, c) && Lessens(s.table, s'.table, c.pid)
    ensures Within(s', c.pid) && Room(s', c)
  {
    hide Count, Wanted, Overlap;
    var w := Wanted(c.req);
    var es, es' := List(s.table, c.ino), List(s'.table, c.ino);
    if HasOverlap(es, c.pid, w.1, w.2) && Count(s'.table, c.pid) == Count(s.table, c.pid) {
      var i :| 0 <= i < |es| && es[i].pid == c.pid && Overlap(es[i], w.1, w.2);
      assert es[i] in es';
      var k :| 0 <= k < |es'| && es'[k] == es[i];
    }
  }

  /** A step that leaves or lessens every process's locks, and moves one call. */
  lemma LessensKeeps(s: State, s': State, id: nat)
    requires LimitInv(s) && s'.limits == s.limits && forall pid: nat :: Lessens(s.table, s'.table, pid)
    requires s'.calls.Keys == s.calls.Keys + {id} && forall o :: o in s.calls && o != id ==> s'.calls[o] == s.calls[o]
    requires Room(s', s'.calls[id])
    ensures LimitInv(s')
  {
    hide Room, Count;
    forall pid: nat ensures Within(s', pid) { assert Lessens(s.table, s'.table, pid); assert Within(s, pid); }
    forall o | o in s'.calls ensures Room(s', s'.calls[o]) {
      if o != id { RoomKept(s, s', s.calls[o]); }
    }
  }

  lemma SameTable(t: Table, pid: nat)
    ensures Lessens(t, t, pid)
  {
  }

  lemma StartLimit(s: State, id: nat)
    requires LimitInv(s) && id in s.calls && s.calls[id].pc.Start?
    ensures LimitInv(StartStep(s, id))
  {
    hide Count, Keep, Room, Within, Overlap, Wanted, HasOverlap, Lessens;
    var c, s' := s.calls[id], StartStep(s, id);
    var w := Wanted(c.req);
    var es := List(s.table, c.ino);
    var f, g := (e: Entry) => !(e.pid == c.pid && e.bsd), (e: Entry) => !(e.pid == c.pid && Overlap(e, w.1, w.2));
    forall pid: nat ensures Lessens(s.table, s'.table, pid) {
      SameTable(s.table, pid);
      KeepLessens(s.table, c.ino, f, pid);
      KeepLessens(s.table, c.ino, g, pid);
    }
    if s'.calls[id].pc == Acquire {
      if c.req.FlockReq? {
        var i :| 0 <= i < |es| && es[i].pid == c.pid && es[i].bsd;
        assert es[i] in es && !f(es[i]);
        KeepLessens(s.table, c.ino, f, c.pid);
        LessRoom(s, s', s'.calls[id]);
      } else {
        OverlapRoom(s', s'.calls[id]);
      }
    } else {
      NoRoomNeeded(s', s'.calls[id]);
    }
    LessensKeeps(s, s', id);
  }

  lemma LessRoom(s: State, s': State, c: Call)
    requires LimitInv(s) && s'.limits == s.limits && Count(s'.table, c.pid) < Count(s.table, c.pid)
    ensures Room(s', c)
  {
    assert Within(s, c.pid);
  }

  lemma OverlapRoom(s: State, c: Call)
    requires c.req.FcntlReq?
    requires var w, es := Wanted(c.req), List(s.table, c.ino);
      exists i :: 0 <= i < |es| && es[i].pid == c.pid && Overlap(es[i], w.1, w.2)
    ensures Room(s, c)
  {
  }

  lemma NoRoomNeeded(s: State, c: Call)
    requires c.pc != Acquire
    ensures Room(s, c)
  {
  }

  lemma LimitLimit(s: State, id: nat)
    requires LimitInv(s) && id in s.calls
    ensures LimitInv(LimitStep(s, id))
  {
    hide Count, Lessens, Within, Wanted, HasOverlap;
    var s' := LimitStep(s, id);
    forall pid: nat ensures Lessens(s.table, s'.table, pid) { SameTable(s.table, pid); }
    LessensKeeps(s, s', id);
  }

  /** The entries after a successful try: one more of this process, less those it replaces. */
  lemma AcquiredCount(s: State, id: nat, pid: nat)
    requires id in s.calls
    requires var c := s.calls[id]; var w := Wanted(c.req); !Blocked(List(s.table, c.ino), c.pid, w.0, w.1, w.2)
    ensures var c, t, t' := s.calls[id], s.table, AcquireStep(s, id).table; var w := Wanted(c.req);
      && (pid != c.pid ==> Lessens(t, t', pid))
      && (pid == c.pid ==> Count(t', pid) <= Count(t, pid) + 1)
      && (pid == c.pid && c.req.FcntlReq? && HasOverlap(List(t, c.ino), pid, w.1, w.2) ==> Count(t', pid) <= Count(t, pid))
  {
    hide Keep, Count, CountIn, Overlap, Wanted, Blocked;
    var c := s.calls[id];
    var w := Wanted(c.req);
    var es := List(s.table, c.ino);
    var f := (e: Entry) => !(e.pid == c.pid && Overlap(e, w.1, w.2));
    var rest := if c.req.FcntlReq? then DropOverlap(es, c.pid, w.1, w.2) else es;
    var e := Entry(c.pid, w.0, w.1, w.2, c.req.FlockReq?);
    CountSet(s.table, c.ino, rest + [e], pid);
    CountAppend(rest, e, pid);
    KeepCount(es, f, pid);
    if HasOverlap(es, pid, w.1, w.2) {
      var i :| 0 <= i < |es| && es[i].pid == pid && Overlap(es[i], w.1, w.2);
      assert es[i] in es;
    }
  }

  lemma AcquireLimit(s: State, id: nat)
    requires LimitInv(s) && SingleFlight(s) && id in s.calls && s.calls[id].pc == Acquire
    ensures LimitInv(AcquireStep(s, id))
  {
    hide Count, Lessens, Wanted, HasOverlap, Blocked, DropOverlap;
    var c, s' := s.calls[id], AcquireStep(s, id);
    var w := Wanted(c.req);
    var es := List(s.table, c.ino);
    if Blocked(es, c.pid, w.0, w.1, w.2) {
      forall pid: nat ensures Lessens(s.table, s'.table, pid) { TouchList(s.table, c.ino, pid); }
      RoomKept(s, s', c);
      LessensKeeps(s, s', id);
    } else {
      forall pid: nat ensures Within(s', pid) {
        AcquiredCount(s, id, pid);
        assert Within(s, pid) && Room(s, c);
        if pid != c.pid { WithinKept(s, s', pid); }
      }
      forall o | o in s'.calls ensures Room(s', s'.calls[o]) {
        if o != id && s.calls[o].pc == Acquire {
          assert s.calls[o].pid != c.pid;
          AcquiredCount(s, id, s.calls[o].pid);
          RoomKept(s, s', s.calls[o]);
        }
      }
    }
  }

  lemma WithinKept(s: State, s': State, pid: nat)
    requires s'.limits == s.limits && Within(s, pid) && Lessens(s.table, s'.table, pid)
    ensures Within(s', pid)
  {
  }

  lemma TouchList(t: Table, ino: nat, pid: nat)
    ensures Lessens(t, t[ino := List(t, ino)], pid)
  {
    hide Count;
    CountSet(t, ino, List(t, ino), pid);
  }

  lemma StepLimit(s: State, a: Action)
    requires LimitInv(s) && SingleFlight(s)
    ensures LimitInv(Step(s, a))
  {
    hide Count, Lessens, StartStep, LimitStep, AcquireStep, Keep, Room, Within;
    var s' := Step(s, a);
    match a
    case Begin(id, pid, ino, req) =>
      if id !in s.calls {
        forall p: nat ensures Lessens(s.table, s'.table, p) { SameTable(s.table, p); }
        NoRoomNeeded(s', s'.calls[id]);
        LessensKeeps(s, s', id);
      }
    case Go(id) =>
      if id in s.calls {
        match s.calls[id].pc
        case Start => StartLimit(s, id);
        case Limit => LimitLimit(s, id);
        case Acquire => AcquireLimit(s, id);
        case Done(_) =>
      }
    case ReleaseAll(pid) =>
      forall p: nat ensures Lessens(s.table, s'.table, p) { ReleaseLessens(s.table, pid, p); }
      AllKept(s, s');
    case ReleaseBsd(pid, ino) =>
      forall p: nat ensures Lessens(s.table, s'.table, p) {
        SameTable(s.table, p);
        KeepLessens(s.table, ino, (e: Entry) => !(e.pid == pid && e.bsd), p);
      }
      AllKept(s, s');
  }

  lemma AllKept(s: State, s': State)
    requires LimitInv(s) && s'.limits == s.limits && s'.calls == s.calls && forall pid: nat :: Lessens(s.table, s'.table, pid)
    ensures LimitInv(s')
  {
    hide Room, Count;
    forall pid: nat ensures Within(s', pid) { assert Lessens(s.table, s'.table, pid); assert Within(s, pid); }
    forall o | o in s'.calls ensures Room(s', s'.calls[o]) { RoomKept(s, s', s.calls[o]); }
  }

  /** With one lock call in flight per process, no process ever holds more locks than its RLIMIT_LOCKS. */
  lemma {:induction false} LimitHolds(limits: map<nat, nat>, actions: seq<Action>)
    requires forall n :: 0 <= n <= |actions| ==> SingleFlight(Run(limits, actions[..n]))
    ensures LimitInv(Run(limits, actions))
    decreases |actions|
  {
    hide Step, SingleFlight, Within;
    if actions == [] {
      forall pid: nat ensures Within(Run(limits, []), pid) { NoLocks(limits, pid); }
    } else {
      var init := actions[..|actions| - 1];
      forall n | 0 <= n <= |init| ensures SingleFlight(Run(limits, init[..n])) { assert init[..n] == actions[..n]; }
      LimitHolds(limits, init);
      assert init[..|init|] == init;
      StepLimit(Run(limits, init), actions[|actions| - 1]);
    }
  }

  lemma NoLocks(limits: map<nat, nat>, pid: nat)
    ensures Within(State(map[], map[], limits), pid)
  {
    assert Counts(map[], pid) == map[];
  }

  // --- what each call does to the locks ---

  /** The lists of all other inodes are as they were. */
  ghost predicate OnlyInode(t: Table, t': Table, ino: nat) { forall i :: i != ino ==> List(t', i) == List(t, i) }

  /** A try that is not blocked holds the lock it asked for, in place of the record locks it overlaps; a blocked one changes no lock. */
  lemma AcquireEffect(s: State, id: nat)
    requires id in s.calls && s.calls[id].pc == Acquire
    ensures var c, s', w := s.calls[id], AcquireStep(s, id), Wanted(s.calls[id].req);
      var es, es' := List(s.table, c.ino), List(s'.table, c.ino);
      var mine := Entry(c.pid, w.0, w.1, w.2, c.req.FlockReq?);
      && OnlyInode(s.table, s'.table, c.ino)
      && (Blocked(es, c.pid, w.0, w.1, w.2) ==> es' == es && s'.calls[id].pc == if Waits(c.req) then Acquire else Done(-11))
      && (!Blocked(es, c.pid, w.0, w.1, w.2) ==>
            && s'.calls[id].pc == Done(0) && mine in es'
            && forall e :: e != mine ==>
                 (e in es' <==> e in es && !(c.req.FcntlReq? && e.pid == c.pid && Overlap(e, w.1, w.2))))
  {
    hide Keep;
  }

  /** Unlocking drops this process's locks of that kind, and no others. */
  lemma UnlockEffect(s: State, id: nat)
    requires id in s.calls && s.calls[id].pc == Start
    requires var r := s.calls[id].req; if r.FlockReq? then Operation(r.operation) == 8 else r.cmd != F_GETLK && r.ltype == F_UNLCK
    ensures var c, s', w := s.calls[id], StartStep(s, id), Wanted(s.calls[id].req);
      && s'.calls[id].pc == Done(0) && OnlyInode(s.table, s'.table, c.ino)
      && forall e :: e in List(s'.table, c.ino) <==>
           e in List(s.table, c.ino) && !(e.pid == c.pid && if c.req.FlockReq? then e.bsd else Overlap(e, w.1, w.2))
  {
    hide Keep;
  }

  /** Releasing drops exactly the locks named, on exit on every inode, on close the flock locks of one. */
  lemma ReleaseEffect(s: State, pid: nat, ino: nat, i: nat, e: Entry)
    ensures e in List(Step(s, ReleaseAll(pid)).table, i) <==> e in List(s.table, i) && e.pid != pid
    ensures e in List(Step(s, ReleaseBsd(pid, ino)).table, i) <==> e in List(s.table, i) && !(i == ino && e.pid == pid && e.bsd)
  {
    hide Keep;
  }
}
