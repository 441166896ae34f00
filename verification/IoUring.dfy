/** The io_uring submission and completion rings: page layout, and both rings stepped access by access. */
module IoUring {
  import opened Bytes
  import opened Bits
  import opened Counters

  const WORD: nat := 32
  const PAGE_SIZE: nat := 4096
  const RING_HDR_SIZE: nat := 64
  const SQE_SIZE: nat := 64
  const CQE_SIZE: nat := 16
  const MAX_ENTRIES: nat := 4096

  // --- page layout ---

  /** `next_power_of_two`; from u32, where it wraps to 0 past the largest power. */
  function NextPow2From(n: nat, p: nat): (r: nat)
    requires IsPow2(p)
    ensures IsPow2(r) && p <= r && r >= n && (r == p || r < 2 * n)
    decreases n - p
  {
    if p >= n then p else NextPow2From(n, 2 * p)
  }

  function NextPow2(n: nat): nat { if n > 0x8000_0000 then 0 else NextPow2From(n, 1) }

  function Clamp(n: nat): nat { Max(1, Min(n, MAX_ENTRIES)) }

  /** `alloc_ring`: the number of entries, or EINVAL when the rings would not fit their pages. */
  function Entries(requested: nat): (e: Option<nat>)
    ensures e.Some? ==> e.value > 0
  {
    var n := Clamp(NextPow2(requested));
    if RING_HDR_SIZE + 4 * n + SQE_SIZE * n > PAGE_SIZE || RING_HDR_SIZE + CQE_SIZE * n > PAGE_SIZE then None else Some(n)
  }

  /** Where `sqe_array` starts in its page, rounded up to the entry size. */
  function SqeBase(entries: nat): (r: nat)
    ensures r >= RING_HDR_SIZE + 4 * entries
  {
    (RING_HDR_SIZE + 4 * entries + SQE_SIZE - 1) / SQE_SIZE * SQE_SIZE
  }

  /**
   * Every ring that is admitted fits: the index array ends before the entries begin, and both arrays stay in their
   * page, although the size test leaves out the rounding.
   */
  lemma LayoutFits(requested: nat)
    requires Entries(requested).Some?
    ensures var n := Entries(requested).value;
      IsPow2(n) && n <= 32 && SqeBase(n) % SQE_SIZE == 0 && SqeBase(n) + SQE_SIZE * n <= PAGE_SIZE &&
      RING_HDR_SIZE + CQE_SIZE * n <= PAGE_SIZE
  {
    var n := Entries(requested).value;
    assert IsPow2(n) by {
      assert IsPow2(1);
      if requested <= 0x8000_0000 {
        MaxEntriesIsPow2();
      }
    }
    SmallPow2(n);
  }

  lemma MaxEntriesIsPow2()
    ensures IsPow2(MAX_ENTRIES)
  {
    assert IsPow2(8) && IsPow2(16) && IsPow2(32);
    assert IsPow2(64) && IsPow2(128) && IsPow2(256);
    assert IsPow2(512) && IsPow2(1024) && IsPow2(2048);
  }

  lemma SmallPow2(n: nat)
    requires IsPow2(n) && n <= 59
    ensures n in {1, 2, 4, 8, 16, 32}
  {
    if n > 1 {
      assert IsPow2(n / 2);
      if n / 2 > 1 {
        assert IsPow2(n / 4);
        if n / 4 > 1 {
          assert IsPow2(n / 8);
          if n / 8 > 1 {
            assert IsPow2(n / 16);
            if n / 16 > 1 { assert IsPow2(n / 32); }
          }
        }
      }
    }
  }

  // --- the submission ring ---

  /** Where `push_sqe` stands; `seen` is how many entries were drained when it loaded the head. */
  datatype Pusher<T> =
    | PIdle
    | PTail(sqe: T, t: nat)
    | PBoth(sqe: T, t: nat, h: nat, seen: nat)
    | PEntry(sqe: T, t: nat)
    | PIndex(sqe: T, t: nat)

  /** Where `drain_sq` stands; `seen` is how many entries were pushed when it loaded the tail. */
  datatype Drainer<T> =
    | DIdle
    | DHead(h: nat)
    | DLoop(h: nat, t: nat, seen: nat, out: seq<T>)
    | DIndex(h: nat, t: nat, seen: nat, out: seq<T>, slot: nat)

  datatype Sq<T> = Sq(k: nat, head: nat, tail: nat, dropped: nat, index: seq<nat>, sqes: seq<T>, nop: T,
                      push: Pusher<T>, drain: Drainer<T>, pushed: seq<T>, drained: seq<T>)
  {
    function Entries(): nat { Pow2(k) }
  }

  datatype Action<T> = BeginPush(sqe: T) | Push | BeginDrain | Drain

  predicate Shaped(s: Sq) {
    s.k < WORD && |s.index| == |s.sqes| == s.Entries() && s.head < Pow2(WORD) && s.tail < Pow2(WORD) &&
    (s.drain.DLoop? || s.drain.DIndex? ==> s.drain.t < Pow2(WORD))
  }

  function SlotOf(k: nat, c: nat): (i: nat)
    ensures i < Pow2(k)
  {
    And(c, Pow2(k) - 1)
  }

  function PushStep<T>(s: Sq<T>): (r: Sq<T>)
    requires Shaped(s)
    ensures Shaped(r)
  {
    match s.push
    case PIdle => s
    case PTail(sqe, t) => s.(push := PBoth(sqe, t, s.head, |s.drained|))
    case PBoth(sqe, t, h, _) =>
      if WrapSub(t, h, Pow2(WORD)) >= s.Entries() then s.(dropped := s.dropped + 1, push := PIdle)
      else s.(sqes := s.sqes[SlotOf(s.k, t) := sqe], push := PEntry(sqe, t))
    case PEntry(sqe, t) => s.(index := s.index[SlotOf(s.k, t) := SlotOf(s.k, t)], push := PIndex(sqe, t))
    case PIndex(sqe, t) => s.(tail := WrapInc(t, Pow2(WORD)), pushed := s.pushed + [sqe], push := PIdle)
  }

  function DrainStep<T>(s: Sq<T>): (r: Sq<T>)
    requires Shaped(s)
    ensures Shaped(r)
  {
    match s.drain
    case DIdle => s
    case DHead(h) => s.(drain := DLoop(h, s.tail, |s.pushed|, []))
    case DLoop(h, t, seen, out) =>
      var count := WrapSub(t, h, Pow2(WORD));
      if count == 0 then s.(drain := DIdle)
      else if count > s.Entries() then s.(dropped := s.dropped + 1, head := t, drain := DIdle)
      else if |out| < count then
        s.(drain := DIndex(h, t, seen, out, s.index[SlotOf(s.k, (h + |out|) % Pow2(WORD))]))
      else s.(head := t, drained := s.drained + out, drain := DIdle)
    case DIndex(h, t, seen, out, slot) =>
      if slot < s.Entries() then s.(drain := DLoop(h, t, seen, out + [s.sqes[slot]]))
      else s.(dropped := s.dropped + 1, drain := DLoop(h, t, seen, out + [s.nop]))
  }

  ghost predicate PusherOk(s: Sq)
    requires Shaped(s)
  {
    var i := |s.pushed| % s.Entries();
    match s.push
    case PIdle => true
    case PTail(_, t) => t == s.tail
    case PBoth(_, t, h, seen) =>
      t == s.tail && h == seen % Pow2(WORD) && seen <= |s.drained| && |s.pushed| - seen <= s.Entries()
    case PEntry(sqe, t) => t == s.tail && |s.pushed| - |s.drained| < s.Entries() && s.sqes[i] == sqe
    case PIndex(sqe, t) => t == s.tail && |s.pushed| - |s.drained| < s.Entries() && s.sqes[i] == sqe && s.index[i] == i
  }

  ghost predicate Taking<T>(s: Sq<T>, h: nat, t: nat, seen: nat, out: seq<T>) {
    h == s.head && t == seen % Pow2(WORD) && |s.drained| + |out| <= seen <= |s.pushed| &&
    out == s.pushed[|s.drained|..|s.drained| + |out|]
  }

  ghost predicate DrainerOk(s: Sq) {
    match s.drain
    case DIdle => true
    case DHead(h) => h == s.head
    case DLoop(h, t, seen, out) => Taking(s, h, t, seen, out)
    case DIndex(h, t, seen, out, slot) =>
      Taking(s, h, t, seen, out) && |s.drained| + |out| < seen && slot == (|s.drained| + |out|) % s.Entries()
  }

  /** Every entry that is pushed and not yet drained is where its number says, and indexed. */
  ghost predicate Held(s: Sq)
    requires Shaped(s)
  {
    forall i :: |s.drained| <= i < |s.pushed| ==>
      s.sqes[i % s.Entries()] == s.pushed[i] && s.index[i % s.Entries()] == i % s.Entries()
  }

  ghost predicate Inv(s: Sq) {
    Shaped(s) && s.tail == |s.pushed| % Pow2(WORD) && s.head == |s.drained| % Pow2(WORD) &&
    s.drained <= s.pushed && |s.pushed| - |s.drained| <= s.Entries() && Held(s) && PusherOk(s) && DrainerOk(s)
  }

  function Step<T>(s: Sq<T>, a: Action<T>): (r: Sq<T>)
    requires Inv(s)
  {
    match a
    case BeginPush(sqe) => if s.push.PIdle? then s.(push := PTail(sqe, s.tail)) else s
    case Push => PushStep(s)
    case BeginDrain => if s.drain.DIdle? then s.(drain := DHead(s.head)) else s
    case Drain => DrainStep(s)
  }

  lemma EntriesFit(k: nat)
    requires k < WORD
    ensures Pow2(k) < Pow2(WORD)
  {
    Pow2Mono(k + 1, WORD);
  }

  lemma NextSlotFree(s: Sq, i: nat)
    requires Inv(s) && |s.pushed| - |s.drained| < s.Entries() && |s.drained| <= i < |s.pushed|
    ensures SlotOf(s.k, s.tail) == |s.pushed| % s.Entries() != i % s.Entries()
  {
    hide Held, PusherOk, DrainerOk, And, Pow2;
    SlotIs(|s.pushed|, s.k, WORD);
    SlotsDiffer(i, |s.pushed|, s.Entries());
  }

  /** `push_sqe` holds a loaded head that its overflow test accepts, or has passed that test and stored the entry. */
  predicate Storing(s: Sq)
    requires Shaped(s)
  {
    (s.push.PBoth? && WrapSub(s.push.t, s.push.h, Pow2(WORD)) < s.Entries()) || s.push.PEntry?
  }

  /** However old the loaded head is, a push that passes its overflow test overwrites no entry that is still to be drained. */
  lemma PushSlotFree<T>(s: Sq<T>, i: nat)
    requires Inv(s) && Storing(s) && |s.drained| <= i < |s.pushed|
    ensures SlotOf(s.k, s.push.t) != i % s.Entries()
    ensures PushStep(s).sqes[i % s.Entries()] == s.pushed[i] && PushStep(s).index[i % s.Entries()] == i % s.Entries()
  {
    hide Pow2, And;
    EntriesFit(s.k);
    if s.push.PBoth? { WrapSubIs(|s.pushed|, s.push.seen, Pow2(WORD)); }
    NextSlotFree(s, i);
  }

  lemma PushHolds<T>(s: Sq<T>)
    requires Inv(s) && Storing(s)
    ensures Held(PushStep(s))
  {
    hide Pow2, And, Held, PusherOk, DrainerOk, SlotOf;
    var s' := PushStep(s);
    assert s'.pushed == s.pushed && s'.drained == s.drained && s'.k == s.k;
    forall i | |s.drained| <= i < |s.pushed|
      ensures s'.sqes[i % s.Entries()] == s.pushed[i] && s'.index[i % s.Entries()] == i % s.Entries()
    {
      PushSlotFree(s, i);
    }
    MakeHeld(s');
  }

  lemma MakeHeld<T>(s: Sq<T>)
    requires Shaped(s)
    requires forall i :: |s.drained| <= i < |s.pushed| ==>
      s.sqes[i % s.Entries()] == s.pushed[i] && s.index[i % s.Entries()] == i % s.Entries()
    ensures Held(s)
  {
  }

  lemma PushRefusedKeeps<T>(s: Sq<T>)
    requires Inv(s) && s.push.PBoth? && !Storing(s)
    ensures Inv(PushStep(s))
  {
    hide Pow2, And, Held, SlotOf, WrapSub;
    SameHeld(s, PushStep(s));
  }

  lemma PushSqeKeeps<T>(s: Sq<T>)
    requires Inv(s) && s.push.PBoth? && Storing(s)
    ensures Inv(PushStep(s))
  {
    hide Pow2, And, Held, SlotOf;
    EntriesFit(s.k);
    WrapSubIs(|s.pushed|, s.push.seen, Pow2(WORD));
    SlotIs(|s.pushed|, s.k, WORD);
    SlotOfIs(s.k, s.tail);
    PushHolds(s);
  }

  lemma PushIndexKeeps<T>(s: Sq<T>)
    requires Inv(s) && s.push.PEntry?
    ensures Inv(PushStep(s))
  {
    hide Pow2, And, Held, SlotOf;
    SlotIs(|s.pushed|, s.k, WORD);
    SlotOfIs(s.k, s.tail);
    PushHolds(s);
  }

  lemma SlotOfIs(k: nat, c: nat)
    ensures SlotOf(k, c) == And(c, Pow2(k) - 1)
  {
  }

  lemma SameHeld<T>(s: Sq<T>, s': Sq<T>)
    requires Shaped(s) && Shaped(s') && Held(s) && s'.k == s.k && s'.sqes == s.sqes && s'.index == s.index
    requires s'.pushed == s.pushed && s'.drained == s.drained
    ensures Held(s')
  {
  }

  lemma PublishKeeps<T>(s: Sq<T>)
    requires Inv(s) && s.push.PIndex?
    ensures Inv(PushStep(s))
  {
    hide Pow2, And;
    EntriesFit(s.k);
    WrapIncIs(|s.pushed|, Pow2(WORD));
  }

  lemma PushKeeps<T>(s: Sq<T>)
    requires Inv(s)
    ensures Inv(PushStep(s))
  {
    hide Pow2, And;
    match s.push
    case PIdle =>
    case PTail(_, _) =>
    case PBoth(_, _, _, _) => if Storing(s) { PushSqeKeeps(s); } else { PushRefusedKeeps(s); }
    case PEntry(_, _) => PushIndexKeeps(s);
    case PIndex(_, _) => PublishKeeps(s);
  }

  lemma {:induction false} WrapAdd(a: nat, b: nat, w: nat)
    requires w > 0
    ensures (a % w + b) % w == (a + b) % w
    decreases b
  {
    var q, r := a / w, (a + b) % w;
    assert a == q * w + a % w;
    var q' := (a + b) / w;
    assert a + b == q' * w + r;
    assert (q' - q) * w == q' * w - q * w;
    DivUnique(a % w + b, w, q' - q, r);
  }

  lemma DrainLoopKeeps<T>(s: Sq<T>)
    requires Inv(s) && s.drain.DLoop? && |s.drained| + |s.drain.out| < s.drain.seen
    ensures Inv(DrainStep(s))
  {
    hide Pow2, And;
    EntriesFit(s.k);
    var next := |s.drained| + |s.drain.out|;
    WrapSubIs(s.drain.seen, |s.drained|, Pow2(WORD));
    WrapAdd(|s.drained|, |s.drain.out|, Pow2(WORD));
    SlotIs(next, s.k, WORD);
  }

  lemma DrainDoneKeeps<T>(s: Sq<T>)
    requires Inv(s) && s.drain.DLoop? && |s.drained| + |s.drain.out| == s.drain.seen
    ensures Inv(DrainStep(s))
  {
    hide Pow2, And;
    EntriesFit(s.k);
    WrapSubIs(s.drain.seen, |s.drained|, Pow2(WORD));
    assert s.drained + s.drain.out == s.pushed[..s.drain.seen];
  }

  lemma DrainEntryKeeps<T>(s: Sq<T>)
    requires Inv(s) && s.drain.DIndex?
    ensures Inv(DrainStep(s))
  {
    hide Pow2, And;
    var next := |s.drained| + |s.drain.out|;
    assert s.pushed[|s.drained|..next] + [s.pushed[next]] == s.pushed[|s.drained|..next + 1];
  }

  lemma DrainKeeps<T>(s: Sq<T>)
    requires Inv(s)
    ensures Inv(DrainStep(s))
  {
    hide Pow2, And;
    if s.drain.DLoop? {
      if |s.drained| + |s.drain.out| < s.drain.seen { DrainLoopKeeps(s); } else { DrainDoneKeeps(s); }
    } else if s.drain.DIndex? {
      DrainEntryKeeps(s);
    } else {
      assert s.pushed[|s.drained|..|s.drained|] == [];
    }
  }

  lemma StepKeeps<T>(s: Sq<T>, a: Action<T>)
    requires Inv(s)
    ensures Inv(Step(s, a))
  {
    hide Pow2, And, PushStep, DrainStep;
    match a
    case BeginPush(_) =>
    case BeginDrain =>
    case Push => PushKeeps(s);
    case Drain => DrainKeeps(s);
  }

  function Fresh<T>(k: nat, nop: T): (s: Sq<T>)
    requires k < WORD
    ensures Inv(s)
  {
    Sq(k, 0, 0, 0, seq(Pow2(k), i => 0), seq(Pow2(k), i => nop), nop, PIdle, DIdle, [], [])
  }

  /** The state after a run on a freshly zeroed page: drained entries are a prefix of the pushed ones. */
  function Run<T>(k: nat, nop: T, actions: seq<Action<T>>): (s: Sq<T>)
    requires k < WORD
    ensures Inv(s) && s.k == k && s.drained <= s.pushed && |s.pushed| - |s.drained| <= Pow2(k)
  {
    if actions == [] then Fresh(k, nop)
    else
      var s := Run(k, nop, actions[..|actions| - 1]);
      StepKeeps(s, actions[|actions| - 1]);
      Step(s, actions[|actions| - 1])
  }

  /** With `push_sqe` as the only producer, draining never takes its overrun branch and never meets a bad index. */
  lemma DrainNeverDrops(s: Sq)
    requires Inv(s)
    ensures DrainStep(s).dropped == s.dropped
  {
    hide Pow2, And;
    EntriesFit(s.k);
    match s.drain
    case DIdle =>
    case DHead(_) =>
    case DLoop(h, t, seen, out) => WrapSubIs(seen, |s.drained|, Pow2(WORD));
    case DIndex(_, _, _, _, _) =>
  }

  /** A drain that finishes takes every entry that was pushed when it loaded the tail. */
  lemma DrainTakesSeen(s: Sq)
    requires Inv(s) && s.drain.DLoop? && |s.drained| + |s.drain.out| == s.drain.seen && s.drain.seen > |s.drained|
    ensures DrainStep(s).drained == s.pushed[..s.drain.seen] && DrainStep(s).drain.DIdle?
  {
    hide Pow2, And;
    EntriesFit(s.k);
    WrapSubIs(s.drain.seen, |s.drained|, Pow2(WORD));
  }
}
