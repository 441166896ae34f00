/** The lock-free ring of one producer and one consumer, stepped through single loads, slot accesses and stores. */
module RingBuf {
  import opened Bytes
  import opened Bits
  import opened Counters

  const WORD: nat := 64

  /** Where the producer stands in `push`; `seen` is how many items were popped when it loaded the tail. */
  datatype Producer<T> =
    | PIdle
    | PHead(item: T, h: nat)
    | PBoth(item: T, h: nat, t: nat, seen: nat)
    | PStored(item: T, h: nat)

  /** Where the consumer stands in `pop`; `seen` is how many items were pushed when it loaded the head. */
  datatype Consumer<T> =
    | CIdle
    | CTail(t: nat)
    | CBoth(t: nat, h: nat, seen: nat)
    | CLoaded(t: nat, item: T)

  /** The shared words and slots, both sides, and the items pushed and popped so far. */
  datatype State<T> = State(k: nat, head: nat, tail: nat, slots: seq<T>, prod: Producer<T>, cons: Consumer<T>,
                            pushed: seq<T>, popped: seq<T>)
  {
    function Cap(): nat { Pow2(k) }
  }

  datatype Action<T> = BeginPush(item: T) | Produce | BeginPop | Consume

  predicate Full(s: State, h: nat, t: nat) { WrapSub(h, t, Pow2(WORD)) == s.Cap() }

  predicate Shaped(s: State) {
    s.k < WORD && |s.slots| == s.Cap() && s.head < Pow2(WORD) && s.tail < Pow2(WORD)
  }

  function SlotOf(s: State, c: nat): (i: nat)
    ensures i < s.Cap()
  {
    And(c, s.Cap() - 1)
  }

  function Produce'<T>(s: State<T>): (r: State<T>)
    requires Shaped(s)
    ensures Shaped(r)
  {
    match s.prod
    case PIdle => s
    case PHead(item, h) => s.(prod := PBoth(item, h, s.tail, |s.popped|))
    case PBoth(item, h, t, _) =>
      if Full(s, h, t) then s.(prod := PIdle) else s.(slots := s.slots[SlotOf(s, h) := item], prod := PStored(item, h))
    case PStored(item, h) => s.(head := WrapInc(h, Pow2(WORD)), pushed := s.pushed + [item], prod := PIdle)
  }

  function Consume'<T>(s: State<T>): (r: State<T>)
    requires Shaped(s)
    ensures Shaped(r)
  {
    match s.cons
    case CIdle => s
    case CTail(t) => s.(cons := CBoth(t, s.head, |s.pushed|))
    case CBoth(t, h, _) => if t == h then s.(cons := CIdle) else s.(cons := CLoaded(t, s.slots[SlotOf(s, t)]))
    case CLoaded(t, item) => s.(tail := WrapInc(t, Pow2(WORD)), popped := s.popped + [item], cons := CIdle)
  }

  function Step<T>(s: State<T>, a: Action<T>): (r: State<T>)
    requires Shaped(s)
    ensures Shaped(r)
  {
    match a
    case BeginPush(item) => if s.prod.PIdle? then s.(prod := PHead(item, s.head)) else s
    case Produce => Produce'(s)
    case BeginPop => if s.cons.CIdle? then s.(cons := CTail(s.tail)) else s
    case Consume => Consume'(s)
  }

  // --- what every state satisfies ---

  ghost predicate ProducerOk(s: State)
    requires Shaped(s)
  {
    match s.prod
    case PIdle => true
    case PHead(_, h) => h == s.head
    case PBoth(_, h, t, seen) =>
      h == s.head && t == seen % Pow2(WORD) && seen <= |s.popped| && |s.pushed| - seen <= s.Cap()
    case PStored(item, h) =>
      h == s.head && |s.pushed| - |s.popped| < s.Cap() && s.slots[|s.pushed| % s.Cap()] == item
  }

  ghost predicate ConsumerOk(s: State) {
    match s.cons
    case CIdle => true
    case CTail(t) => t == s.tail
    case CBoth(t, h, seen) => t == s.tail && h == seen % Pow2(WORD) && |s.popped| <= seen <= |s.pushed|
    case CLoaded(t, item) => t == s.tail && |s.popped| < |s.pushed| && item == s.pushed[|s.popped|]
  }

  /** Every item that is pushed and not yet popped is in the slot of its number. */
  ghost predicate Held(s: State)
    requires Shaped(s)
  {
    forall i :: |s.popped| <= i < |s.pushed| ==> s.slots[i % s.Cap()] == s.pushed[i]
  }

  ghost predicate Inv(s: State) {
    Shaped(s) && s.head == |s.pushed| % Pow2(WORD) && s.tail == |s.popped| % Pow2(WORD) &&
    s.popped <= s.pushed && |s.pushed| - |s.popped| <= s.Cap() && Held(s) && ProducerOk(s) && ConsumerOk(s)
  }

  lemma CapFits(s: State)
    requires Shaped(s)
    ensures s.Cap() < Pow2(WORD)
  {
    Pow2Mono(s.k + 1, WORD);
  }

  /** The full test is exact for the tail that the producer saw. */
  lemma FullExactly(s: State)
    requires Inv(s) && s.prod.PBoth?
    ensures Full(s, s.prod.h, s.prod.t) <==> |s.pushed| - s.prod.seen == s.Cap()
  {
    CapFits(s);
    WrapSubIs(|s.pushed|, s.prod.seen, Pow2(WORD));
  }

  /** The empty test is exact for the head that the consumer saw. */
  lemma EmptyExactly(s: State)
    requires Inv(s) && s.cons.CBoth?
    ensures s.cons.t == s.cons.h <==> |s.popped| == s.cons.seen
  {
    CapFits(s);
    WrapSame(s.cons.seen, |s.popped|, Pow2(WORD));
  }

  lemma StoreSlot<T>(s: State<T>)
    requires Inv(s) && s.prod.PBoth? && !Full(s, s.prod.h, s.prod.t)
    ensures Inv(Produce'(s))
  {
    hide Pow2;
    FullExactly(s);
    SlotIs(|s.pushed|, s.k, WORD);
    var s' := Produce'(s);
    var slot := |s.pushed| % s.Cap();
    forall i | |s.popped| <= i < |s.pushed| ensures s'.slots[i % s.Cap()] == s.pushed[i] {
      SlotsDiffer(i, |s.pushed|, s.Cap());
    }
  }

  lemma PublishHead<T>(s: State<T>)
    requires Inv(s) && s.prod.PStored?
    ensures Inv(Produce'(s))
  {
    hide Pow2;
    WrapIncIs(|s.pushed|, Pow2(WORD));
  }

  lemma LoadSlot<T>(s: State<T>)
    requires Inv(s) && s.cons.CBoth? && s.cons.t != s.cons.h
    ensures Inv(Consume'(s))
  {
    hide Pow2;
    EmptyExactly(s);
    SlotIs(|s.popped|, s.k, WORD);
  }

  lemma PublishTail<T>(s: State<T>)
    requires Inv(s) && s.cons.CLoaded?
    ensures Inv(Consume'(s))
  {
    hide Pow2;
    WrapIncIs(|s.popped|, Pow2(WORD));
    assert s.popped + [s.pushed[|s.popped|]] <= s.pushed;
  }

  lemma StepKeeps<T>(s: State<T>, a: Action<T>)
    requires Inv(s)
    ensures Inv(Step(s, a))
  {
    hide Pow2;
    match a
    case BeginPush(_) =>
    case BeginPop =>
    case Produce =>
      if s.prod.PBoth? && !Full(s, s.prod.h, s.prod.t) { StoreSlot(s); } else if s.prod.PStored? { PublishHead(s); }
    case Consume =>
      if s.cons.CBoth? && s.cons.t != s.cons.h { LoadSlot(s); } else if s.cons.CLoaded? { PublishTail(s); }
  }

  /** A fresh ring of 2^k slots, whatever the slots hold. */
  function Fresh<T>(k: nat, slots: seq<T>): (s: State<T>)
    requires k < WORD && |slots| == Pow2(k)
    ensures Inv(s)
  {
    State(k, 0, 0, slots, PIdle, CIdle, [], [])
  }

  /** The state after a run, whatever the interleaving: what is popped is a prefix of what is pushed. */
  function Run<T>(k: nat, slots: seq<T>, actions: seq<Action<T>>): (s: State<T>)
    requires k < WORD && |slots| == Pow2(k)
    ensures Inv(s) && s.popped <= s.pushed && |s.pushed| - |s.popped| <= Pow2(k) && s.k == k
  {
    if actions == [] then Fresh(k, slots)
    else
      var s := Run(k, slots, actions[..|actions| - 1]);
      StepKeeps(s, actions[|actions| - 1]);
      Step(s, actions[|actions| - 1])
  }

  /** The slot about to be written holds no item that is still to be popped, and is not the one about to be read. */
  lemma SlotsOwned(s: State)
    requires Inv(s) && s.prod.PBoth? && !Full(s, s.prod.h, s.prod.t)
    ensures forall i :: |s.popped| <= i < |s.pushed| ==> SlotOf(s, s.prod.h) != i % s.Cap()
    ensures s.cons.CBoth? && s.cons.t != s.cons.h ==> SlotOf(s, s.prod.h) != SlotOf(s, s.cons.t)
  {
    hide Pow2;
    FullExactly(s);
    SlotIs(|s.pushed|, s.k, WORD);
    forall i | |s.popped| <= i < |s.pushed| ensures SlotOf(s, s.prod.h) != i % s.Cap() {
      SlotsDiffer(i, |s.pushed|, s.Cap());
    }
    if s.cons.CBoth? && s.cons.t != s.cons.h {
      EmptyExactly(s);
      SlotIs(|s.popped|, s.k, WORD);
    }
  }

  /** Both histories have only grown. */
  ghost predicate Later(s: State, s': State) {
    s'.k == s.k && s.pushed <= s'.pushed && s.popped <= s'.popped
  }

  /** The state after more steps. */
  function Steps<T>(s: State<T>, actions: seq<Action<T>>): (r: State<T>)
    requires Inv(s)
    ensures Inv(r) && Later(s, r)
    decreases |actions|
  {
    if actions == [] then s
    else
      StepKeeps(s, actions[0]);
      StepLater(s, actions[0]);
      Steps(Step(s, actions[0]), actions[1..])
  }

  lemma StepLater<T>(s: State<T>, a: Action<T>)
    requires Inv(s)
    ensures Later(s, Step(s, a))
  {
    hide Inv;
    assert Shaped(s) by { InvShaped(s); }
  }

  lemma InvShaped(s: State)
    requires Inv(s)
    ensures Shaped(s)
  {
  }

  /**
   * `is_empty` loads the tail and then, any number of steps later, the head. Whoever calls it, a positive answer means that
   * the ring was empty at both loads; to the consumer, which alone moves the tail, the answer is exact at the second load.
   */
  lemma EmptyAnswer<T>(s: State<T>, actions: seq<Action<T>>)
    requires Inv(s)
    ensures var s' := Steps(s, actions);
      && (s.tail == s'.head && |s'.pushed| - |s.popped| < Pow2(WORD) ==> s.popped == s.pushed && s'.popped == s'.pushed)
      && (s'.popped == s.popped ==> (s.tail == s'.head <==> s'.popped == s'.pushed))
  {
    hide Pow2, Held, ProducerOk, ConsumerOk;
    var s' := Steps(s, actions);
    CapFits(s);
    if |s'.pushed| - |s.popped| < Pow2(WORD) { WrapSame(|s'.pushed|, |s.popped|, Pow2(WORD)); }
  }

  /**
   * `is_full` loads the head and then, any number of steps later, the tail. A positive answer means that the ring was full
   * at both loads; to the producer, which alone moves the head, the answer is exact at the second load.
   */
  lemma FullAnswer<T>(s: State<T>, actions: seq<Action<T>>)
    requires Inv(s)
    ensures var s' := Steps(s, actions);
      && (Full(s, s.head, s'.tail) && |s'.popped| - |s.pushed| < Pow2(WORD) - s.Cap() ==>
            |s.pushed| - |s.popped| == s.Cap() && |s'.pushed| - |s'.popped| == s.Cap())
      && (s'.pushed == s.pushed ==> (Full(s, s.head, s'.tail) <==> |s'.pushed| - |s'.popped| == s.Cap()))
  {
    hide Pow2, Held, ProducerOk, ConsumerOk;
    var s' := Steps(s, actions);
    var w := Pow2(WORD);
    CapFits(s);
    if |s'.popped| <= |s.pushed| {
      WrapSubIs(|s.pushed|, |s'.popped|, w);
    } else if |s'.popped| - |s.pushed| < w - s.Cap() {
      WrapBehind(|s.pushed|, |s'.popped|, w);
    }
  }

  lemma WrapBehind(a: nat, b: nat, w: nat)
    requires w > 0 && a < b < a + w
    ensures WrapSub(a % w, b % w, w) == w - (b - a)
  {
    hide WrapSub;
    WrapSubIs(a + w, b, w);
    WrapAround(a, w);
  }

  lemma WrapAround(a: nat, w: nat)
    requires w > 0
    ensures (a + w) % w == a % w
  {
    ModIs(a + w, w, a / w + 1, a % w);
  }

  /** A pop that saw an item delivers the oldest one still in the ring. */
  lemma PopDelivers<T>(s: State<T>)
    requires Inv(s) && s.cons.CBoth? && s.cons.seen > |s.popped|
    ensures var s' := Consume'(Consume'(s)); s'.popped == s.popped + [s.pushed[|s.popped|]] && s'.cons.CIdle?
  {
    hide Pow2;
    EmptyExactly(s);
    LoadSlot(s);
  }
}
