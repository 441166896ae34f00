/** The completion ring: `post_cqe` against a user that only moves the head forward, at most to the tail. */
module IoUringCq {
  import opened Bytes
  import opened Bits
  import opened Counters
  import opened IoUring

  datatype Cqe = Cqe(userData: nat, res: int, flags: nat)

  /** Where `post_cqe` stands; `seen` is how many entries were consumed when it loaded the head. */
  datatype Poster =
    | Idle
    | Tail(cqe: Cqe, t: nat)
    | Both(cqe: Cqe, t: nat, h: nat, seen: nat)
    | Filling(cqe: Cqe, t: nat, fields: nat)

  /** The shared ring, and the entries posted and consumed so far. */
  datatype Cq = Cq(k: nat, head: nat, tail: nat, overflow: nat, cqes: seq<Cqe>, post: Poster, posted: seq<Cqe>, consumed: nat)

  datatype CqAction = BeginPost(cqe: Cqe) | Post | Advance(n: nat)

  predicate ShapedCq(s: Cq) {
    s.k < WORD && |s.cqes| == Pow2(s.k) && s.head < Pow2(WORD) && s.tail < Pow2(WORD)
  }

  /** The stores of `post_cqe` into its entry, one field at a time. */
  function PutField(old': Cqe, c: Cqe, field: nat): Cqe {
    if field == 0 then old'.(userData := c.userData) else if field == 1 then old'.(res := c.res) else old'.(flags := c.flags)
  }

  function PostStep(s: Cq): (r: Cq)
    requires ShapedCq(s)
    ensures ShapedCq(r)
  {
    match s.post
    case Idle => s
    case Tail(c, t) => s.(post := Both(c, t, s.head, s.consumed))
    case Both(c, t, h, _) =>
      if WrapSub(t, h, Pow2(WORD)) >= Pow2(s.k) then s.(overflow := s.overflow + 1, post := Idle)
      else s.(post := Filling(c, t, 0))
    case Filling(c, t, n) =>
      if n < 3 then
        var i := SlotOf(s.k, t);
        s.(cqes := s.cqes[i := PutField(s.cqes[i], c, n)], post := Filling(c, t, n + 1))
      else s.(tail := WrapInc(t, Pow2(WORD)), posted := s.posted + [c], post := Idle)
  }

  /** The user stores a head that is n entries further on, never past the tail. */
  function AdvanceStep(s: Cq, n: nat): (r: Cq)
    requires ShapedCq(s)
    ensures ShapedCq(r)
  {
    if n > WrapSub(s.tail, s.head, Pow2(WORD)) then s
    else s.(head := (s.head + n) % Pow2(WORD), consumed := s.consumed + n)
  }

  function CqStep(s: Cq, a: CqAction): (r: Cq)
    requires ShapedCq(s)
    ensures ShapedCq(r)
  {
    match a
    case BeginPost(c) => if s.post.Idle? then s.(post := Tail(c, s.tail)) else s
    case Post => PostStep(s)
    case Advance(n) => AdvanceStep(s, n)
  }

  ghost predicate PosterOk(s: Cq)
    requires ShapedCq(s)
  {
    match s.post
    case Idle => true
    case Tail(_, t) => t == s.tail
    case Both(_, t, h, seen) =>
      t == s.tail && h == seen % Pow2(WORD) && seen <= s.consumed && |s.posted| - seen <= Pow2(s.k)
    case Filling(c, t, n) =>
      var e := s.cqes[|s.posted| % Pow2(s.k)];
      t == s.tail && |s.posted| - s.consumed < Pow2(s.k) && n <= 3 &&
      (n > 0 ==> e.userData == c.userData) && (n > 1 ==> e.res == c.res) && (n > 2 ==> e.flags == c.flags)
  }

  /** Every posted entry that the user has not passed is intact. */
  ghost predicate Unread(s: Cq)
    requires ShapedCq(s)
  {
    forall i :: s.consumed <= i < |s.posted| ==> s.cqes[i % Pow2(s.k)] == s.posted[i]
  }

  ghost predicate CqInv(s: Cq) {
    ShapedCq(s) && s.tail == |s.posted| % Pow2(WORD) && s.head == s.consumed % Pow2(WORD) &&
    s.consumed <= |s.posted| <= s.consumed + Pow2(s.k) && Unread(s) && PosterOk(s)
  }

  lemma FieldKeeps(s: Cq)
    requires CqInv(s) && s.post.Filling? && s.post.fields < 3
    ensures CqInv(PostStep(s))
  {
    hide Pow2, And;
    SlotIs(|s.posted|, s.k, WORD);
    var s' := PostStep(s);
    forall i | s.consumed <= i < |s.posted| ensures s'.cqes[i % Pow2(s.k)] == s.posted[i] {
      SlotsDiffer(i, |s.posted|, Pow2(s.k));
    }
  }

  lemma PostKeeps(s: Cq)
    requires CqInv(s)
    ensures CqInv(PostStep(s))
  {
    hide Pow2, And;
    EntriesFit(s.k);
    if s.post.Both? {
      WrapSubIs(|s.posted|, s.post.seen, Pow2(WORD));
    } else if s.post.Filling? {
      if s.post.fields < 3 {
        FieldKeeps(s);
      } else {
        WrapIncIs(|s.posted|, Pow2(WORD));
      }
    }
  }

  /** `cq_available` is the number of entries posted and not consumed. */
  lemma AvailableIs(s: Cq)
    requires CqInv(s)
    ensures WrapSub(s.tail, s.head, Pow2(WORD)) == |s.posted| - s.consumed
  {
    EntriesFit(s.k);
    WrapSubIs(|s.posted|, s.consumed, Pow2(WORD));
  }

  lemma CqStepKeeps(s: Cq, a: CqAction)
    requires CqInv(s)
    ensures CqInv(CqStep(s, a))
  {
    hide Pow2, And, PostStep;
    match a
    case BeginPost(_) =>
    case Post => PostKeeps(s);
    case Advance(n) =>
      AvailableIs(s);
      WrapAdd(s.consumed, n, Pow2(WORD));
  }

  /** The state after a run: no unread completion is ever overwritten, and the ring never holds more than its entries. */
  function CqRun(k: nat, actions: seq<CqAction>): (s: Cq)
    requires k < WORD
    ensures CqInv(s) && s.k == k && Unread(s) && |s.posted| - s.consumed <= Pow2(k)
  {
    if actions == [] then Cq(k, 0, 0, 0, seq(Pow2(k), i => Cqe(0, 0, 0)), Idle, [], 0)
    else
      var s := CqRun(k, actions[..|actions| - 1]);
      CqStepKeeps(s, actions[|actions| - 1]);
      CqStep(s, actions[|actions| - 1])
  }

  /** A completion is refused exactly when the ring was full as the head was loaded. */
  lemma OverflowExactly(s: Cq)
    requires CqInv(s) && s.post.Both?
    ensures PostStep(s).overflow > s.overflow <==> |s.posted| - s.post.seen == Pow2(s.k)
  {
    EntriesFit(s.k);
    WrapSubIs(|s.posted|, s.post.seen, Pow2(WORD));
  }
}
