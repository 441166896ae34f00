/** System V message queues: selection, accounting, and the order in which messages are received. */
module Msg {
  import opened Bytes

  const MSGMAX: nat := 8192
  const MSGMNB: nat := 16384
  const I64_MIN: int := -0x8000_0000_0000_0000

  datatype Message = Message(mtype: int, data: seq<byte>)

  datatype Queue = Queue(messages: seq<Message>, cbytes: nat, qnum: nat, qbytes: nat)

  /** One pass of a call under the queue's lock: it returns, or has to try again. */
  datatype Outcome = Sent | Received(m: Message) | Failed(errno: int) | Again

  // --- selection ---

  /** `-msgtyp`, which wraps for the least value. */
  function Negated(t: int): int { if t == I64_MIN then t else -t }

  predicate Eligible(m: Message, t: int) {
    t == 0 || (t > 0 && m.mtype == t) || (t < 0 && m.mtype <= Negated(t))
  }

  /** The message at i is the one to take: eligible, of the least type when several types are, and the first such. */
  ghost predicate Selected(ms: seq<Message>, t: int, i: nat) {
    i < |ms| && Eligible(ms[i], t) &&
    (forall j :: 0 <= j < |ms| && Eligible(ms[j], t) && t < 0 ==> ms[i].mtype <= ms[j].mtype) &&
    (forall j :: 0 <= j < i && Eligible(ms[j], t) ==> t < 0 && ms[i].mtype < ms[j].mtype)
  }

  lemma SelectedUnique(ms: seq<Message>, t: int, i: nat, j: nat)
    requires Selected(ms, t, i) && Selected(ms, t, j)
    ensures i == j
  {
  }

  /** `min_by_key` on the eligible messages. */
  function LeastFrom(ms: seq<Message>, t: int, k: nat, best: Option<nat>): (r: Option<nat>)
    requires k <= |ms| && t < 0 && (best.Some? ==> best.value < k && Selected(ms[..k], t, best.value))
    requires best.None? ==> forall j :: 0 <= j < k ==> !Eligible(ms[j], t)
    ensures r.Some? ==> Selected(ms, t, r.value)
    ensures r.None? ==> forall j :: 0 <= j < |ms| ==> !Eligible(ms[j], t)
    decreases |ms| - k
  {
    if k == |ms| then (assert ms[..k] == ms; best)
    else
      var better := Eligible(ms[k], t) && (best.None? || ms[k].mtype < ms[best.value].mtype);
      assert forall j :: 0 <= j < k ==> ms[..k + 1][j] == ms[..k][j] == ms[j];
      LeastFrom(ms, t, k + 1, if better then Some(k) else best)
  }

  function FirstFrom(ms: seq<Message>, t: int, k: nat): (r: Option<nat>)
    requires k <= |ms| && t >= 0 && forall j :: 0 <= j < k ==> !Eligible(ms[j], t)
    ensures r.Some? ==> Selected(ms, t, r.value)
    ensures r.None? ==> forall j :: 0 <= j < |ms| ==> !Eligible(ms[j], t)
    decreases |ms| - k
  {
    if k == |ms| then None else if Eligible(ms[k], t) then Some(k) else FirstFrom(ms, t, k + 1)
  }

  /** The message that `msgrcv` takes. */
  function Select(ms: seq<Message>, t: int): (r: Option<nat>)
    ensures r.Some? ==> Selected(ms, t, r.value)
    ensures r.None? <==> forall j :: 0 <= j < |ms| ==> !Eligible(ms[j], t)
  {
    if t >= 0 then FirstFrom(ms, t, 0) else LeastFrom(ms, t, 0, None)
  }

  // --- the calls ---

  function Without(ms: seq<Message>, i: nat): seq<Message>
    requires i < |ms|
  {
    ms[..i] + ms[i + 1..]
  }

  function Send(q: Queue, allowed: bool, mtype: int, data: seq<byte>, nowait: bool): (Queue, Outcome) {
    if mtype <= 0 then (q, Failed(-22))
    else if |data| > MSGMAX then (q, Failed(-90))
    else if !allowed then (q, Failed(-13))
    else if q.cbytes + |data| > q.qbytes then (q, if nowait then Failed(-11) else Again)
    else (Queue(q.messages + [Message(mtype, data)], q.cbytes + |data|, q.qnum + 1, q.qbytes), Sent)
  }

  function Receive(q: Queue, allowed: bool, size: nat, t: int, nowait: bool): (Queue, Outcome) {
    if !allowed then (q, Failed(-13))
    else
      var i := Select(q.messages, t);
      if i.None? then (q, if nowait then Failed(-11) else Again)
      else
        var m := q.messages[i.value];
        if |m.data| > size then (q, Failed(-90))
        else
          (Queue(Without(q.messages, i.value), SaturatingSub(q.cbytes, |m.data|), SaturatingSub(q.qnum, 1), q.qbytes), Received(m))
  }

  // --- accounting ---

  function Bytes'(ms: seq<Message>): nat { if ms == [] then 0 else Bytes'(ms[..|ms| - 1]) + |ms[|ms| - 1].data| }

  /** The counters are the real totals, and the bytes are within the limit. */
  ghost predicate Counted(q: Queue) {
    q.cbytes == Bytes'(q.messages) && q.qnum == |q.messages| && q.cbytes <= q.qbytes
  }

  lemma {:induction false} BytesConcat(a: seq<Message>, b: seq<Message>)
    ensures Bytes'(a + b) == Bytes'(a) + Bytes'(b)
    decreases |b|
  {
    if b == [] {
      assert a + b == a;
    } else {
      assert (a + b)[..|a + b| - 1] == a + b[..|b| - 1];
      BytesConcat(a, b[..|b| - 1]);
    }
  }

  lemma BytesWithout(ms: seq<Message>, i: nat)
    requires i < |ms|
    ensures Bytes'(ms) == Bytes'(Without(ms, i)) + |ms[i].data|
  {
    assert ms == ms[..i] + ([ms[i]] + ms[i + 1..]);
    BytesConcat(ms[..i], [ms[i]] + ms[i + 1..]);
    BytesConcat([ms[i]], ms[i + 1..]);
    BytesConcat(ms[..i], ms[i + 1..]);
    assert [ms[i]][..0] == [];
  }

  lemma SendCounted(q: Queue, allowed: bool, mtype: int, data: seq<byte>, nowait: bool)
    requires Counted(q)
    ensures Counted(Send(q, allowed, mtype, data, nowait).0)
  {
    var ms := q.messages + [Message(mtype, data)];
    assert ms[..|ms| - 1] == q.messages;
  }

  /** Receiving keeps the totals exact; neither subtraction saturates. */
  lemma ReceiveCounted(q: Queue, allowed: bool, size: nat, t: int, nowait: bool)
    requires Counted(q)
    ensures var (q', r) := Receive(q, allowed, size, t, nowait);
      Counted(q') && (r.Received? ==> q.cbytes == q'.cbytes + |r.m.data| && q.qnum == q'.qnum + 1) &&
      (!r.Received? ==> q' == q)
  {
    hide Select;
    var i := Select(q.messages, t);
    if i.Some? { BytesWithout(q.messages, i.value); }
  }

  // --- order ---

  /** The messages of one type, in order. */
  function OfType(ms: seq<Message>, t: int): seq<Message> {
    if ms == [] then [] else OfType(ms[..|ms| - 1], t) + if ms[|ms| - 1].mtype == t then [ms[|ms| - 1]] else []
  }

  lemma {:induction false} OfTypeConcat(a: seq<Message>, b: seq<Message>, t: int)
    ensures OfType(a + b, t) == OfType(a, t) + OfType(b, t)
    decreases |b|
  {
    if b == [] {
      assert a + b == a;
    } else {
      assert (a + b)[..|a + b| - 1] == a + b[..|b| - 1];
      OfTypeConcat(a, b[..|b| - 1], t);
    }
  }

  lemma {:induction false} OfTypeNone(ms: seq<Message>, t: int)
    requires forall i :: 0 <= i < |ms| ==> ms[i].mtype != t
    ensures OfType(ms, t) == []
    decreases |ms|
  {
    if ms != [] { OfTypeNone(ms[..|ms| - 1], t); }
  }

  lemma OfTypeOne(m: Message, t: int)
    ensures OfType([m], t) == if m.mtype == t then [m] else []
  {
    assert [m][..0] == [];
  }

  /** Whatever the selector, the message taken is the earliest of its own type. */
  lemma EarliestOfType(ms: seq<Message>, sel: int, i: nat, t: int)
    requires Selected(ms, sel, i)
    ensures OfType(ms, t) == (if ms[i].mtype == t then [ms[i]] else []) + OfType(Without(ms, i), t)
  {
    hide OfType;
    var a, b := ms[..i], ms[i + 1..];
    assert ms == a + ([ms[i]] + b);
    OfTypeConcat(a, [ms[i]] + b, t);
    OfTypeConcat([ms[i]], b, t);
    OfTypeConcat(a, b, t);
    OfTypeOne(ms[i], t);
    if ms[i].mtype == t { OfTypeNone(a, t); }
  }

  /** A queue with everything that was sent to it and received from it. */
  datatype State = State(q: Queue, sent: seq<Message>, received: seq<Message>)

  datatype Action =
    | DoSend(allowed: bool, mtype: int, data: seq<byte>, nowait: bool)
    | DoReceive(allowed: bool, size: nat, t: int, nowait: bool)

  function Step(s: State, a: Action): State {
    match a
    case DoSend(allowed, mtype, data, nowait) =>
      var (q', r) := Send(s.q, allowed, mtype, data, nowait);
      State(q', if r.Sent? then s.sent + [Message(mtype, data)] else s.sent, s.received)
    case DoReceive(allowed, size, t, nowait) =>
      var (q', r) := Receive(s.q, allowed, size, t, nowait);
      State(q', s.sent, if r.Received? then s.received + [r.m] else s.received)
  }

  /** Of each type, what was received and then what is queued is what was sent, in order. */
  ghost predicate InOrder(s: State) {
    forall t: int :: OfType(s.sent, t) == OfType(s.received, t) + OfType(s.q.messages, t)
  }

  lemma StepKeeps(s: State, a: Action)
    requires InOrder(s) && Counted(s.q)
    ensures InOrder(Step(s, a)) && Counted(Step(s, a).q)
  {
    hide OfType, Select, Bytes';
    var s' := Step(s, a);
    match a
    case DoSend(allowed, mtype, data, nowait) =>
      SendCounted(s.q, allowed, mtype, data, nowait);
      var m := Message(mtype, data);
      forall t: int ensures OfType(s'.sent, t) == OfType(s'.received, t) + OfType(s'.q.messages, t) {
        OfTypeConcat(s.sent, [m], t);
        OfTypeConcat(s.q.messages, [m], t);
      }
    case DoReceive(allowed, size, sel, nowait) =>
      ReceiveCounted(s.q, allowed, size, sel, nowait);
      var r := Receive(s.q, allowed, size, sel, nowait).1;
      if r.Received? {
        var i := Select(s.q.messages, sel).value;
        forall t: int ensures OfType(s'.sent, t) == OfType(s'.received, t) + OfType(s'.q.messages, t) {
          EarliestOfType(s.q.messages, sel, i, t);
          OfTypeConcat(s.received, [r.m], t);
          OfTypeOne(r.m, t);
        }
      }
  }

  /** The state after a run, whatever the mix of selectors, refusals and retries. */
  function Run(qbytes: nat, actions: seq<Action>): (s: State)
    ensures InOrder(s) && Counted(s.q)
  {
    if actions == [] then State(Queue([], 0, 0, qbytes), [], [])
    else
      var s := Run(qbytes, actions[..|actions| - 1]);
      StepKeeps(s, actions[|actions| - 1]);
      Step(s, actions[|actions| - 1])
  }

  /** The messages received of each type are a prefix of those sent of that type. */
  lemma ReceivedPrefix(qbytes: nat, actions: seq<Action>, t: int)
    ensures OfType(Run(qbytes, actions).received, t) <= OfType(Run(qbytes, actions).sent, t)
  {
    hide OfType;
    var s := Run(qbytes, actions);
    assert OfType(s.sent, t) == OfType(s.received, t) + OfType(s.q.messages, t);
  }

  // --- the queue as it is kept ---

  class MsgQueue {
    var messages: seq<Message>
    var cbytes: nat
    var qnum: nat
    const qbytes: nat

    function V(): Queue
      reads this
    {
      Queue(messages, cbytes, qnum, qbytes)
    }

    ghost predicate Valid()
      reads this
    {
      Counted(V())
    }

    constructor ()
      ensures Valid() && V() == Queue([], 0, 0, MSGMNB)
    {
      messages, cbytes, qnum, qbytes := [], 0, 0, MSGMNB;
    }

    /** One pass of `msgsnd`. */
    method TrySend(allowed: bool, mtype: int, data: seq<byte>, nowait: bool) returns (r: Outcome)
      requires Valid()
      modifies this
      ensures Valid() && Send(old(V()), allowed, mtype, data, nowait) == (V(), r)
    {
      SendCounted(V(), allowed, mtype, data, nowait);
      if mtype <= 0 {
        return Failed(-22);
      }
      if |data| > MSGMAX {
        return Failed(-90);
      }
      if !allowed {
        return Failed(-13);
      }
      if cbytes + |data| > qbytes {
        return if nowait then Failed(-11) else Again;
      }
      cbytes := cbytes + |data|;
      qnum := qnum + 1;
      messages := messages + [Message(mtype, data)];
      r := Sent;
    }

    /** The search of `msgrcv`. */
    method FindIndex(t: int) returns (r: Option<nat>)
      ensures r == Select(messages, t)
    {
      r := None;
      if t >= 0 {
        for i := 0 to |messages|
          invariant forall j :: 0 <= j < i ==> !Eligible(messages[j], t)
        {
          if Eligible(messages[i], t) {
            SelectedUnique(messages, t, i, Select(messages, t).value);
            return Some(i);
          }
        }
      } else {
        for i := 0 to |messages|
          invariant r.Some? ==> r.value < i && Selected(messages[..i], t, r.value)
          invariant r.None? ==> forall j :: 0 <= j < i ==> !Eligible(messages[j], t)
        {
          assert forall j :: 0 <= j < i ==> messages[..i + 1][j] == messages[..i][j] == messages[j];
          if Eligible(messages[i], t) && (r.None? || messages[i].mtype < messages[r.value].mtype) {
            r := Some(i);
          }
        }
        assert messages[..|messages|] == messages;
        if r.Some? { SelectedUnique(messages, t, r.value, Select(messages, t).value); }
      }
    }

    /** One pass of `msgrcv`: a message that is too long goes back where it was. */
    method TryReceive(allowed: bool, size: nat, t: int, nowait: bool) returns (r: Outcome)
      requires Valid()
      modifies this
      ensures Valid() && Receive(old(V()), allowed, size, t, nowait) == (V(), r)
    {
      hide Select, Bytes';
      ReceiveCounted(V(), allowed, size, t, nowait);
      if !allowed {
        return Failed(-13);
      }
      var i := FindIndex(t);
      if i.None? {
        return if nowait then Failed(-11) else Again;
      }
      var m := messages[i.value];
      messages := Without(messages, i.value);
      if |m.data| > size {
        messages := messages[..i.value] + [m] + messages[i.value..];
        assert messages == old(messages);
        return Failed(-90);
      }
      cbytes := SaturatingSub(cbytes, |m.data|);
      qnum := SaturatingSub(qnum, 1);
      r := Received(m);
    }
  }
}
