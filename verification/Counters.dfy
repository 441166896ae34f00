/** Free-running counters that wrap at a power of two, and the ring slots they select. */
module Counters {
  import opened Bytes
  import opened Bits

  /** `wrapping_sub` on counters below w. */
  function WrapSub(x: nat, y: nat, w: nat): (r: nat)
    requires w > 0
    ensures r < w
  {
    (x - y) % w
  }

  /** `wrapping_add(1)`. */
  function WrapInc(x: nat, w: nat): (r: nat)
    requires w > 0
    ensures r < w
  {
    (x + 1) % w
  }

  /** Wrapped counters still tell how far apart the counts are. */
  lemma WrapSubIs(a: nat, b: nat, w: nat)
    requires w > 0 && b <= a < b + w
    ensures WrapSub(a % w, b % w, w) == a - b
  {
    var qa, qb := a / w, b / w;
    assert a == qa * w + a % w && b == qb * w + b % w;
    assert (qb - qa) * w == qb * w - qa * w;
    DivUnique(a % w - b % w, w, qb - qa, a - b);
  }

  lemma WrapIncIs(a: nat, w: nat)
    requires w > 0
    ensures WrapInc(a % w, w) == (a + 1) % w
  {
    var q, r := a / w, (a % w + 1) % w;
    assert a == q * w + a % w;
    if a % w + 1 == w {
      assert (q + 1) * w == q * w + w;
      DivUnique(a + 1, w, q + 1, 0);
      DivUnique(a % w + 1, w, 1, 0);
    } else {
      DivUnique(a + 1, w, q, a % w + 1);
      DivUnique(a % w + 1, w, 0, a % w + 1);
    }
  }

  lemma WrapSame(a: nat, b: nat, w: nat)
    requires w > 0 && b <= a < b + w
    ensures a % w == b % w <==> a == b
  {
    WrapSubIs(a, b, w);
    if a % w == b % w { DivUnique(0, w, 0, 0); }
  }

  lemma {:induction false} RemRem(a: nat, k: nat, w: nat)
    requires k <= w
    ensures (a % Pow2(w)) % Pow2(k) == a % Pow2(k)
    decreases w - k
  {
    if k < w {
      RemRem(a, k + 1, w);
      var p := Pow2(k);
      var x := a % Pow2(w);
      HalveMod(x, p);
      HalveMod(a, p);
    } else {
      var p := Pow2(w);
      DivUnique(a % p, p, 0, a % p);
    }
  }

  lemma HalveMod(x: nat, p: nat)
    requires p > 0
    ensures x % p == (x % (2 * p)) % p
  {
    var q, r := x / (2 * p), x % (2 * p);
    assert x == q * (2 * p) + r;
    var q', r' := r / p, r % p;
    assert r == q' * p + r';
    assert x == (2 * q + q') * p + r' by { assert q * (2 * p) == (2 * q) * p; assert (2 * q + q') * p == (2 * q) * p + q' * p; }
    DivUnique(x, p, 2 * q + q', r');
  }

  /** Masking a wrapped counter selects the slot of the count itself. */
  lemma SlotIs(a: nat, k: nat, w: nat)
    requires k <= w
    ensures And(a % Pow2(w), Pow2(k) - 1) == a % Pow2(k)
  {
    MaskIsRemainder(a % Pow2(w), k);
    RemRem(a, k, w);
  }

  /** Counts less than one lap apart have different slots. */
  lemma SlotsDiffer(a: nat, b: nat, cap: nat)
    requires cap > 0 && a < b < a + cap
    ensures a % cap != b % cap
  {
    WrapSame(b, a, cap);
  }

  lemma {:induction false} Pow2Mono(k: nat, w: nat)
    requires k <= w
    ensures Pow2(k) <= Pow2(w)
    decreases w - k
  {
    if k < w { Pow2Mono(k + 1, w); }
  }
}
