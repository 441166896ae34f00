/** Bitwise AND on unsigned integers, for masks and power-of-two tests. */
module Bits {
  import opened Bytes

  function And(a: nat, b: nat): (r: nat)
    ensures r <= a && r <= b
    decreases a
  {
    if a == 0 || b == 0 then 0
    else (if a % 2 == 1 && b % 2 == 1 then 1 else 0) + 2 * And(a / 2, b / 2)
  }

  /** Masking with a power of two less one takes the remainder. */
  lemma {:induction false} MaskIsRemainder(x: nat, k: nat)
    ensures And(x, Pow2(k) - 1) == x % Pow2(k)
    decreases k
  {
    hide And;
    if k == 0 {
      AndZero(x);
    } else {
      var p := Pow2(k - 1);
      MaskIsRemainder(x / 2, k - 1);
      AndOdd(x, p - 1);
      HalfRemainder(x, p);
    }
  }

  lemma AndZero(x: nat)
    ensures And(x, 0) == 0
  {
  }

  /** One step of the mask, for a mask whose lowest bit is set. */
  lemma AndOdd(x: nat, m: nat)
    ensures And(x, 2 * m + 1) == x % 2 + 2 * And(x / 2, m)
  {
    assert (2 * m + 1) % 2 == 1 && (2 * m + 1) / 2 == m;
  }

  lemma HalfRemainder(x: nat, p: nat)
    requires p > 0
    ensures x % (2 * p) == 2 * ((x / 2) % p) + x % 2
  {
    var q, r := (x / 2) / p, (x / 2) % p;
    assert x / 2 == p * q + r;
    assert x == (2 * p) * q + (2 * r + x % 2) by {
      assert x == 2 * (p * q + r) + x % 2;
      assert 2 * (p * q) == (2 * p) * q;
    }
    DivUnique(x, 2 * p, q, 2 * r + x % 2);
  }

  predicate IsPow2(n: nat) {
    n > 0 && (n == 1 || (n % 2 == 0 && IsPow2(n / 2)))
  }

  /** `n != 0 && n & (n - 1) == 0` holds of the powers of two and of nothing else. */
  lemma {:induction false} PowerOfTwoTest(n: nat)
    ensures n > 0 ==> (And(n, n - 1) == 0 <==> IsPow2(n))
    decreases n
  {
    if n > 1 {
      PowerOfTwoTest(n / 2);
      if n % 2 == 0 {
        assert (n - 1) / 2 == n / 2 - 1;
      } else {
        assert And(n / 2, n / 2) == n / 2 by { AndSelf(n / 2); }
        assert (n - 1) / 2 == n / 2;
      }
    }
  }

  lemma {:induction false} AndSelf(n: nat)
    ensures And(n, n) == n
  {
    if n > 0 { AndSelf(n / 2); }
  }

  lemma {:induction false} Pow2Exponent(n: nat) returns (k: nat)
    requires IsPow2(n)
    ensures n == Pow2(k)
  {
    if n == 1 {
      k := 0;
    } else {
      k := Pow2Exponent(n / 2);
      k := k + 1;
    }
  }
}
