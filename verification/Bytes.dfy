/** Bytes, fixed-width integers and bit masks, as the drivers read and write them. */
module Bytes {

  type byte = x: int | 0 <= x < 256

  datatype Option<+T> = None | Some(value: T)

  datatype Result<+T, +E> = Ok(value: T) | Err(error: E)

  function Pow2(k: nat): (r: nat)
    ensures r > 0
  {
    if k == 0 then 1 else 2 * Pow2(k - 1)
  }

  function Pow256(k: nat): (r: nat)
    ensures r > 0
  {
    if k == 0 then 1 else 256 * Pow256(k - 1)
  }

  /** The k low-order bytes of n, least significant first. */
  function Le(n: nat, k: nat): (s: seq<byte>)
    ensures |s| == k
  {
    if k == 0 then [] else [n % 256] + Le(n / 256, k - 1)
  }

  /** The number that s spells, least significant byte first. */
  function FromLe(s: seq<byte>): (n: nat)
    ensures n < Pow256(|s|)
  {
    if s == [] then 0 else s[0] + 256 * FromLe(s[1..])
  }

  lemma {:induction false} LeRoundTrip(n: nat, k: nat)
    requires n < Pow256(k)
    ensures FromLe(Le(n, k)) == n
  {
    if k > 0 {
      LeRoundTrip(n / 256, k - 1);
      assert Le(n, k)[1..] == Le(n / 256, k - 1);
    }
  }

  lemma ModIs(n: nat, m: nat, a: nat, r: nat)
    requires n == m * a + r && r < m
    ensures n % m == r
  {
    var d := n / m - a;
    assert m * d == r - n % m;
    assert d >= 1 ==> m * d >= m;
    assert d <= -1 ==> m * d <= -1 * m;
  }

  lemma DigitMod(n: nat, m: nat)
    requires m > 0
    ensures n % 256 + 256 * (n / 256 % m) == n % (256 * m)
  {
    var q := n / 256;
    var a, b := q / m, q % m;
    assert q == m * a + b;
    assert n == (256 * m) * a + (256 * b + n % 256);
    ModIs(n, 256 * m, a, 256 * b + n % 256);
  }

  /** Storing a number in k bytes keeps its low k bytes. */
  lemma {:induction false} LeTruncates(n: nat, k: nat)
    ensures FromLe(Le(n, k)) == n % Pow256(k)
  {
    if k > 0 {
      LeTruncates(n / 256, k - 1);
      DigitMod(n, Pow256(k - 1));
      assert Le(n, k)[1..] == Le(n / 256, k - 1);
    }
  }

  lemma {:induction false} FromLeRoundTrip(s: seq<byte>)
    ensures Le(FromLe(s), |s|) == s
  {
    hide Pow256;
    if s != [] {
      FromLeRoundTrip(s[1..]);
      LowByte(s[0], FromLe(s[1..]));
      assert s == [s[0]] + s[1..];
    }
  }

  lemma LowByte(b: byte, m: nat)
    ensures (b + 256 * m) % 256 == b && (b + 256 * m) / 256 == m
  {
  }

  lemma Pow256Values()
    ensures Pow256(2) == 0x1_0000
    ensures Pow256(4) == 0x1_0000_0000
    ensures Pow256(8) == 0x1_0000_0000_0000_0000
  {
    assert Pow256(1) == 256;
    assert Pow256(2) == 256 * Pow256(1);
    assert Pow256(3) == 256 * Pow256(2);
    assert Pow256(4) == 256 * Pow256(3);
    assert Pow256(5) == 256 * Pow256(4);
    assert Pow256(6) == 256 * Pow256(5);
    assert Pow256(7) == 256 * Pow256(6);
    assert Pow256(8) == 256 * Pow256(7);
  }

  /** The number that s spells, most significant byte first. */
  function FromBe(s: seq<byte>): (n: nat)
    ensures n < Pow256(|s|)
  {
    if s == [] then 0 else 256 * FromBe(s[..|s| - 1]) + s[|s| - 1]
  }

  function Zeros(n: nat): (s: seq<byte>)
    ensures |s| == n
    ensures forall i :: 0 <= i < n ==> s[i] == 0
  {
    seq(n, i => 0)
  }

  function Min(a: int, b: int): int { if a < b then a else b }

  function Max(a: int, b: int): int { if a < b then b else a }

  function DivCeil(a: nat, b: nat): (r: nat)
    requires b > 0
  {
    (a + b - 1) / b
  }

  function Quot(a: nat, b: nat): nat
    requires b > 0
  {
    a / b
  }

  function Rem(a: nat, b: nat): (r: nat)
    requires b > 0
    ensures r < b
  {
    a % b
  }

  /** s with the bytes at off..off+|d| replaced by d. */
  function Splice(s: seq<byte>, off: nat, d: seq<byte>): (r: seq<byte>)
    requires off + |d| <= |s|
    ensures |r| == |s|
    ensures forall i :: 0 <= i < |s| ==> r[i] == if off <= i < off + |d| then d[i - off] else s[i]
  {
    s[..off] + d + s[off + |d|..]
  }

  lemma SpliceLeft(a: seq<byte>, f: seq<byte>, off: nat, x: seq<byte>)
    requires off + |x| <= |a|
    ensures Splice(a + f, off, x) == Splice(a, off, x) + f
  {
  }

  lemma SpliceRight(a: seq<byte>, f: seq<byte>, off: nat, x: seq<byte>)
    requires off + |x| <= |f|
    ensures Splice(a + f, |a| + off, x) == a + Splice(f, off, x)
  {
  }

  // --- bits ---

  /** Bit k of x: `x & (1 << k) != 0`. */
  predicate Bit(x: nat, k: nat)
  {
    if k == 0 then x % 2 == 1 else Bit(x / 2, k - 1)
  }

  /** x with bit k set or cleared: `x |= 1 << k` and `x &= !(1 << k)`. */
  function PutBit(x: nat, k: nat, on: bool): (r: nat)
    decreases k
  {
    if k == 0 then
      x / 2 * 2 + (if on then 1 else 0)
    else
      2 * PutBit(x / 2, k - 1, on) + x % 2
  }

  lemma {:induction false} PutBitAt(x: nat, k: nat, on: bool, j: nat)
    ensures Bit(PutBit(x, k, on), j) == if j == k then on else Bit(x, j)
    decreases k
  {
    var r := PutBit(x, k, on);
    if k > 0 {
      assert r / 2 == PutBit(x / 2, k - 1, on) && r % 2 == x % 2;
      if j > 0 {
        PutBitAt(x / 2, k - 1, on, j - 1);
      }
    } else {
      assert r / 2 == x / 2;
    }
  }

  lemma MulMono(a: int, b: int, d: nat)
    ensures a <= b ==> a * d <= b * d
  {
  }

  lemma DivUnique(x: int, d: nat, q: int, r: nat)
    requires r < d && x == q * d + r
    ensures x / d == q && x % d == r
  {
    var q' := x / d;
    MulMono(q' + 1, q, d);
    MulMono(q + 1, q', d);
  }

  lemma QuotRemSub(a: nat, b: nat)
    requires 0 < b <= a
    ensures Quot(a, b) == Quot(a - b, b) + 1 && Rem(a, b) == Rem(a - b, b)
  {
    var q, r := (a - b) / b, (a - b) % b;
    assert a == (q + 1) * b + r by { assert (q + 1) * b == q * b + b; }
    DivUnique(a, b, q + 1, r);
  }

  lemma QuotRemSmall(a: nat, b: nat)
    requires a < b
    ensures Quot(a, b) == 0 && Rem(a, b) == a
  {
    DivUnique(a, b, 0, a);
  }

  /** PutBit on a byte gives a byte. */
  function PutByteBit(x: byte, k: nat, on: bool): (r: byte)
    requires k < 8
    ensures forall j: nat :: Bit(r, j) == if j == k then on else Bit(x, j)
  {
    var r := PutBit(x, k, on);
    PutBitBelow(x, k, on, 8);
    Pow2Eight();
    PutBitBits(x, k, on);
    r
  }

  lemma PutBitBits(x: nat, k: nat, on: bool)
    ensures forall j: nat :: Bit(PutBit(x, k, on), j) == if j == k then on else Bit(x, j)
  {
    forall j: nat ensures Bit(PutBit(x, k, on), j) == if j == k then on else Bit(x, j) {
      PutBitAt(x, k, on, j);
    }
  }

  lemma Pow2Eight()
    ensures Pow2(8) == 256
  {
    assert Pow2(4) == 2 * 2 * Pow2(2);
    assert Pow2(8) == 2 * 2 * 2 * Pow2(5);
    assert Pow2(5) == 2 * Pow2(4);
  }

  lemma {:induction false} PutBitBelow(x: nat, k: nat, on: bool, n: nat)
    requires k < n && x < Pow2(n)
    ensures PutBit(x, k, on) < Pow2(n)
    decreases k
  {
    if k > 0 {
      PutBitBelow(x / 2, k - 1, on, n - 1);
    }
  }

  /** A number below 2^n is determined by its n low bits. */
  lemma {:induction false} BitsDetermine(x: nat, y: nat, n: nat)
    requires x < Pow2(n) && y < Pow2(n)
    requires forall j: nat :: j < n ==> Bit(x, j) == Bit(y, j)
    ensures x == y
  {
    if n > 0 {
      assert Bit(x, 0) == Bit(y, 0);
      forall j: nat | j < n - 1 ensures Bit(x / 2, j) == Bit(y / 2, j) {
        assert Bit(x, j + 1) == Bit(y, j + 1);
      }
      BitsDetermine(x / 2, y / 2, n - 1);
    }
  }

  function SaturatingSub(a: nat, b: nat): nat { if a < b then 0 else a - b }

  /** `copy_from_slice` into part of a buffer. */
  method CopyInto(a: array<byte>, off: nat, x: seq<byte>)
    requires off + |x| <= a.Length
    modifies a
    ensures a[..] == Splice(old(a[..]), off, x)
  {
    for i := 0 to |x|
      invariant forall j :: 0 <= j < a.Length ==> a[j] == if off <= j < off + i then x[j - off] else old(a[j])
    {
      a[off + i] := x[i];
    }
  }

  /** `rfind('/')` among the first n characters. */
  function LastSlash(path: string, n: nat): (r: Option<nat>)
    requires n <= |path|
    ensures r.Some? ==> r.value < n && path[r.value] == '/'
    ensures forall i :: (if r.Some? then r.value < i else 0 <= i) && i < n ==> path[i] != '/'
  {
    if n == 0 then None else if path[n - 1] == '/' then Some(n - 1) else LastSlash(path, n - 1)
  }
}
