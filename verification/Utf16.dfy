/** UTF-16 as Rust's `encode_utf16` and `decode_utf16(..).unwrap_or('?')` handle it. */
module Utf16 {
  import opened Bytes

  type u16 = x: int | 0 <= x < 0x1_0000

  predicate IsHigh(u: u16) { 0xD800 <= u < 0xDC00 }

  predicate IsLow(u: u16) { 0xDC00 <= u < 0xE000 }

  function EncodeChar(c: char): (u: seq<u16>)
    ensures |u| == 1 || |u| == 2
  {
    var n := c as int;
    if n < 0x1_0000 then [n] else [0xD800 + (n - 0x1_0000) / 0x400, 0xDC00 + (n - 0x1_0000) % 0x400]
  }

  function Encode(s: string): (u: seq<u16>)
    ensures s != [] ==> u != []
  {
    if s == [] then [] else EncodeChar(s[0]) + Encode(s[1..])
  }

  /** A lone surrogate decodes to '?' and takes one unit. */
  function Decode(u: seq<u16>): (s: string)
  {
    if u == [] then
      []
    else if !IsHigh(u[0]) && !IsLow(u[0]) then
      [u[0] as char] + Decode(u[1..])
    else if IsHigh(u[0]) && |u| >= 2 && IsLow(u[1]) then
      var hi: int, lo: int := u[0] - 0xD800, u[1] - 0xDC00;
      [(0x1_0000 + hi * 0x400 + lo) as char] + Decode(u[2..])
    else
      ['?'] + Decode(u[1..])
  }

  /** Every Rust string survives the trip through UTF-16. */
  lemma {:induction false} DecodeEncode(s: string)
    ensures Decode(Encode(s)) == s
  {
    if s != [] {
      DecodeEncode(s[1..]);
      var u, rest := EncodeChar(s[0]), Encode(s[1..]);
      assert Encode(s) == u + rest;
      assert (u + rest)[|u|..] == rest;
      assert s == [s[0]] + s[1..];
    }
  }

  /** Decoding arbitrary units and encoding again keeps their number. */
  lemma {:induction false} EncodeDecodeLength(u: seq<u16>)
    ensures |Encode(Decode(u))| == |u|
  {
    if u != [] {
      var w := if IsHigh(u[0]) && |u| >= 2 && IsLow(u[1]) then 2 else 1;
      EncodeDecodeLength(u[w..]);
      var d := Decode(u);
      assert d[1..] == Decode(u[w..]);
    }
  }

  /** Little-endian bytes of units, and back. */
  function UnitBytes(u: seq<u16>): (b: seq<byte>)
    ensures |b| == 2 * |u|
  {
    if u == [] then [] else [u[0] % 256, u[0] / 256] + UnitBytes(u[1..])
  }

  function Unit(lo: int, hi: int): u16
    requires 0 <= lo < 256 && 0 <= hi < 256
  {
    lo + 256 * hi
  }

  /** `chunks_exact(2).take(n)` read as little-endian units. */
  function BytesUnits(b: seq<byte>, n: nat): (u: seq<u16>)
    ensures |u| == Min(n, |b| / 2)
  {
    if n == 0 || |b| < 2 then [] else [Unit(b[0], b[1])] + BytesUnits(b[2..], n - 1)
  }

  lemma {:induction false} UnitsRoundTrip(u: seq<u16>, pad: seq<byte>)
    ensures BytesUnits(UnitBytes(u) + pad, |u|) == u
  {
    if u != [] {
      UnitsRoundTrip(u[1..], pad);
      assert (UnitBytes(u) + pad)[2..] == UnitBytes(u[1..]) + pad;
      assert u == [u[0]] + u[1..];
    }
  }
}
