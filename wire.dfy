/** Fixed-width integers as the bytes `memcpy` copies out of and into them.
    The target is little-endian (x86-64) with `int` = 4, `short` = 2 and `long` = 8
    bytes; a value is stored two's complement, i.e. modulo 256^width. */
module Wire {

  /** One octet of memory. */
  newtype byte = x: int | 0 <= x < 256

  const IntSize: nat := 4
  const ShortSize: nat := 2
  const LongSize: nat := 8

  /** 256^n: how many values n bytes can hold. */
  function Pow256(n: nat): (r: nat)
    ensures r >= 1
    ensures n > 0 ==> r % 2 == 0
  {
    if n == 0 then 1 else 256 * Pow256(n - 1)
  }

  /** x fits a signed integer of `width` bytes. */
  predicate FitsSigned(x: int, width: nat)
  {
    -(Pow256(width) / 2) <= x < Pow256(width) / 2
  }

  predicate IsInt(x: int) { FitsSigned(x, IntSize) }
  predicate IsShort(x: int) { FitsSigned(x, ShortSize) }
  predicate IsLong(x: int) { FitsSigned(x, LongSize) }

  /** Little-endian digits of an unsigned value. */
  function Digits(u: nat, width: nat): (b: seq<byte>)
    requires u < Pow256(width)
    ensures |b| == width
  {
    if width == 0 then [] else [(u % 256) as byte] + Digits(u / 256, width - 1)
  }

  /** The unsigned value a little-endian byte string holds. */
  function Unsigned(b: seq<byte>): (u: nat)
    ensures u < Pow256(|b|)
  {
    if b == [] then 0 else b[0] as nat + 256 * Unsigned(b[1..])
  }

  /** The signed value `memcpy` into an integer of |b| bytes reads out of b. */
  function Signed(b: seq<byte>): (x: int)
    requires |b| > 0
    ensures FitsSigned(x, |b|)
  {
    var u := Unsigned(b);
    if u < Pow256(|b|) / 2 then u else u - Pow256(|b|)
  }

  /** The bytes `memcpy` copies out of an integer of `width` bytes holding x:
      x is reduced modulo 256^width, as a truncating conversion does. */
  function Bytes(x: int, width: nat): (b: seq<byte>)
    ensures |b| == width
  {
    Digits(x % Pow256(width), width)
  }

  function IntBytes(x: int): (b: seq<byte>) ensures |b| == IntSize { Bytes(x, IntSize) }
  function ShortBytes(x: int): (b: seq<byte>) ensures |b| == ShortSize { Bytes(x, ShortSize) }
  function LongBytes(x: int): (b: seq<byte>) ensures |b| == LongSize { Bytes(x, LongSize) }

  lemma {:induction false} UnsignedDigits(u: nat, width: nat)
    requires u < Pow256(width)
    ensures Unsigned(Digits(u, width)) == u
  {
    if width > 0 {
      var d := Digits(u, width);
      assert d[1..] == Digits(u / 256, width - 1);
      UnsignedDigits(u / 256, width - 1);
      assert d[0] as nat == u % 256;
    }
  }

  lemma {:induction false} DigitsUnsigned(b: seq<byte>)
    ensures Digits(Unsigned(b), |b|) == b
  {
    if b != [] {
      var u, rest := Unsigned(b), Unsigned(b[1..]);
      assert u == b[0] as nat + 256 * rest;
      assert u % 256 == b[0] as nat && u / 256 == rest by { SplitByte(b[0] as nat, rest); }
      assert (u % 256) as byte == b[0];
      assert Digits(u, |b|) == [(u % 256) as byte] + Digits(u / 256, |b| - 1);
      DigitsUnsigned(b[1..]);
      assert [b[0]] + b[1..] == b;
    }
  }

  lemma SplitByte(low: nat, high: nat)
    requires low < 256
    ensures (low + 256 * high) % 256 == low && (low + 256 * high) / 256 == high
  {
  }

  /** Euclidean remainder is determined by any quotient-remainder split. */
  lemma ModOfSplit(x: int, d: int, k: int, m: int)
    requires d > 0 && 0 <= m < d && x == d * k + m
    ensures x % d == m
  {
    var q, r := x / d, x % d;
    assert d * q + r == d * k + m;
    if q > k {
      assert d * (q - k) >= d by { MulAtLeast(d, q - k); }
    } else if q < k {
      assert d * (k - q) >= d by { MulAtLeast(d, k - q); }
    }
  }

  lemma MulAtLeast(d: int, n: int)
    requires d > 0 && n >= 1
    ensures d * n >= d
  {
  }

  /** Writing a representable value and reading it back gives the value. */
  lemma BytesRoundTrip(x: int, width: nat)
    requires width > 0 && FitsSigned(x, width)
    ensures Signed(Bytes(x, width)) == x
  {
    var p := Pow256(width);
    var u := if x < 0 then x + p else x;
    if x < 0 { ModOfSplit(x, p, -1, u); } else { ModOfSplit(x, p, 0, u); }
    UnsignedDigits(u, width);
  }

  /** Reading a value out of bytes and writing it back gives the bytes. */
  lemma SignedRoundTrip(b: seq<byte>)
    requires |b| > 0
    ensures Bytes(Signed(b), |b|) == b
  {
    var p := Pow256(|b|);
    var u := Unsigned(b);
    if u < p / 2 { ModOfSplit(u, p, 0, u); } else { var x := u as int - p as int; ModOfSplit(x, p, -1, u); }
    DigitsUnsigned(b);
  }

  /** A slice of a slice is a slice. */
  lemma SubSlice(s: seq<byte>, o: nat, n: nat, lo: nat, hi: nat)
    requires o + n <= |s| && lo <= hi <= n
    ensures s[o..o + n][lo..hi] == s[o + lo..o + hi]
  {
    var a, b := s[o..o + n][lo..hi], s[o + lo..o + hi];
    forall k | 0 <= k < hi - lo ensures a[k] == b[k] {
      assert a[k] == s[o + lo + k];
    }
  }
}
