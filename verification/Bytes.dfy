/** The programs' machine integers, and big-endian byte strings, the only number format on the wire. */
module Bytes {

  type byte = x: int | 0 <= x < 256
  type u16 = x: int | 0 <= x < 0x1_0000
  type u32 = x: int | 0 <= x < 0x1_0000_0000
  /** A 64-bit pattern: Kotlin's signed `Long` and Rust's `u64` share it. */
  type u64 = x: int | 0 <= x < 0x1_0000_0000_0000_0000

  /** A narrowing cast to 32 bits. */
  function AsU32(n: nat): (r: u32)
    ensures r == n <==> n < 0x1_0000_0000
  {
    n % 0x1_0000_0000
  }

  function Pow256(k: nat): (p: nat)
    ensures p > 0
  {
    if k == 0 then 1 else 256 * Pow256(k - 1)
  }

  /** The number a big-endian byte string denotes. */
  function FromBigEndian(s: seq<byte>): (x: nat)
    ensures x < Pow256(|s|)
  {
    if s == [] then 0 else FromBigEndian(s[..|s| - 1]) * 256 + s[|s| - 1]
  }

  /** `x` in exactly `k` bytes, most significant first; reading it back gives `x`. */
  function BigEndian(x: nat, k: nat): (s: seq<byte>)
    requires x < Pow256(k)
    ensures |s| == k && FromBigEndian(s) == x
  {
    if k == 0 then [] else
      var s := BigEndian(x / 256, k - 1) + [x % 256];
      assert s[..k - 1] == BigEndian(x / 256, k - 1);
      s
  }

  lemma LastDigit(high: nat, low: byte)
    ensures (high * 256 + low) / 256 == high && (high * 256 + low) % 256 == low
  {
  }

  lemma OneMoreDigit(high: nat, low: byte, k: nat)
    requires high < Pow256(k)
    ensures high * 256 + low < Pow256(k + 1)
    ensures BigEndian(high * 256 + low, k + 1) == BigEndian(high, k) + [low]
  {
    LastDigit(high, low);
  }

  /** Every k-byte string is the encoding of the number it denotes, so the encoding is one to one and onto. */
  lemma {:induction false} BigEndianOfFrom(s: seq<byte>)
    ensures BigEndian(FromBigEndian(s), |s|) == s
  {
    if s != [] {
      var init, low := s[..|s| - 1], s[|s| - 1];
      BigEndianOfFrom(init);
      OneMoreDigit(FromBigEndian(init), low, |init|);
      assert s == init + [low];
    }
  }

  /** The byte a shift-and-truncate picks out, as written in the device's encoder, is the big-endian digit. */
  lemma {:induction false} BigEndianDigit(x: nat, k: nat, i: nat)
    requires x < Pow256(k) && i < k
    ensures BigEndian(x, k)[i] == x / Pow256(k - 1 - i) % 256
  {
    if i < k - 1 {
      BigEndianDigit(x / 256, k - 1, i);
      DivTwice(x, Pow256(k - 2 - i));
    }
  }

  /** The digits of a number on the wire, most significant first. */
  lemma DigitsAre(s: seq<byte>, k: nat)
    requires k < |s|
    ensures s[k] == FromBigEndian(s) / Pow256(|s| - 1 - k) % 256
  {
    BigEndianOfFrom(s);
    BigEndianDigit(FromBigEndian(s), |s|, k);
  }

  lemma DivTwice(x: nat, p: nat)
    requires p > 0
    ensures x / 256 / p == x / (256 * p)
  {
    var q := x / 256 / p;
    assert x == 256 * (x / 256) + x % 256;
    assert x / 256 == p * q + x / 256 % p;
    assert 256 * (p * q) == (256 * p) * q;
    QuotientIs(x, 256 * p, q);
  }

  lemma QuotientIs(x: nat, d: nat, q: nat)
    requires d > 0 && d * q <= x < d * q + d
    ensures x / d == q
  {
    var e := x / d;
    assert x == d * e + x % d;
    MulMonotone(d, e + 1, q);
    MulMonotone(d, q + 1, e);
  }

  lemma RemainderIs(x: nat, d: nat, q: nat)
    requires d > 0 && d * q <= x < d * q + d
    ensures x % d == x - d * q
  {
    QuotientIs(x, d, q);
    assert x == d * (x / d) + x % d;
  }

  lemma MulMonotone(d: nat, a: int, b: int)
    ensures a <= b ==> d * a <= d * b
  {
  }
}
