/** Choosing a streaming resolution that keeps the panel's aspect ratio (crates/transport/src/adb.rs). */
module Scaling {
  import opened Bytes

  function Min(a: u32, b: u32): u32 {
    if a < b then a else b
  }

  function Max(a: u32, b: u32): u32 {
    if a < b then b else a
  }

  /** Clear the lowest bit. */
  function Align2(value: u32): u32 {
    value - value % 2
  }

  /** The width before rounding. */
  function FittedWidth(pw: u32, cap: u32): u32 {
    Max(Min(pw, cap), 2)
  }

  /** The height that goes with it, in the 64-bit arithmetic it is computed in. */
  function ScaledHeight(pw: u32, ph: u32, cap: u32): nat
    requires pw > 0
  {
    Quotient(FittedWidth(pw, cap) * ph, pw)
  }

  function Quotient(x: nat, d: nat): (q: nat)
    requires d > 0
    ensures d * q <= x < d * q + d
  {
    x / d
  }

  /** Both axes rounded down to even numbers, the height narrowed to 32 bits and then to no less than two. */
  function Rounded(width: u32, height: nat): (u32, u32) {
    (Align2(width), Align2(Max(AsU32(height), 2)))
  }

  /** A zero width is the panel's only value the division rejects. */
  function StreamResolution(pw: u32, ph: u32, cap: u32): (u32, u32)
    requires pw > 0
  {
    Rounded(FittedWidth(pw, cap), ScaledHeight(pw, ph, cap))
  }

  /** What the division gives, as products. */
  lemma HeightIs(pw: u32, ph: u32, cap: u32)
    requires pw > 0
    ensures var width, height := FittedWidth(pw, cap), ScaledHeight(pw, ph, cap);
            && width >= 2 && (pw >= 2 ==> width <= pw)
            && pw * height <= width * ph < pw * height + pw
  {
  }

  /** A width no more than the panel's gives a height no more than the panel's, and the same for the same. */
  lemma Narrower(pw: nat, ph: nat, width: nat, height: nat)
    requires pw > 0 && width <= pw && pw * height <= width * ph < pw * height + pw
    ensures height <= ph && (width == pw ==> height == ph)
  {
    MulMonotone(ph, width, pw);
    MulMonotone(pw, ph + 1, height);
    MulMonotone(pw, height + 1, ph);
  }

  /** Narrowing the height to 32 bits loses nothing, except for a panel one pixel wide and at least 2^31 high. */
  lemma NarrowingLoses(pw: u32, ph: u32, cap: u32)
    requires pw > 0
    ensures AsU32(ScaledHeight(pw, ph, cap)) != ScaledHeight(pw, ph, cap) <==> pw == 1 && ph >= 0x8000_0000
  {
    HeightIs(pw, ph, cap);
    if pw > 1 {
      Narrower(pw, ph, FittedWidth(pw, cap), ScaledHeight(pw, ph, cap));
    }
  }

  /**
   Even on both axes, no wider than `width` by less than two pixels, no higher than the panel unless that is one pixel
   high, and of the panel's aspect ratio to within two lines.
   */
  predicate FitsPanel(pw: u32, ph: u32, width: u32, resolution: (u32, u32)) {
    var (w, h) := resolution;
    && w % 2 == 0 && h % 2 == 0 && w >= 2 && h >= 2
    && w <= width < w + 2
    && (h <= ph <==> ph >= 2)
    && -2 * pw < w * ph - h * pw < 2 * pw
  }

  /** For a landscape panel the result fits the panel, and is as wide as the cap (but at least two) allows. */
  lemma ResolutionFits(pw: u32, ph: u32, cap: u32)
    requires pw >= ph >= 1 && pw >= 2
    ensures FitsPanel(pw, ph, FittedWidth(pw, cap), StreamResolution(pw, ph, cap))
  {
    HeightIs(pw, ph, cap);
    RoundedFits(pw, ph, FittedWidth(pw, cap), ScaledHeight(pw, ph, cap));
  }

  lemma RoundedIs(width: u32, height: u32)
    ensures Rounded(width, height) == (width - width % 2, if height < 2 then 2 else height - height % 2)
  {
  }

  lemma RoundedFits(pw: u32, ph: u32, width: u32, height: nat)
    requires pw >= ph >= 1 && pw >= width >= 2 && pw * height <= width * ph < pw * height + pw
    ensures FitsPanel(pw, ph, width, Rounded(width, height))
  {
    Narrower(pw, ph, width, height);
    RoundedIs(width, height);
    AspectKept(pw, ph, width, height);
  }

  lemma OneLess(a: int, b: int)
    ensures (a - 1) * b == a * b - b
  {
  }

  lemma AspectKept(pw: nat, ph: nat, width: nat, height: nat)
    requires pw >= ph >= 1 && width >= 2 && pw * height <= width * ph < pw * height + pw
    ensures var w, h := width - width % 2, (if height < 2 then 2 else height - height % 2);
            -2 * pw < w * ph - h * pw < 2 * pw
  {
    var w, h := width - width % 2, (if height < 2 then 2 else height - height % 2);
    OneLess(width, ph);
    OneLess(height, pw);
    assert width * ph - ph <= w * ph <= width * ph;
    if height >= 2 {
      assert pw * height - pw <= h * pw <= pw * height;
    } else {
      assert pw * height <= pw;
      MulMonotone(ph, 2, w);
    }
  }

  /** A panel of at least 2 by 2 is streamed as it is exactly when it is even on both axes and no wider than the cap. */
  lemma UnscaledExactlyWhenItFits(pw: u32, ph: u32, cap: u32)
    requires pw >= 2 && ph >= 2
    ensures StreamResolution(pw, ph, cap) == (pw, ph) <==> pw % 2 == 0 && ph % 2 == 0 && (pw <= cap || pw == 2)
  {
    HeightIs(pw, ph, cap);
    RoundedUnscaled(pw, ph, FittedWidth(pw, cap), ScaledHeight(pw, ph, cap));
    assert FittedWidth(pw, cap) == pw <==> pw <= cap || pw == 2;
  }

  lemma RoundedUnscaled(pw: u32, ph: u32, width: u32, height: nat)
    requires pw >= 2 && ph >= 2 && pw >= width && pw * height <= width * ph < pw * height + pw
    ensures Rounded(width, height) == (pw, ph) <==> pw % 2 == 0 && ph % 2 == 0 && width == pw
  {
    Narrower(pw, ph, width, height);
    RoundedIs(width, height);
  }

  /** With the cap itself in 16 bits, both axes of a landscape panel's resolution fit the stream header's fields. */
  lemma ResolutionFitsHeader(pw: u32, ph: u32, cap: u32)
    requires pw >= ph >= 1 && cap < 0x1_0000
    ensures StreamResolution(pw, ph, cap).0 < 0x1_0000 && StreamResolution(pw, ph, cap).1 < 0x1_0000
  {
    var width, height := FittedWidth(pw, cap), ScaledHeight(pw, ph, cap);
    HeightIs(pw, ph, cap);
    NoHigherThanWide(pw, ph, width, height);
    RoundedIs(width, height);
  }

  lemma NoHigherThanWide(pw: nat, ph: nat, width: nat, height: nat)
    requires pw >= ph >= 1 && pw * height <= width * ph
    ensures height <= width
  {
    if height > width {
      MulMonotone(width, ph, pw);
      MulMonotone(pw, width + 1, height);
    }
  }
}
