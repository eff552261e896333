// The colour arithmetic of LeptonTask::Process (HoikuCamApp/src/Lepton.cpp, state
// Viewing): how a 16-bit sensor value becomes a palette index or three colour
// channels, and how those become an ARGB4444 pixel.  The float factor 255.9f / diff
// is taken as the rational 2559 / (10 * diff).
module LeptonPalette {
  import opened Common
  import opened LeptonCapture

  // C's division, which rounds toward zero
  function Quotient(n: int, d: int): int
    requires d > 0
  {
    if n >= 0 then n / d else -((-n) / d)
  }

  // --------------------------------------------------------- palette indices

  datatype Range = Range(low: int, diff: int)

  function RangeOf(minValue: Word, maxValue: Word): (r: Range)
    ensures r.diff >= 256
  {
    var diff := maxValue - minValue;
    if diff < 256 then
      var middle := (maxValue + minValue) / 2;
      Range(if middle < 128 then 0 else middle - 128, 256)
    else
      Range(minValue, diff)
  }

  // Wide ranges are used as they are; a narrower one is widened to 256 around its middle,
  // but not below 0.
  lemma RangeCentred(minValue: Word, maxValue: Word)
    ensures var r := RangeOf(minValue, maxValue);
      if maxValue - minValue >= 256 then r.low == minValue && r.low + r.diff == maxValue
      else
        && r.diff == 256 && r.low >= 0
        && (if minValue + maxValue < 256 then r.low == 0
            else minValue + maxValue - 1 <= r.low + (r.low + r.diff) <= minValue + maxValue)
  {
  }

  function Index(value: Word, range: Range): int
    requires range.diff > 0
  {
    Quotient((value - range.low) * 2559, 10 * range.diff)
  }

  lemma DivBound(n: int, d: int, k: int)
    requires d > 0
    ensures n / d >= k <==> n >= d * k
  {
    var q := n / d;
    assert n == d * q + n % d;
    if q >= k {
      MulMonotone(d, k, q);
    } else {
      MulMonotone(d, q, k - 1);
      assert d * (k - 1) == d * k - d;
    }
  }

  lemma QuotientFits(n: int, d: int)
    requires d > 0
    ensures 0 <= Quotient(n, d) <= 255 <==> -d < n < d * 256
  {
    if n >= 0 {
      DivBound(n, d, 0);
      DivBound(n, d, 256);
    } else {
      DivBound(-n, d, 0);
      DivBound(-n, d, 1);
    }
  }

  // The index fits its uint8_t exactly when the value lies in this window; the lower
  // bound is open by less than one step because the conversion truncates.
  lemma IndexFits(value: Word, range: Range)
    requires range.diff > 0
    ensures 0 <= Index(value, range) <= 255
       <==> -10 * range.diff < (value - range.low) * 2559 < 2560 * range.diff
  {
    hide Quotient;
    QuotientFits((value - range.low) * 2559, 10 * range.diff);
  }

  // From the lower end of the range upward the index is the part of 255.9 that the value
  // has gone through the range, rounded down.
  lemma IndexIs(value: Word, range: Range, i: int)
    requires range.diff > 0 && range.low <= value
    ensures i == Index(value, range) <==> 10 * range.diff * i <= (value - range.low) * 2559 < 10 * range.diff * (i + 1)
  {
    DivBound((value - range.low) * 2559, 10 * range.diff, i);
    DivBound((value - range.low) * 2559, 10 * range.diff, i + 1);
  }

  // Every value between the minimum and the maximum has a fitting index, also when
  // the range is widened around its middle.
  lemma IndexOfMeasured(minValue: Word, maxValue: Word, value: Word)
    requires minValue <= value <= maxValue
    ensures 0 <= Index(value, RangeOf(minValue, maxValue)) <= 255
  {
    var range := RangeOf(minValue, maxValue);
    IndexFits(value, range);
  }

  // Values outside the spotmeter's minimum and maximum occur, because those are taken
  // over a smaller region than the picture, and then the index need not fit.
  lemma IndexOfOutlier()
    ensures Index(1000, RangeOf(0, 256)) == 999
    ensures Index(0, RangeOf(1000, 2000)) < 0
  {
  }

  lemma IndexMonotone(v: Word, w: Word, range: Range)
    requires range.diff > 0 && v <= w
    ensures Index(v, range) <= Index(w, range)
  {
    var m, n, d := (v - range.low) * 2559, (w - range.low) * 2559, 10 * range.diff;
    if m >= 0 {
      DivBound(m, d, m / d);
      DivBound(n, d, m / d);
    } else if n < 0 {
      DivBound(-n, d, -n / d);
      DivBound(-m, d, -n / d);
    } else {
      DivBound(n, d, 0);
      DivBound(-m, d, 0);
    }
  }

  // With a range of 256 or more the whole palette is used.
  lemma IndexEnds(minValue: Word, maxValue: Word)
    requires maxValue - minValue >= 256
    ensures Index(minValue, RangeOf(minValue, maxValue)) == 0
    ensures Index(maxValue, RangeOf(minValue, maxValue)) == 255
  {
    QuotientOf(0, 10 * (maxValue - minValue), 0);
    QuotientOf((maxValue - minValue) * 2559, 10 * (maxValue - minValue), 255);
    hide Quotient;
  }

  lemma QuotientOf(n: int, d: int, k: nat)
    requires d > 0 && d * k <= n < d * (k + 1)
    ensures Quotient(n, d) == k
  {
    DivBound(n, d, k);
    DivBound(n, d, k + 1);
    MulMonotone(d, 0, k);
  }

  // ----------------------------------------------- the index in single precision

  // 255.9f, and the largest relative error of one rounding to 24 bits
  const TOP: real := 16770662.0 / 65536.0
  const ULP: real := 1.0 / 16777216.0

  // Numbers of the size that occurs here.
  predicate Ordinary(x: real) {
    x == 0.0 || 0.001 <= x <= 33554432.0
  }

  // Rounding of the results of float operations: it keeps the order, and the relative
  // error is bounded.
  ghost predicate RoundsFloats(round: real -> real) {
    && (forall x, y :: Ordinary(x) && Ordinary(y) && x <= y ==> round(x) <= round(y))
    && (forall x :: Ordinary(x) ==> x * (1.0 - ULP) <= round(x) <= x * (1.0 + ULP))
  }

  // (uint8_t)((value - minValue) * scale) before the cut to eight bits, for values that
  // are not below the minimum; scale is 255.9f / diff.
  function FloatIndex(round: real -> real, value: Word, range: Range): int
    requires range.diff > 0 && range.low <= value
  {
    round(Times((value - range.low) as real, Scale32(round, range.diff as real))).Floor
  }

  lemma MulReal(n: real, a: real, b: real)
    requires n >= 0.0 && a <= b
    ensures n * a <= n * b
  {
  }

  // Dividing and multiplying back.
  lemma DivideBack(x: real, d: real)
    requires d > 0.0
    ensures d * (x / d) == x
  {
  }

  lemma ScaleRange(d: real, q: real)
    requires 256.0 <= d <= 65535.0 && d * q == TOP
    ensures 0.0039 <= q <= 0.99961
  {
    if q < 0.0039 {
      MulReal(d, q, 0.0039);
      assert false;
    }
    if q > 0.99961 {
      MulReal(d, 0.99961, q);
      assert false;
    }
  }

  lemma RoundedScale(d: real, q: real, s: real)
    requires 256.0 <= d <= 65535.0 && d * q == TOP && 0.0039 <= q <= 0.99961
    requires q * (1.0 - ULP) <= s <= q * (1.0 + ULP)
    ensures 0.003 <= s <= 1.0
    ensures TOP * (1.0 - ULP) <= d * s <= TOP * (1.0 + ULP)
  {
    MulReal(d, q * (1.0 - ULP), s);
    MulReal(d, s, q * (1.0 + ULP));
    assert d * (q * (1.0 - ULP)) == (d * q) * (1.0 - ULP);
    assert d * (q * (1.0 + ULP)) == (d * q) * (1.0 + ULP);
  }

  function Scale32(round: real -> real, d: real): real
    requires d > 0.0
  {
    round(TOP / d)
  }

  // The scale, and its product with the whole range.
  lemma ScaleBound(round: real -> real, d: real)
    requires RoundsFloats(round) && 256.0 <= d <= 65535.0
    ensures var s := Scale32(round, d);
      0.003 <= s <= 1.0 && TOP * (1.0 - ULP) <= d * s <= TOP * (1.0 + ULP)
  {
    var q := TOP / d;
    DivideBack(TOP, d);
    ScaleRange(d, q);
    assert Ordinary(q);
    RoundedScale(d, q, round(q));
  }

  function Times(a: real, b: real): real {
    a * b
  }

  lemma TimesOrdered(m: real, n: real, s: real)
    requires 0.0 <= s && m <= n
    ensures Times(m, s) <= Times(n, s)
  {
  }

  lemma ProductBound(s: real, n: real, d: real)
    requires 0.003 <= s <= 1.0 && 0.0 <= n <= d <= 65535.0 && (n == 0.0 || n >= 1.0)
    ensures Ordinary(Times(n, s)) && 0.0 <= Times(n, s) <= Times(d, s)
    ensures n == 0.0 ==> Times(n, s) == 0.0
  {
    TimesOrdered(n, d, s);
    TimesOrdered(0.0, n, s);
    assert Times(0.0, s) == 0.0;
    if n >= 1.0 {
      TimesOrdered(1.0, n, s);
      assert Times(1.0, s) == s;
    }
    AtMost(n, s);
  }

  lemma AtMost(n: real, s: real)
    requires 0.0 <= s <= 1.0 && 0.0 <= n
    ensures Times(n, s) <= n
  {
    MulReal(n, s, 1.0);
  }

  lemma RoundingError(round: real -> real, x: real)
    requires RoundsFloats(round) && Ordinary(x)
    ensures x * (1.0 - ULP) <= round(x) <= x * (1.0 + ULP)
  {
  }

  lemma RoundingOrder(round: real -> real, x: real, y: real)
    requires RoundsFloats(round) && Ordinary(x) && Ordinary(y) && x <= y
    ensures round(x).Floor <= round(y).Floor
  {
  }

  lemma RoundedProduct(p: real, whole: real, r: real)
    requires 0.0 <= p <= whole && TOP * (1.0 - ULP) <= whole <= TOP * (1.0 + ULP)
    requires p * (1.0 - ULP) <= r <= p * (1.0 + ULP)
    ensures 0.0 <= r < 256.0
    ensures p == 0.0 ==> r == 0.0
    ensures p == whole ==> 255.0 < r
  {
  }

  // With any such rounding every value between the minimum and the maximum still has a
  // fitting index, and a range of 256 or more still ends at 0 and 255;
  lemma FloatIndexFits(round: real -> real, range: Range, value: Word)
    requires RoundsFloats(round) && 256 <= range.diff <= 65535
    requires range.low <= value <= range.low + range.diff
    ensures 0 <= FloatIndex(round, value, range) <= 255
    ensures value == range.low ==> FloatIndex(round, value, range) == 0
    ensures value == range.low + range.diff ==> FloatIndex(round, value, range) == 255
  {
    var n, d := (value - range.low) as real, range.diff as real;
    var s := Scale32(round, d);
    ScaleBound(round, d);
    ProductBound(s, n, d);
    RoundingError(round, Times(n, s));
    hide Scale32, RoundsFloats, Ordinary;
    assert Times(d, s) == d * s;
    hide Times;
    RoundedProduct(Times(n, s), Times(d, s), round(Times(n, s)));
  }

  lemma FloatIndexOfMeasured(round: real -> real, minValue: Word, maxValue: Word, value: Word)
    requires RoundsFloats(round) && minValue <= value <= maxValue
    ensures RangeOf(minValue, maxValue).low <= value
    ensures 0 <= FloatIndex(round, value, RangeOf(minValue, maxValue)) <= 255
  {
    hide FloatIndex, RoundsFloats;
    FloatIndexFits(round, RangeOf(minValue, maxValue), value);
  }

  lemma ScaleSize(round: real -> real, d: real)
    requires RoundsFloats(round) && 256.0 <= d <= 65535.0
    ensures 0.003 <= Scale32(round, d) <= 1.0
  {
    ScaleBound(round, d);
  }

  // and the index is still monotone.
  lemma RoundedProductsOrdered(round: real -> real, s: real, m: real, n: real)
    requires RoundsFloats(round) && 0.003 <= s <= 1.0 && 0.0 <= m <= n <= 65535.0
    requires (m == 0.0 || m >= 1.0) && (n == 0.0 || n >= 1.0)
    ensures round(Times(m, s)).Floor <= round(Times(n, s)).Floor
  {
    hide RoundsFloats, Ordinary, Times;
    ProductBound(s, m, 65535.0);
    ProductBound(s, n, 65535.0);
    TimesOrdered(m, n, s);
    RoundingOrder(round, Times(m, s), Times(n, s));
  }

  lemma FloatIndexMonotone(round: real -> real, range: Range, v: Word, w: Word)
    requires RoundsFloats(round) && 256 <= range.diff <= 65535
    requires range.low <= v <= w <= range.low + range.diff
    ensures FloatIndex(round, v, range) <= FloatIndex(round, w, range)
  {
    var m, n, d := (v - range.low) as real, (w - range.low) as real, range.diff as real;
    var s := Scale32(round, d);
    ScaleSize(round, d);
    hide Scale32, RoundsFloats, Times;
    RoundedProductsOrdered(round, s, m, n);
  }

  // ------------------------------------------------------- the default colours

  datatype Channels = Channels(c0: int, c1: int, c2: int)

  predicate Fit(c: Channels) {
    0 <= c.c0 <= 255 && 0 <= c.c1 <= 255 && 0 <= c.c2 <= 255
  }

  const SPAN := 256
  const MAX := SPAN - 1

  function Strength(value: Word): int {
    if value < 0x2000 then SPAN * value / 0x2000 else SPAN - Base(value)
  }

  function Base(value: Word): int {
    if value < 0x2000 then 0 else SPAN * (value - 0x2000) / 0x2000
  }

  function Rainbow(value: Word): Channels {
    var s, b := Strength(value), Base(value);
    var hue := value % (MAX * 6);
    var h := hue % SPAN;
    var rising := Quotient(s * h, SPAN) + b;
    var full := Quotient(s * MAX, SPAN) + b;
    var falling := Quotient(s * (MAX - h), SPAN) + b;
    match hue / MAX % 6
    case 0 => Channels(b, rising, full)
    case 1 => Channels(b, full, falling)
    case 2 => Channels(rising, full, b)
    case 3 => Channels(full, falling, b)
    case 4 => Channels(full, b, rising)
    case _ => Channels(falling, b, full)
  }

  // colormap[i] = 256 * colormap[i] / span, with span 256
  function Normalised(c: Channels): Channels {
    Channels(Quotient(256 * c.c0, SPAN), Quotient(256 * c.c1, SPAN), Quotient(256 * c.c2, SPAN))
  }

  lemma NormalisedIsIdentity(c: Channels)
    ensures Normalised(c) == c
  {
  }

  lemma ChannelBound(s: int, b: int, x: int)
    requires 0 <= x <= MAX
    requires (b == 0 && 0 <= s <= 255) || (0 <= b <= 255 && s == SPAN - b)
    ensures 0 <= Quotient(s * x, SPAN) + b <= 255
  {
    assert 0 <= s * x <= s * MAX by {
      Scale(s, x, MAX);
    }
    assert s * MAX == 256 * s - s;
  }

  lemma Scale(s: int, x: int, y: int)
    requires 0 <= s && 0 <= x <= y
    ensures 0 <= s * x <= s * y
  {
  }

  // The default colour mode keeps all channels in 0..255 exactly for values below
  // 2^14, the range of a raw sensor reading.
  lemma RainbowFits(value: Word)
    ensures Fit(Rainbow(value)) <==> value < 0x4000
  {
    hide Quotient;
    var s, b := Strength(value), Base(value);
    var h := value % (MAX * 6) % SPAN;
    if value < 0x4000 {
      ChannelBound(s, b, h);
      ChannelBound(s, b, MAX);
      ChannelBound(s, b, MAX - h);
    } else {
      assert b >= 256;
    }
  }

  // The six sextants of the hue: which channel is the least, which the greatest, and
  // whether the third one rises or falls with the hue.
  lemma RainbowTable(value: Word)
    ensures var c, sextant, h := Rainbow(value), value % 1530 / 255, value % 1530 % 256;
      var least := if value < 8192 then 0 else (value - 8192) / 32;
      var strength := if value < 8192 then value / 32 else 256 - least;
      var greatest := Quotient(strength * 255, 256) + least;
      var third := Quotient(strength * (if sextant % 2 == 0 then h else 255 - h), 256) + least;
      && 0 <= sextant < 6
      && (sextant == 0 ==> c == Channels(least, third, greatest))
      && (sextant == 1 ==> c == Channels(least, greatest, third))
      && (sextant == 2 ==> c == Channels(third, greatest, least))
      && (sextant == 3 ==> c == Channels(greatest, third, least))
      && (sextant == 4 ==> c == Channels(greatest, least, third))
      && (sextant == 5 ==> c == Channels(third, least, greatest))
      && (value < 16384 ==> 0 <= least <= third <= greatest <= 255)
  {
    hide Quotient, Base, Strength;
    RainbowLevels(value);
    if value < 16384 {
      var least, strength, h := Base(value), Strength(value), value % 1530 % 256;
      Between(strength, least, h);
      Between(strength, least, 255 - h);
    }
  }

  lemma RainbowLevels(value: Word)
    ensures Base(value) == if value < 8192 then 0 else (value - 8192) / 32
    ensures Strength(value) == if value < 8192 then value / 32 else 256 - (value - 8192) / 32
    ensures value < 16384 ==> 0 <= Strength(value) && 0 <= Base(value) <= 255
                              && (Strength(value) == 256 - Base(value) || (Base(value) == 0 && Strength(value) <= 255))
  {
  }

  lemma Between(s: int, b: int, x: int)
    requires 0 <= x <= 255 && 0 <= s
    requires (b == 0 && s <= 255) || (0 <= b <= 255 && s == 256 - b)
    ensures b <= Quotient(s * x, 256) + b <= Quotient(s * 255, 256) + b <= 255
  {
    Scale(s, x, 255);
    ChannelBound(s, b, 255);
  }

  // ------------------------------------------------------------ ARGB4444 pixels

  // (c >> 4) as it enters a 16-bit pixel
  function Field(c: int): bv16 {
    (c / 16 % 0x1_0000) as bv16
  }

  function Combine(f0: bv16, f1: bv16, f2: bv16): bv16 {
    0xF000 | (f0 << 8) | (f1 << 4) | f2
  }

  function Argb4444(c: Channels): bv16 {
    Combine(Field(c.c0), Field(c.c1), Field(c.c2))
  }

  function Nibble(pixel: bv16, shift: nat): bv16
    requires shift == 0 || shift == 4 || shift == 8 || shift == 12
  {
    if shift == 0 then pixel & 0xF
    else if shift == 4 then (pixel >> 4) & 0xF
    else if shift == 8 then (pixel >> 8) & 0xF
    else pixel >> 12
  }

  lemma FieldIsSmall(c: int)
    requires 0 <= c <= 255
    ensures Field(c) & 0xFFF0 == 0 && Field(c) as int == c / 16
  {
    match c / 16
    case 0 => case 1 => case 2 => case 3 => case 4 => case 5 => case 6 => case 7 =>
    case 8 => case 9 => case 10 => case 11 => case 12 => case 13 => case 14 => case _ =>
      assert c / 16 == 15;
  }

  lemma Blue(f0: bv16, f1: bv16, f2: bv16)
    requires f2 & 0xFFF0 == 0
    ensures Nibble(Combine(f0, f1, f2), 0) == f2
  {
  }

  lemma Green(f0: bv16, f1: bv16, f2: bv16)
    requires f1 & 0xFFF0 == 0 && f2 & 0xFFF0 == 0
    ensures Nibble(Combine(f0, f1, f2), 4) == f1
  {
  }

  lemma Red(f0: bv16, f1: bv16, f2: bv16)
    requires f0 & 0xFFF0 == 0 && f1 & 0xFFF0 == 0 && f2 & 0xFFF0 == 0
    ensures Nibble(Combine(f0, f1, f2), 8) == f0
  {
  }

  lemma Alpha(f0: bv16, f1: bv16, f2: bv16)
    requires f0 & 0xFFF0 == 0 && f1 & 0xFFF0 == 0 && f2 & 0xFFF0 == 0
    ensures Nibble(Combine(f0, f1, f2), 12) == 0xF
  {
  }

  // Channels that fit never run into each other: every field of the pixel is the
  // upper half of its channel, and the pixel is opaque.
  lemma FieldsDoNotOverlap(c: Channels)
    requires Fit(c)
    ensures Nibble(Argb4444(c), 12) == 0xF
    ensures Nibble(Argb4444(c), 8) as int == c.c0 / 16
    ensures Nibble(Argb4444(c), 4) as int == c.c1 / 16
    ensures Nibble(Argb4444(c), 0) as int == c.c2 / 16
  {
    hide Field, Combine, Nibble;
    FieldIsSmall(c.c0);
    FieldIsSmall(c.c1);
    FieldIsSmall(c.c2);
    var f0, f1, f2 := Field(c.c0), Field(c.c1), Field(c.c2);
    Alpha(f0, f1, f2);
    Red(f0, f1, f2);
    Green(f0, f1, f2);
    Blue(f0, f1, f2);
  }
}
