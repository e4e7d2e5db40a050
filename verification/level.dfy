/**
 The level bar's pointer-to-value arithmetic.

 A bar is `size` pixels tall. The vertical offset of the pointer from the
 bar's top edge is clamped into [0, size], scaled so that the top edge is
 100 and the bottom edge 0, and rounded to two decimals.
 */
module Level {
  import opened Rounding

  /** `Math.min(size, Math.max(0, dy))`. */
  function Clamp(dy: real, size: real): (c: real)
    ensures 0.0 <= size ==> 0.0 <= c <= size
    ensures 0.0 <= dy <= size ==> c == dy
    ensures dy <= 0.0 && 0.0 <= size ==> c == 0.0
    ensures dy >= size && 0.0 <= size ==> c == size
  {
    var low := if dy > 0.0 then dy else 0.0;
    if size < low then size else low
  }

  /** Facts about `c / size` for an offset already clamped into the bar. */
  lemma Fraction(c: real, size: real)
    requires size > 0.0 && 0.0 <= c <= size
    ensures 0.0 <= c / size <= 1.0
    ensures (1.0 - c / size) * 100.0 == 100.0 - 100.0 * c / size
  {
    var q := c / size;
    assert q * size == c;
    var w := 100.0 * c / size;
    assert w * size == 100.0 * c == (100.0 * q) * size;
    assert (w - 100.0 * q) * size == 0.0;
  }

  /** The level before rounding: `(1 - clamp(dy) / size) * 100`. */
  function RawLevel(dy: real, size: real): (s: real)
    requires size > 0.0
    ensures 0.0 <= s <= 100.0
    ensures 0.0 <= dy <= size ==> s == 100.0 - 100.0 * dy / size
    ensures dy <= 0.0 ==> s == 100.0
    ensures dy >= size ==> s == 0.0
  {
    var c := Clamp(dy, size);
    Fraction(c, size);
    (1.0 - c / size) * 100.0
  }

  /** The level a drag at vertical offset `dy` reports: a whole number of
      hundredths in [0, 100], within half a hundredth of the raw level. */
  function OffsetToLevel(dy: real, size: real): (l: real)
    requires size > 0.0
    ensures 0.0 <= l <= 100.0
    ensures IsHundredths(l)
    ensures l - 0.005 <= RawLevel(dy, size) < l + 0.005
    ensures dy <= 0.0 ==> l == 100.0
    ensures dy >= size ==> l == 0.0
  {
    ToFixed2Idempotent(100.0);
    ToFixed2Idempotent(0.0);
    ToFixed2Percent(RawLevel(dy, size));
    ToFixed2(RawLevel(dy, size))
  }

  /** Offsets above the bar read as the top edge, offsets below it as the
      bottom edge. */
  lemma ClampedEnds(dy: real, size: real)
    requires size > 0.0
    ensures dy < 0.0 ==> OffsetToLevel(dy, size) == OffsetToLevel(0.0, size) == 100.0
    ensures dy > size ==> OffsetToLevel(dy, size) == OffsetToLevel(size, size) == 0.0
  {
    ToFixed2Idempotent(100.0);
    ToFixed2Idempotent(0.0);
  }

  /** Moving the pointer down never raises the level, before or after
      rounding. */
  lemma LevelMonotone(dy1: real, dy2: real, size: real)
    requires size > 0.0
    requires dy1 <= dy2
    ensures RawLevel(dy2, size) <= RawLevel(dy1, size)
    ensures OffsetToLevel(dy2, size) <= OffsetToLevel(dy1, size)
  {
    var c1 := Clamp(dy1, size);
    var c2 := Clamp(dy2, size);
    assert c1 <= c2;
    assert c1 / size <= c2 / size;
    ToFixed2Monotone(RawLevel(dy2, size), RawLevel(dy1, size));
  }

  /** Every level in [0, 100] is the raw level of exactly the offset
      `size * (100 - level) / 100`, and every two-decimal level is what the
      bar reports there. */
  lemma EveryLevelReachable(level: real, size: real)
    requires size > 0.0
    requires 0.0 <= level <= 100.0
    ensures RawLevel(size * (100.0 - level) / 100.0, size) == level
    ensures IsHundredths(level) ==> OffsetToLevel(size * (100.0 - level) / 100.0, size) == level
  {
    var dy := size * (100.0 - level) / 100.0;
    var f := (100.0 - level) / 100.0;
    assert 0.0 <= f <= 1.0;
    assert dy == size * f;
    assert 0.0 <= dy <= size by {
      assert size * f <= size * 1.0;
    }
    var q := 100.0 * dy / size;
    assert q * size == 100.0 * dy == (100.0 - level) * size;
    assert (q - (100.0 - level)) * size == 0.0;
    if IsHundredths(level) {
      ToFixed2Idempotent(level);
    }
  }

  /** A bar 100 pixels tall reports 100, 75, 50 and 0 at offsets 0, 25, 50
      and 100. */
  lemma HundredPixelBar()
    ensures OffsetToLevel(0.0, 100.0) == 100.0
    ensures OffsetToLevel(25.0, 100.0) == 75.0
    ensures OffsetToLevel(50.0, 100.0) == 50.0
    ensures OffsetToLevel(100.0, 100.0) == 0.0
  {
    assert OffsetToLevel(25.0, 100.0) == 75.0 by {
      assert RawLevel(25.0, 100.0) == 75.0;
      ToFixed2Idempotent(75.0);
    }
    assert OffsetToLevel(50.0, 100.0) == 50.0 by {
      assert RawLevel(50.0, 100.0) == 50.0;
      ToFixed2Idempotent(50.0);
    }
    ClampedEnds(-1.0, 100.0);
    ClampedEnds(101.0, 100.0);
  }
}
