/**
 `parseFloat(v.toFixed(2))` over exact reals.

 `Number.prototype.toFixed` (section 21.1.3.3 of ECMA-262) writes a minus
 sign and continues with the magnitude when the value is negative, leaves
 magnitudes of at least 10^21 unrounded, and otherwise picks the integer
 `n` for which `n / 100` is closest to the magnitude, taking the larger `n`
 on a tie. Reading the string back with `parseFloat` yields `n / 100`.
 */
module Rounding {

  const Cutoff: real := 1000000000000000000000.0

  /** A real that is a whole number of hundredths. */
  predicate IsHundredths(v: real) {
    (100.0 * v).Floor as real == 100.0 * v
  }

  /** Rounding of a non-negative magnitude: nearest hundredth, ties up. */
  function RoundMagnitude(m: real): (r: real)
    requires m >= 0.0
    ensures r >= 0.0
    ensures m < Cutoff ==> IsHundredths(r) && r - 0.005 <= m < r + 0.005
    ensures m >= Cutoff ==> r == m
  {
    if m >= Cutoff then m
    else
      var n := (100.0 * m + 0.5).Floor;
      assert IsHundredths(n as real / 100.0) by {
        assert 100.0 * (n as real / 100.0) == n as real;
      }
      n as real / 100.0
  }

  lemma NegatedHundredths(m: real)
    ensures IsHundredths(m) ==> IsHundredths(-m)
  {
    if IsHundredths(m) {
      var k := (100.0 * m).Floor;
      assert 100.0 * m == k as real;
      assert 100.0 * (-m) == (-k) as real;
      assert (100.0 * (-m)).Floor == -k;
    }
  }

  /** The value `parseFloat(v.toFixed(2))` takes, with `v` an exact real. */
  function ToFixed2(v: real): (r: real)
    ensures -Cutoff < v < Cutoff ==> IsHundredths(r)
    ensures 0.0 <= v < Cutoff ==> r - 0.005 <= v < r + 0.005
    ensures -Cutoff < v < 0.0 ==> r - 0.005 < v <= r + 0.005
    ensures (v < 0.0 ==> r <= 0.0) && (v >= 0.0 ==> r >= 0.0)
    ensures v <= -Cutoff || v >= Cutoff ==> r == v
  {
    if v < 0.0 then
      var m := RoundMagnitude(-v);
      NegatedHundredths(m);
      -m
    else RoundMagnitude(v)
  }

  /** The nearest-hundredth characterisation pins the result down: any whole
      number of hundredths within half a hundredth of `v`, ties counted
      upward, is what `ToFixed2` returns. */
  lemma ToFixed2Unique(v: real, h: real)
    requires 0.0 <= v < Cutoff
    requires IsHundredths(h) && h - 0.005 <= v < h + 0.005
    ensures ToFixed2(v) == h
  {
    var r := ToFixed2(v);
    var a := (100.0 * r).Floor;
    var b := (100.0 * h).Floor;
    assert a - b < 1 && b - a < 1 by {
      assert 100.0 * r - 100.0 * h < 1.0 && 100.0 * h - 100.0 * r < 1.0;
    }
    assert a == b;
  }

  /** A value that already has at most two decimals is left unchanged, so
      rounding twice is the same as rounding once. */
  lemma ToFixed2Idempotent(v: real)
    requires 0.0 <= v < Cutoff
    ensures IsHundredths(v) ==> ToFixed2(v) == v
    ensures ToFixed2(ToFixed2(v)) == ToFixed2(v)
  {
    if IsHundredths(v) {
      ToFixed2Unique(v, v);
    }
    var r := ToFixed2(v);
    if r < Cutoff {
      ToFixed2Unique(r, r);
    } else {
      assert ToFixed2(r) == r;
    }
  }

  /** Rounding never reverses the order of two non-negative values, on
      either side of the cutoff. */
  lemma ToFixed2Monotone(v: real, w: real)
    requires 0.0 <= v <= w
    ensures ToFixed2(v) <= ToFixed2(w)
  {
    if w < Cutoff {
      var a := (100.0 * v + 0.5).Floor;
      var b := (100.0 * w + 0.5).Floor;
      assert a <= b;
      assert ToFixed2(v) == a as real / 100.0;
      assert ToFixed2(w) == b as real / 100.0;
    } else if v < Cutoff {
      var a := (100.0 * v + 0.5).Floor;
      var c := (100.0 * Cutoff).Floor;
      assert c as real == 100.0 * Cutoff;
      assert a as real < c as real + 1.0;
      assert a <= c;
      assert ToFixed2(v) == a as real / 100.0;
      assert ToFixed2(w) == w;
    }
  }

  /** Values in [0, 100] round to values in [0, 100]. */
  lemma ToFixed2Percent(v: real)
    requires 0.0 <= v <= 100.0
    ensures 0.0 <= ToFixed2(v) <= 100.0
  {
    ToFixed2Monotone(v, 100.0);
    ToFixed2Idempotent(100.0);
  }
}
