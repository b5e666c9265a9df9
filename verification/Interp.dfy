/** Linear interpolation in a Q15 table, on inputs in 12.20 format. */
module Interp {
  import opened Bits
  import opened FixedPoint
  import opened Words

  /** One table step of the input, and the largest fraction below it: the weight the code gives a whole step. */
  const UNIT: int := 0x10_0000
  const FULL: int := 0xF_FFFF

  function Index(x: q31): int { ToQ31(And(ToU32(x), 0xFFF0_0000)) / UNIT }

  function Fract(x: q31): int { And(ToU32(x), 0xF_FFFF) }

  /** Both weighted neighbours, before the shift that drops the fraction. */
  function Weighted(y0: q15, y1: q15, fract: int): int { y0 * (FULL - fract) + y1 * fract }

  lemma UnitPower()
    ensures Pow2(20) == UNIT && Pow2(12) == 0x1000
  {
  }

  /** Masking splits the input into its whole steps, rounded down also below zero, and what is left over. */
  lemma InputSplits(x: q31)
    ensures Index(x) == x / UNIT && Fract(x) == x % UNIT
    ensures -0x800 <= Index(x) <= 0x7FF && 0 <= Fract(x) <= FULL
  {
    hide And, Pow2;
    HighBits(ToU32(x));
    SignedHigh(x);
  }

  lemma HighBits(u: uint32)
    ensures And(u, 0xFFF0_0000) == u / UNIT * UNIT && And(u, 0xF_FFFF) == u % UNIT
  {
    hide And, Pow2;
    UnitPower();
    AndMask(u, 20);
    AndSplit(u / UNIT, u % UNIT, 0xFFF, 0, 20);
    AndOnes(u / UNIT, 12);
    AndZero(u % UNIT);
  }

  lemma SignedHigh(x: q31)
    ensures ToQ31(ToU32(x) / UNIT * UNIT) / UNIT == x / UNIT && ToU32(x) % UNIT == x % UNIT
  {
  }

  /** arm_linear_interp_q15. */
  function Interpolate(table: seq<q15>, x: q31): (y: q15)
    requires 1 <= |table| <= 0x8000_0000
  {
    InputSplits(x);
    var index := Index(x);
    if index >= |table| - 1 then table[|table| - 1]
    else if index < 0 then table[0]
    else
      Between(table[index], table[index + 1], Fract(x));
      Weighted(table[index], table[index + 1], Fract(x)) / UNIT
  }

  /** What a whole step's weight of FULL / UNIT makes of a table value: a positive one comes back one lower. */
  function Knot(v: q15): q15 { if v <= 0 then v else v - 1 }

  lemma KnotIsFullWeight(v: q15)
    ensures v * FULL / UNIT == Knot(v)
  {
  }

  function Min(a: q15, b: q15): q15 { if a <= b then a else b }

  function Max(a: q15, b: q15): q15 { if a <= b then b else a }

  /** A weighted mean lies between its neighbours' knot values. */
  lemma Between(y0: q15, y1: q15, fract: int)
    requires 0 <= fract <= FULL
    ensures Knot(Min(y0, y1)) <= Weighted(y0, y1, fract) / UNIT <= Knot(Max(y0, y1))
    ensures Min(y0, y1) - 1 <= Weighted(y0, y1, fract) / UNIT <= Max(y0, y1)
  {
    var lo, hi := Min(y0, y1), Max(y0, y1);
    MulNonNegative(y0 - lo, FULL - fract);
    MulNonNegative(y1 - lo, fract);
    MulNonNegative(hi - y0, FULL - fract);
    MulNonNegative(hi - y1, fract);
    assert lo * FULL <= Weighted(y0, y1, fract) <= hi * FULL;
    KnotIsFullWeight(lo);
    KnotIsFullWeight(hi);
  }

  /** On a rising segment the mean rises with the fraction. */
  lemma WeightedRises(y0: q15, y1: q15, fract: int, fract': int)
    requires y0 <= y1 && fract <= fract'
    ensures Weighted(y0, y1, fract) <= Weighted(y0, y1, fract')
  {
  }

  /** The input lies inside a segment of the table. */
  predicate Inside(table: seq<q15>, x: q31) { 0 <= x / UNIT < |table| - 1 }

  /** Which entries each input reads, and the bounds they give the result. */
  lemma Segment(table: seq<q15>, x: q31)
    requires 1 <= |table| <= 0x8000_0000
    ensures x / UNIT >= |table| - 1 ==> Interpolate(table, x) == table[|table| - 1]
    ensures x < 0 && |table| > 1 ==> Interpolate(table, x) == table[0]
    ensures Inside(table, x) ==>
              var y0, y1 := table[x / UNIT], table[x / UNIT + 1];
              Knot(Min(y0, y1)) <= Interpolate(table, x) <= Knot(Max(y0, y1))
  {
    InputSplits(x);
    if Inside(table, x) {
      Between(table[x / UNIT], table[x / UNIT + 1], Fract(x));
    }
  }

  /** Both ends of a segment give their own knot value, so neighbouring segments meet. */
  lemma KnotsMeet(table: seq<q15>, x: q31)
    requires 1 <= |table| <= 0x8000_0000 && Inside(table, x)
    ensures x % UNIT == 0 ==> Interpolate(table, x) == Knot(table[x / UNIT])
    ensures x % UNIT == FULL ==> Interpolate(table, x) == Knot(table[x / UNIT + 1])
  {
    InputSplits(x);
    KnotIsFullWeight(table[x / UNIT]);
    KnotIsFullWeight(table[x / UNIT + 1]);
  }

  /** Inside a segment the result is the exact straight line, off by less than one unit and a 32nd. The bounds are in
      units of 2^-20 of the result. */
  lemma Accuracy(table: seq<q15>, x: q31)
    requires 1 <= |table| <= 0x8000_0000 && Inside(table, x)
    ensures var y0, y1 := table[x / UNIT], table[x / UNIT + 1];
            var line := y0 * UNIT + (y1 - y0) * (x % UNIT);
            line - y0 - UNIT < UNIT * Interpolate(table, x) <= line - y0
  {
    InputSplits(x);
    LineError(table[x / UNIT], table[x / UNIT + 1], x % UNIT);
  }

  lemma LineError(y0: q15, y1: q15, fract: int)
    ensures var line, y := y0 * UNIT + (y1 - y0) * fract, Weighted(y0, y1, fract) / UNIT;
            line - y0 - UNIT < UNIT * y <= line - y0
  {
  }

  /** Only the first 2049 entries can be read: the 12-bit index is signed. */
  lemma Reach(table: seq<q15>, longer: seq<q15>, x: q31)
    requires 0x801 <= |table| <= |longer| <= 0x8000_0000
    requires longer[..0x801] == table[..0x801]
    ensures Interpolate(longer, x) == Interpolate(table, x)
  {
  }

  // ---------------------------------------------------------------- monotonicity

  predicate Sorted(table: seq<q15>) { forall i, j :: 0 <= i <= j < |table| ==> table[i] <= table[j] }

  lemma Rises(table: seq<q15>, x: q31, x': q31)
    requires 1 <= |table| <= 0x8000_0000 && Sorted(table)
    requires x <= x'
    requires x >= 0 || |table| == 1 || table[0] <= 0
    ensures Interpolate(table, x) <= Interpolate(table, x')
  {
    var i, i' := x / UNIT, x' / UNIT;
    Segment(table, x);
    Segment(table, x');
    if |table| == 1 {
    } else if Inside(table, x) && Inside(table, x') && i == i' {
      InputSplits(x);
      InputSplits(x');
      WeightedRises(table[i], table[i + 1], x % UNIT, x' % UNIT);
    } else if Inside(table, x) && Inside(table, x') {
      assert table[i + 1] <= table[i'];
    }
  }

  /** A non-decreasing table gives a non-decreasing curve over all inputs exactly when its first entry is not positive
      or stands alone: below zero the code returns that entry itself, at zero its knot value. */
  lemma MonotoneExactly(table: seq<q15>)
    requires 1 <= |table| <= 0x8000_0000 && Sorted(table)
    ensures (forall x: q31, x': q31 :: x <= x' ==> Interpolate(table, x) <= Interpolate(table, x'))
            <==> |table| == 1 || table[0] <= 0
  {
    if |table| == 1 || table[0] <= 0 {
      forall x: q31, x': q31 | x <= x' ensures Interpolate(table, x) <= Interpolate(table, x') {
        Rises(table, x, x');
      }
    } else {
      Segment(table, -1);
      KnotsMeet(table, 0);
      assert Interpolate(table, -1) > Interpolate(table, 0);
    }
  }

  /** From zero on the curve always rises with a non-decreasing table. */
  lemma MonotoneFromZero(table: seq<q15>)
    requires 1 <= |table| <= 0x8000_0000 && Sorted(table)
    ensures forall x: q31, x': q31 :: 0 <= x <= x' ==> Interpolate(table, x) <= Interpolate(table, x')
  {
    forall x: q31, x': q31 | 0 <= x <= x' ensures Interpolate(table, x) <= Interpolate(table, x') {
      Rises(table, x, x');
    }
  }
}
