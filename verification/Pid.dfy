/** The Q15 PID controller: the incremental form the code runs, against the positional law it stands for. */
module Pid {
  import opened Bits
  import opened FixedPoint

  datatype Gains = Gains(a0: q15, a1: q15, a2: q15)

  /** The two previous inputs and the previous output. */
  datatype State = State(x1: q15, x2: q15, y: q15)

  const ONE: int := 0x8000

  /** The accumulator before scaling: the gained inputs plus the previous output in 2.30 format. */
  function Acc(g: Gains, s: State, x: q15): int {
    g.a0 * x + g.a1 * s.x1 + g.a2 * s.x2 + s.y * ONE
  }

  function Next(g: Gains, s: State, x: q15): State {
    HalfBound();
    State(x, s.x1, Saturate(Acc(g, s, x) / ONE, 16))
  }

  lemma ProductBound(a: q15, b: q15)
    ensures -0x4000_0000 <= a * b <= 0x4000_0000
  {
    ProductWithin(a, b, ONE, ONE);
  }

  /** The accumulator never leaves the range the saturation is applied to. */
  lemma AccBound(g: Gains, s: State, x: q15)
    ensures -0x1_0000_0000 <= Acc(g, s, x) <= 0x1_0000_0000
    ensures Q31_MIN <= Acc(g, s, x) / ONE <= Q31_MAX
  {
    ProductBound(g.a0, x);
    ProductBound(g.a1, s.x1);
    ProductBound(g.a2, s.x2);
  }

  class Controller {
    var gains: Gains
    const state: array<q15>

    ghost predicate Valid() { state.Length == 3 }

    ghost function Contents(): State
      requires Valid()
      reads state
    {
      State(state[0], state[1], state[2])
    }

    constructor (gains: Gains)
      ensures Valid() && fresh(state) && this.gains == gains && Contents() == State(0, 0, 0)
    {
      this.gains := gains;
      state := new q15[3] (_ => 0);
    }

    /** arm_pid_q15: the sum of the gained inputs and the previous output, rounded down and held within 16 bits,
        becomes the output, and the inputs move on by one. */
    method Process(x: q15) returns (out: q15)
      requires Valid()
      modifies state
      ensures Contents() == Next(gains, old(Contents()), x)
      ensures var y: int := old(state[2]);
              var v := (gains.a0 * x + gains.a1 * old(state[0]) + gains.a2 * old(state[1]) + y * 0x8000) / 0x8000;
              out == if v > 0x7FFF then 0x7FFF else if v < -0x8000 then -0x8000 else v
      ensures state[0] == x && state[1] == old(state[0]) && state[2] == out
    {
      HalfBound();
      AccBound(gains, Contents(), x);
      var acc: q63 := 0;
      ProductBound(gains.a0, x);
      ProductBound(gains.a1, state[0]);
      ProductBound(gains.a2, state[1]);
      acc := gains.a0 * x;
      acc := acc + gains.a1 * state[0];
      acc := acc + gains.a2 * state[1];
      acc := acc + state[2] * ONE;
      out := Ssat(acc / ONE, 16);
      state[1] := state[0];
      state[0] := x;
      state[2] := out;
    }
  }

  // ---------------------------------------------------------------- the positional law

  /** The state after a sequence of inputs, from rest. */
  function Run(g: Gains, xs: seq<q15>): State {
    if xs == [] then State(0, 0, 0) else Next(g, Run(g, xs[..|xs| - 1]), xs[|xs| - 1])
  }

  function Total(xs: seq<q15>): int {
    if xs == [] then 0 else Total(xs[..|xs| - 1]) + xs[|xs| - 1]
  }

  function Last(xs: seq<q15>): q15 { if xs == [] then 0 else xs[|xs| - 1] }

  function Previous(xs: seq<q15>): q15 { if |xs| < 2 then 0 else xs[|xs| - 2] }

  /** Proportional, integral and derivative action on the whole history. */
  function Positional(kp: int, ki: int, kd: int, xs: seq<q15>): int {
    kp * Last(xs) + ki * Total(xs) + kd * (Last(xs) - Previous(xs))
  }

  /** No step of the run had to be held within the output range. */
  predicate Unsaturated(g: Gains, xs: seq<q15>) {
    xs != [] ==>
      && Unsaturated(g, xs[..|xs| - 1])
      && -0x8000 <= Acc(g, Run(g, xs[..|xs| - 1]), xs[|xs| - 1]) / ONE <= 0x7FFF
  }

  lemma Remembered(g: Gains, xs: seq<q15>)
    ensures Run(g, xs).x1 == Last(xs) && Run(g, xs).x2 == Previous(xs)
  {
  }

  /** Every output of a run, saturated or not: the exact sum of the gained inputs and the previous output, rounded
      down, if that fits in 16 bits, and else the nearer limit. */
  lemma OutputLaw(g: Gains, xs: seq<q15>, x: q15)
    ensures var y := Run(g, xs).y;
            var v := (g.a0 * x + g.a1 * Last(xs) + g.a2 * Previous(xs) + y * 0x8000) / 0x8000;
            Run(g, xs + [x]).y == if v > 0x7FFF then 0x7FFF else if v < -0x8000 then -0x8000 else v
  {
    Remembered(g, xs);
    HalfBound();
    assert (xs + [x])[..|xs|] == xs;
  }

  /** One increment of the positional law is the accumulator's gained inputs. */
  lemma Increment(kp: int, ki: int, kd: int, x: int, x1: int, x2: int, total: int)
    ensures kp * x + ki * (total + x) + kd * (x - x1) ==
            kp * x1 + ki * total + kd * (x1 - x2) + ((kp + ki + kd) * x + (-kp - 2 * kd) * x1 + kd * x2)
  {
  }

  /** What saturation took from the outputs of a run, in units of the output. */
  function Held(g: Gains, xs: seq<q15>): int {
    if xs == [] then 0
    else
      var before := xs[..|xs| - 1];
      Held(g, before) + Acc(g, Run(g, before), xs[|xs| - 1]) / ONE - Run(g, xs).y
  }

  /** The fractions of a unit that the shifts of a run dropped, in units of 1 / ONE. */
  function Dropped(g: Gains, xs: seq<q15>): (d: nat)
    ensures xs == [] ==> d == 0
    ensures xs != [] ==> d < ONE * |xs|
  {
    if xs == [] then 0
    else
      var before := xs[..|xs| - 1];
      Dropped(g, before) + Acc(g, Run(g, before), xs[|xs| - 1]) % ONE
  }

  /** From rest, on every input sequence, the incremental form telescopes: the positional law is the scaled output plus
      exactly what saturation held back and rounding dropped on the way. */
  lemma {:induction false} Accounts(kp: int, ki: int, kd: int, g: Gains, xs: seq<q15>)
    requires g.a0 == kp + ki + kd && g.a1 == -kp - 2 * kd && g.a2 == kd
    ensures Positional(kp, ki, kd, xs) == 0x8000 * (Run(g, xs).y + Held(g, xs)) + Dropped(g, xs)
  {
    if xs != [] {
      var before, x := xs[..|xs| - 1], xs[|xs| - 1];
      Accounts(kp, ki, kd, g, before);
      Remembered(g, before);
      assert Last(before) == Previous(xs);
      Increment(kp, ki, kd, x, Last(before), Previous(before), Total(before));
      assert Acc(g, Run(g, before), x) == Acc(g, Run(g, before), x) / ONE * ONE + Acc(g, Run(g, before), x) % ONE;
    }
  }

  /** On every run of at least one step: the bounds that rounding leaves, with the saturation accounted for. */
  lemma Telescopes(kp: int, ki: int, kd: int, g: Gains, xs: seq<q15>)
    requires g.a0 == kp + ki + kd && g.a1 == -kp - 2 * kd && g.a2 == kd && xs != []
    ensures 0x8000 * (Run(g, xs).y + Held(g, xs)) <= Positional(kp, ki, kd, xs)
    ensures Positional(kp, ki, kd, xs) < 0x8000 * (Run(g, xs).y + Held(g, xs) + |xs|)
  {
    Accounts(kp, ki, kd, g, xs);
  }

  lemma {:induction false} NothingHeld(g: Gains, xs: seq<q15>)
    requires Unsaturated(g, xs)
    ensures Held(g, xs) == 0
  {
    if xs != [] {
      NothingHeld(g, xs[..|xs| - 1]);
      HalfBound();
    }
  }

  /** From rest and without saturation the output is the positional law, scaled, rounded down by less than one unit for
      each step taken. */
  lemma UnsaturatedLaw(kp: int, ki: int, kd: int, g: Gains, xs: seq<q15>)
    requires g.a0 == kp + ki + kd && g.a1 == -kp - 2 * kd && g.a2 == kd && xs != []
    requires Unsaturated(g, xs)
    ensures 0x8000 * Run(g, xs).y <= Positional(kp, ki, kd, xs) < 0x8000 * (Run(g, xs).y + |xs|)
  {
    Telescopes(kp, ki, kd, g, xs);
    NothingHeld(g, xs);
  }

  /** The same law on runs with saturated steps: it holds if and only if what was held back and dropped comes to less
      than one unit for each step, and not to less than nothing. */
  lemma LawAfterSaturation(kp: int, ki: int, kd: int, g: Gains, xs: seq<q15>)
    requires g.a0 == kp + ki + kd && g.a1 == -kp - 2 * kd && g.a2 == kd && xs != []
    ensures 0x8000 * Run(g, xs).y <= Positional(kp, ki, kd, xs) < 0x8000 * (Run(g, xs).y + |xs|) <==>
            0 <= 0x8000 * Held(g, xs) + Dropped(g, xs) < 0x8000 * |xs|
  {
    Accounts(kp, ki, kd, g, xs);
  }

  /** An input that breaks the law of unsaturated runs: pure integral action on three full-scale inputs. */
  lemma SaturationBreaksTheLaw() returns (g: Gains, xs: seq<q15>)
    ensures g == Gains(0x7FFF, 0, 0) && xs == [0x7FFF, 0x7FFF, 0x7FFF]
    ensures !Unsaturated(g, xs)
    ensures Positional(0, 0x7FFF, 0, xs) >= 0x8000 * (Run(g, xs).y + |xs|)
  {
    g, xs := Gains(0x7FFF, 0, 0), [0x7FFF, 0x7FFF, 0x7FFF];
    HalfBound();
    var one: seq<q15>, two: seq<q15> := [0x7FFF], [0x7FFF, 0x7FFF];
    assert one[..0] == [] && two[..1] == one && xs[..2] == two;
    assert Run(g, one) == State(0x7FFF, 0, 0x7FFE);
    assert Run(g, two) == State(0x7FFF, 0x7FFF, 0x7FFF);
    assert Total(one) == 0x7FFF && Total(two) == 2 * 0x7FFF && Total(xs) == 3 * 0x7FFF;
  }
}
