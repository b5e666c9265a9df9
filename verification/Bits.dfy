/** C's bitwise operators on non-negative integers, and the laws that turn them into arithmetic. */
module Bits {
  import opened Words

  function Pow2(k: nat): (p: nat)
    ensures p > 0
  {
    if k == 0 then 1 else 2 * Pow2(k - 1)
  }

  function And(a: nat, b: nat): nat {
    if a == 0 || b == 0 then 0
    else (if a % 2 == 1 && b % 2 == 1 then 1 else 0) + 2 * And(a / 2, b / 2)
  }

  function Or(a: nat, b: nat): nat
    decreases a + b
  {
    if a == 0 then b
    else if b == 0 then a
    else (if a % 2 == 1 || b % 2 == 1 then 1 else 0) + 2 * Or(a / 2, b / 2)
  }

  /** The operators on 32-bit words. */
  function Shl(a: nat, k: nat): nat { (a * Pow2(k)) % WORD }

  function Shr(a: nat, k: nat): nat {
    if k == 0 then a else Shr(a / 2, k - 1)
  }

  function Not(a: nat): nat
    requires a < WORD
  {
    WORD - 1 - a
  }

  function Bit(a: nat, i: nat): nat { Shr(a, i) % 2 }

  lemma {:induction false} Pow2Add(a: nat, b: nat)
    ensures Pow2(a + b) == Pow2(a) * Pow2(b)
  {
    if a > 0 {
      Pow2Add(a - 1, b);
    }
  }

  lemma {:induction false} Pow2Increasing(a: nat, b: nat)
    requires a <= b
    ensures Pow2(a) <= Pow2(b)
  {
    if a < b {
      Pow2Increasing(a, b - 1);
    }
  }

  lemma Pow2Values()
    ensures Pow2(1) == 2 && Pow2(2) == 4 && Pow2(3) == 8 && Pow2(4) == 16 && Pow2(5) == 32 && Pow2(6) == 64
    ensures Pow2(7) == 128 && Pow2(8) == 256 && Pow2(16) == 0x1_0000 && Pow2(24) == 0x100_0000 && Pow2(32) == WORD
  {
  }

  /** Halving a value whose low part is b halves its low part. */
  lemma HalfSplit(a: nat, b: nat, k: nat)
    requires k > 0 && b < Pow2(k)
    ensures (a * Pow2(k) + b) / 2 == a * Pow2(k - 1) + b / 2
    ensures (a * Pow2(k) + b) % 2 == b % 2
    ensures b / 2 < Pow2(k - 1)
  {
  }

  /** And works on the parts above and below a bit position separately. */
  lemma {:induction false} AndSplit(a: nat, b: nat, c: nat, d: nat, k: nat)
    requires b < Pow2(k) && d < Pow2(k)
    ensures And(a * Pow2(k) + b, c * Pow2(k) + d) == And(a, c) * Pow2(k) + And(b, d)
  {
    hide And;
    var x, y := a * Pow2(k) + b, c * Pow2(k) + d;
    if k == 0 {
      AndZero(0);
    } else {
      HalfSplit(a, b, k);
      HalfSplit(c, d, k);
      AndSplit(a, b / 2, c, d / 2, k - 1);
      AndStep(x, y);
      AndStep(b, d);
      Doubled(And(a, c), k);
    }
  }

  lemma Doubled(a: nat, k: nat)
    requires k > 0
    ensures 2 * (a * Pow2(k - 1)) == a * Pow2(k)
  {
  }

  lemma AndStep(x: nat, y: nat)
    ensures And(x, y) == (if x % 2 == 1 && y % 2 == 1 then 1 else 0) + 2 * And(x / 2, y / 2)
  {
  }

  lemma OrStep(x: nat, y: nat)
    ensures Or(x, y) == (if x % 2 == 1 || y % 2 == 1 then 1 else 0) + 2 * Or(x / 2, y / 2)
  {
  }

  /** Bit by bit, And and Or are what their names say. */
  lemma {:induction false} BitwiseAnd(a: nat, b: nat, i: nat)
    ensures Bit(And(a, b), i) == if Bit(a, i) == 1 && Bit(b, i) == 1 then 1 else 0
  {
    AndStep(a, b);
    if i > 0 {
      BitwiseAnd(a / 2, b / 2, i - 1);
    }
  }

  lemma {:induction false} BitwiseOr(a: nat, b: nat, i: nat)
    ensures Bit(Or(a, b), i) == if Bit(a, i) == 1 || Bit(b, i) == 1 then 1 else 0
  {
    OrStep(a, b);
    if i > 0 {
      BitwiseOr(a / 2, b / 2, i - 1);
    }
  }

  lemma {:induction false} AndZero(a: nat)
    ensures And(a, 0) == 0 && And(0, a) == 0
  {
  }

  lemma AndMaskParts(high: nat, low: nat, k: nat)
    requires low < Pow2(k)
    ensures And(high * Pow2(k) + low, Pow2(k) - 1) == low
  {
    AndSplit(high, low, 0, Pow2(k) - 1, k);
    AndOnes(low, k);
    AndZero(high);
  }

  /** Masking with k ones keeps the low k bits. */
  lemma AndMask(a: nat, k: nat)
    ensures And(a, Pow2(k) - 1) == a % Pow2(k)
  {
    hide And, Pow2;
    var p := Pow2(k);
    AndMaskParts(a / p, a % p, k);
    assert a == a / p * p + a % p;
  }

  lemma {:induction false} AndOnes(a: nat, k: nat)
    requires a < Pow2(k)
    ensures And(a, Pow2(k) - 1) == a && And(Pow2(k) - 1, a) == a
  {
    if k > 0 {
      AndOnes(a / 2, k - 1);
      AndStep(a, Pow2(k) - 1);
      AndStep(Pow2(k) - 1, a);
    }
  }

  /** Or works on the parts above and below a bit position separately. */
  lemma {:induction false} OrSplit(a: nat, b: nat, c: nat, d: nat, k: nat)
    requires b < Pow2(k) && d < Pow2(k)
    ensures Or(a * Pow2(k) + b, c * Pow2(k) + d) == Or(a, c) * Pow2(k) + Or(b, d)
  {
    hide Or;
    var x, y := a * Pow2(k) + b, c * Pow2(k) + d;
    if k == 0 {
      OrZero(0);
    } else {
      HalfSplit(a, b, k);
      HalfSplit(c, d, k);
      OrSplit(a, b / 2, c, d / 2, k - 1);
      OrStep(x, y);
      OrStep(b, d);
      Doubled(Or(a, c), k);
    }
  }

  lemma OrZero(a: nat)
    ensures Or(a, 0) == a && Or(0, a) == a
  {
  }

  /** Or of parts that do not overlap is their sum. */
  lemma {:induction false} OrDisjoint(a: nat, b: nat, k: nat)
    requires b < Pow2(k)
    ensures Or(a * Pow2(k), b) == a * Pow2(k) + b
  {
    if k == 0 {
      assert b == 0;
    } else {
      HalfSplit(a, 0, k);
      HalfSplit(a, b, k);
      OrDisjoint(a, b / 2, k - 1);
      OrStep(a * Pow2(k), b);
    }
  }

  /** Shifting right is division by the power of two. */
  lemma {:induction false} ShrDivides(a: nat, k: nat)
    ensures Shr(a, k) == a / Pow2(k)
  {
    if k > 0 {
      ShrDivides(a / 2, k - 1);
      DivDiv(a, 2, Pow2(k - 1));
    }
  }

  lemma DivDiv(a: nat, b: nat, c: nat)
    requires b > 0 && c > 0
    ensures b * c > 0 && a / b / c == a / (b * c)
  {
    var q, r := a / (b * c), a % (b * c);
    assert a == q * (b * c) + r;
    var s, t := r / b, r % b;
    assert a == (q * c + s) * b + t;
    DivUnique(a, b, q * c + s, t);
    MulAtLeast(s - c + 1, b);
    DivUnique(q * c + s, c, q, s);
  }

  lemma DivUnique(a: int, b: int, q: int, r: int)
    requires b > 0 && 0 <= r < b && a == q * b + r
    ensures a / b == q && a % b == r
  {
    var d := a / b - q;
    assert a == (a / b) * b + a % b;
    assert d * b == r - a % b;
    MulAtLeast(d, b);
  }

  lemma MulAtLeast(d: int, b: int)
    requires b > 0
    ensures d >= 1 ==> d * b >= b
    ensures d <= -1 ==> d * b <= -b
  {
  }

  /** Factors within bounds have a product within the bounds' product. */
  lemma ProductWithin(a: int, b: int, x: int, y: int)
    requires -x <= a <= x && -y <= b <= y
    ensures -(x * y) <= a * b <= x * y
  {
  }

  lemma MulNonNegative(a: int, b: int)
    requires a >= 0 && b >= 0
    ensures a * b >= 0
  {
  }
}
