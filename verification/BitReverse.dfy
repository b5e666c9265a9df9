/** The software bit reversal for cores without a reversal instruction. */
module BitReverse {
  import opened Bits
  import opened Words

  /** The low n bits of x in opposite order. */
  function Reversed(x: nat, n: nat): (r: nat)
    ensures r < Pow2(n)
  {
    if n == 0 then 0
    else
      assert Pow2(n) == 2 * Pow2(n - 1);
      (if x % 2 == 1 then Pow2(n - 1) else 0) + Reversed(x / 2, n - 1)
  }

  /** One more bit joins at the low end. */
  lemma {:induction false} ReversedSnoc(x: nat, n: nat)
    ensures Reversed(x, n + 1) == 2 * Reversed(x, n) + Bit(x, n)
  {
    if n > 0 {
      ReversedSnoc(x / 2, n - 1);
    }
  }

  lemma {:induction false} ReversedTail(x: nat, m: nat, n: nat)
    requires m <= n && Shr(x, m) == 0
    ensures Reversed(x, n) == Reversed(x, m) * Pow2(n - m)
  {
    hide Reversed, Pow2, Shr;
    if m < n {
      ReversedTail(x, m, n - 1);
      ReversedSnoc(x, n - 1);
      ShrZero(x, m, n - 1);
      var r, k := Reversed(x, m), n - m;
      assert Reversed(x, n - 1) == r * Pow2(k - 1);
      Doubled(r, k);
    } else {
      Pow2Zero();
    }
  }

  lemma Pow2Zero()
    ensures Pow2(0) == 1
  {
  }

  lemma {:induction false} ShrZero(x: nat, m: nat, n: nat)
    requires m <= n && Shr(x, m) == 0
    ensures Shr(x, n) == 0
  {
    if m > 0 {
      ShrZero(x / 2, m - 1, n - 1);
    } else {
      ZeroShr(n);
    }
  }

  lemma {:induction false} ZeroShr(n: nat)
    ensures Shr(0, n) == 0
  {
    if n > 0 {
      ZeroShr(n - 1);
    }
  }

  lemma {:induction false} ShrSnoc(x: nat, k: nat)
    ensures Shr(x, k + 1) == Shr(x, k) / 2
  {
    if k > 0 {
      ShrSnoc(x / 2, k - 1);
    }
  }

  lemma {:induction false} ShrSmall(x: nat, k: nat)
    requires x < Pow2(k)
    ensures Shr(x, k) == 0
  {
    if k > 0 {
      ShrSmall(x / 2, k - 1);
    }
  }

  /** Only the low n bits matter. */
  lemma {:induction false} ReversedLow(a: nat, w: nat, n: nat)
    requires w < Pow2(n)
    ensures Reversed(a * Pow2(n) + w, n) == Reversed(w, n)
    ensures Shr(a * Pow2(n) + w, n) == a
  {
    if n > 0 {
      HalfSplit(a, w, n);
      ReversedLow(a, w / 2, n - 1);
    }
  }

  /** Reversing twice gives the word back. */
  lemma {:induction false} ReversedTwice(x: nat, n: nat)
    requires x < Pow2(n)
    ensures Reversed(Reversed(x, n), n) == x
  {
    if n > 0 {
      var w, b := Reversed(x / 2, n - 1), x % 2;
      ReversedTwice(x / 2, n - 1);
      assert Reversed(x, n) == b * Pow2(n - 1) + w;
      ReversedLow(b, w, n - 1);
      ReversedSnoc(Reversed(x, n), n - 1);
    }
  }

  /** Bit i lands at position n - 1 - i. */
  lemma {:induction false} ReversedBit(x: nat, n: nat, i: nat)
    requires i < n
    ensures Bit(Reversed(x, n), n - 1 - i) == Bit(x, i)
  {
    var w, b := Reversed(x / 2, n - 1), x % 2;
    assert Reversed(x, n) == b * Pow2(n - 1) + w;
    if i == 0 {
      ReversedLow(b, w, n - 1);
    } else {
      ReversedBit(x / 2, n - 1, i - 1);
      LowBit(b, w, n - 1, n - 1 - i);
    }
  }

  lemma {:induction false} LowBit(a: nat, w: nat, n: nat, i: nat)
    requires i < n && w < Pow2(n)
    ensures Bit(a * Pow2(n) + w, i) == Bit(w, i)
  {
    HalfSplit(a, w, n);
    if i > 0 {
      LowBit(a, w / 2, n - 1, i - 1);
    }
  }

  /** Shifting one bit in at the low end of a word loses at most a multiple of 2^32. */
  lemma ShiftIn(word: uint32, b: nat) returns (carry: nat)
    requires b < 2
    ensures Or(Shl(word, 1), b) < WORD
    ensures Or(Shl(word, 1), b) == 2 * word + b - carry * WORD
  {
    Pow2Values();
    carry := word / 0x8000_0000;
    var low := word % 0x8000_0000;
    assert Shl(word, 1) == low * 2;
    OrDisjoint(low, b, 1);
  }

  /** The part above the low m bits after one shift. */
  lemma HighAfter(word: int, high: nat, low: int, m: nat, b: nat, carry: nat) returns (high': nat)
    requires m <= 31 && b < 2 && 0 <= low < Pow2(m) && word == high * Pow2(m) + low
    requires 2 * word + b - carry * WORD >= 0
    ensures 2 * word + b - carry * WORD == high' * Pow2(m + 1) + (2 * low + b)
  {
    hide Pow2;
    Pow2Double(m);
    Pow2Complement(m);
    var h := high - carry * Pow2(31 - m);
    HighEquation(high, carry, Pow2(m), Pow2(31 - m));
    assert 2 * word + b - carry * WORD == h * Pow2(m + 1) + (2 * low + b);
    MulAtLeast(h, Pow2(m + 1));
    high' := h;
  }

  lemma Pow2Double(m: nat)
    ensures Pow2(m + 1) == 2 * Pow2(m)
  {
  }

  lemma Pow2Complement(m: nat)
    requires m <= 31
    ensures 2 * Pow2(m) * Pow2(31 - m) == WORD
  {
    Pow2Add(m, 31 - m);
    Pow2Values();
    Pow2Double(31);
  }

  lemma HighEquation(high: int, carry: int, p: int, c: int)
    requires 2 * p * c == WORD
    ensures (high - carry * c) * (2 * p) == 2 * (high * p) - carry * WORD
  {
  }

  /** The last shift keeps the low part and drops the rest. */
  lemma LastShift(high: nat, low: nat, m: nat)
    requires m <= 32 && low < Pow2(m)
    ensures Shl(high * Pow2(m) + low, 32 - m) == low * Pow2(32 - m) < WORD
  {
    hide Pow2;
    var p, c := Pow2(m), Pow2(32 - m);
    Pow2Add(m, 32 - m);
    Pow2Values();
    MulBelow(low, p, c);
    Distribute(high, p, low, c);
    DivUnique((high * p + low) * c, WORD, high, low * c);
  }

  lemma Distribute(high: int, p: int, low: int, c: int)
    ensures (high * p + low) * c == high * (p * c) + low * c
  {
  }

  lemma MulBelow(r: nat, p: nat, c: nat)
    requires r < p && c > 0
    ensures r * c < p * c
  {
  }

  /** __RBIT: the loop stops as soon as no set bits are left, and the last shift makes up for it. */
  method Rbit(value: uint32) returns (result: uint32)
    ensures result == Reversed(value, 32)
    ensures forall i: nat | i < 32 :: Bit(result, 31 - i) == Bit(value, i)
  {
    hide And, Or, Shr, Shl, Pow2, Reversed;
    var s: nat := 31;
    result := value;
    var v := value / 2;
    ghost var high := value / 2;
    FirstBit(value);
    while v != 0
      invariant 0 <= s <= 31 && v == Shr(value, 32 - s)
      invariant result == high * Pow2(32 - s) + Reversed(value, 32 - s)
      decreases v
    {
      ghost var m := 32 - s;
      assert v % 2 == Bit(value, m);
      if s == 0 {
        WordShifted(value);
        assert false;
      }
      AndOne(v);
      ReversedSnoc(value, m);
      ShrSnoc(value, m);
      ghost var carry := ShiftIn(result, v % 2);
      high := HighAfter(result, high, Reversed(value, m), m, v % 2, carry);
      result := Or(Shl(result, 1), And(v, 1));
      s := s - 1;
      v := v / 2;
    }
    ReversedTail(value, 32 - s, 32);
    LastShift(high, Reversed(value, 32 - s), 32 - s);
    result := Shl(result, s);
    forall i: nat | i < 32 ensures Bit(result, 31 - i) == Bit(value, i) {
      ReversedBit(value, 32, i);
    }
  }

  lemma FirstBit(value: nat)
    ensures Shr(value, 1) == value / 2
    ensures value == value / 2 * Pow2(1) + Reversed(value, 1)
  {
  }

  lemma WordShifted(value: uint32)
    ensures Shr(value, 32) == 0
  {
    Pow2Values();
    ShrSmall(value, 32);
  }

  lemma AndOne(v: nat)
    ensures And(v, 1) == v % 2
  {
  }

  /** Applying __RBIT twice is the identity on words. */
  lemma RbitTwice(value: uint32)
    ensures Reversed(Reversed(value, 32), 32) == value
  {
    Pow2Values();
    ReversedTwice(value, 32);
  }
}
