/** Saturating arithmetic: the software intrinsics for cores without saturating instructions. */
module FixedPoint {
  import opened Bits
  import opened Words

  const Q31_MIN: int := -0x8000_0000
  const Q31_MAX: int := 0x7FFF_FFFF

  type q31 = x: int | Q31_MIN <= x <= Q31_MAX
  type q15 = x: int | -0x8000 <= x <= 0x7FFF
  type q63 = x: int | -0x8000_0000_0000_0000 <= x <= 0x7FFF_FFFF_FFFF_FFFF

  /** The cast to q31_t: the low 32 bits, read as two's complement. */
  function ToQ31(x: int): (r: q31)
    ensures Q31_MIN <= x <= Q31_MAX ==> r == x
  {
    var low := x % WORD;
    if low < 0x8000_0000 then low else low - WORD
  }

  function ToU32(x: int): uint32 { x % WORD }

  /** Arithmetic shift right: C compilers for Arm round toward minus infinity. */
  function Asr(x: int, k: nat): int { x / Pow2(k) }

  function Clamp(x: int, lo: int, hi: int): (r: int)
    requires lo <= hi
    ensures lo <= r <= hi
    ensures lo <= x <= hi ==> r == x
    ensures (x < lo ==> r == lo) && (x > hi ==> r == hi)
  {
    if x < lo then lo else if x > hi then hi else x
  }

  // ---------------------------------------------------------------- clip_q63_to_q31, QADD, QSUB

  /** 0x7FFFFFFF ^ s, for s the all-zeros or all-ones word a sign shift leaves. */
  function XorSign(s: int): int
    requires s == 0 || s == -1
  {
    if s == 0 then Q31_MAX else -1 - Q31_MAX
  }

  function ClipQ63ToQ31(x: q63): q31 {
    if ToQ31(x / WORD) != ToQ31(x) / 0x8000_0000
    then XorSign(x / 0x8000_0000_0000_0000)
    else ToQ31(x)
  }

  /** The high word equals the sign of the low word exactly when the value fits in 32 bits, so clipping saturates. */
  lemma ClipSaturates(x: q63)
    ensures ClipQ63ToQ31(x) == Clamp(x, Q31_MIN, Q31_MAX)
  {
  }

  function Qadd(x: q31, y: q31): q31 { ClipQ63ToQ31(x + y) }

  function Qsub(x: q31, y: q31): q31 { ClipQ63ToQ31(x - y) }

  lemma AddSubSaturate(x: q31, y: q31)
    ensures Qadd(x, y) == Clamp(x + y, Q31_MIN, Q31_MAX)
    ensures Qsub(x, y) == Clamp(x - y, Q31_MIN, Q31_MAX)
  {
    ClipSaturates(x + y);
    ClipSaturates(x - y);
  }

  // ---------------------------------------------------------------- SSAT and the packed emulations

  /** Saturation to y bits. */
  function Saturate(x: int, y: nat): (r: int)
    requires y >= 1
  {
    var bound: int := Pow2(y - 1);
    Clamp(x, -bound, bound - 1)
  }

  /** __SSAT: the bound is built by doubling, then the value is held within it. */
  method Ssat(x: q31, y: nat) returns (r: q31)
    requires 1 <= y <= 31
    ensures r == Saturate(x, y)
    ensures var bound: int := Pow2(y - 1);
            && (-bound <= x < bound ==> r == x)
            && (x < -bound ==> r == -bound)
            && (x >= bound ==> r == bound - 1)
  {
    Pow2Bound(y - 1);
    r := x;
    var posMax: q31 := 1;
    var i := 0;
    while i < y - 1
      invariant 0 <= i <= y - 1
      invariant posMax == Pow2(i)
    {
      Pow2Increasing(i + 1, y - 1);
      posMax := posMax * 2;
      i := i + 1;
    }
    if r > 0 {
      posMax := posMax - 1;
      if r > posMax {
        r := posMax;
      }
    } else {
      var negMin: q31 := -posMax;
      if r < negMin {
        r := negMin;
      }
    }
  }

  lemma Pow2Bound(k: nat)
    requires k <= 30
    ensures Pow2(k) <= 0x4000_0000
  {
    hide Pow2;
    Pow2Increasing(k, 30);
    Pow2Add(16, 14);
    Pow2Add(8, 6);
    Pow2Values();
  }

  function Signed8(b: int): int { if b < 128 then b else b - 256 }

  function Signed16(h: int): int { if h < 0x8000 then h else h - 0x1_0000 }

  /** The i-th byte of a word, and its i-th half, as signed numbers. */
  function SByte(w: uint32, i: nat): int
    requires i < 4
  {
    Signed8((if i == 0 then w else if i == 1 then w / 256 else if i == 2 then w / 0x1_0000 else w / 0x100_0000) % 256)
  }

  function SHalf(w: uint32, i: nat): int
    requires i < 2
  {
    Signed16((if i == 0 then w else w / 0x1_0000) % 0x1_0000)
  }

  /** ((q31_t)x << left) >> right. */
  function Field(x: uint32, left: nat, right: nat): int {
    Asr(ToQ31(ToQ31(x) * Pow2(left)), right)
  }

  lemma ToQ31Wraps(a: int, n: int)
    ensures ToQ31(a + n * WORD) == ToQ31(a)
  {
  }

  /** A field of `size` values moved to the top of the word and back down comes back sign-extended. */
  lemma FieldExtends(x: uint32, low: int, field: int, high: int, unit: nat, size: nat, left: nat, right: nat)
    requires right * size == WORD && left * unit == right && size % 2 == 0 && left > 0 && right > 0
    requires 0 <= low < unit && 0 <= field < size
    requires x == (high * size + field) * unit + low
    ensures ToQ31(ToQ31(x) * left) / right == if field < size / 2 then field else field - size
  {
    var sign := if x < 0x8000_0000 then 0 else 1;
    var top := field * right + low * left;
    assert ToQ31(x) * left == top + (high - sign * left) * WORD by {
      Regroup(high, size, field, unit, low, sign, left, right);
    }
    ToQ31Wraps(top, high - sign * left);
    TopBounds(low, field, unit, size, left, right);
    TopField(low * left, field, size, right);
  }

  lemma TopField(rest: int, field: int, size: int, right: int)
    requires right * size == WORD && right > 0 && 0 <= rest < right && size % 2 == 0 && 0 <= field < size
    requires field < size / 2 ==> 0 <= field * right + rest < 0x8000_0000
    requires field >= size / 2 ==> 0x8000_0000 <= field * right + rest < WORD
    ensures ToQ31(field * right + rest) / right == if field < size / 2 then field else field - size
  {
    if field < size / 2 {
      DivUnique(field * right + rest, right, field, rest);
    } else {
      assert (field - size) * right == field * right - WORD;
      DivUnique(field * right + rest - WORD, right, field - size, rest);
    }
  }

  lemma Regroup(high: int, size: int, field: int, unit: int, low: int, sign: int, left: int, right: int)
    requires right * size == WORD && left * unit == right
    ensures ((high * size + field) * unit + low - sign * WORD) * left ==
            field * right + low * left + (high - sign * left) * WORD
  {
  }

  lemma TopBounds(low: int, field: int, unit: int, size: int, left: int, right: int)
    requires right * size == WORD && left * unit == right && size % 2 == 0 && left > 0 && right > 0
    requires 0 <= low < unit && 0 <= field < size
    ensures 0 <= low * left < right
    ensures field < size / 2 ==> 0 <= field * right + low * left < 0x8000_0000
    ensures field >= size / 2 ==> 0x8000_0000 <= field * right + low * left < WORD
  {
    assert low * left <= (unit - 1) * left;
    assert (size / 2) * right == 0x8000_0000;
    if field < size / 2 {
      assert field * right <= (size / 2 - 1) * right;
    } else {
      assert field * right >= (size / 2) * right;
      assert field * right <= (size - 1) * right;
    }
  }

  lemma ByteField0(x: uint32)
    ensures Field(x, 24, 24) == SByte(x, 0)
  {
    hide ToQ31;
    Pow2Values();
    FieldExtends(x, 0, x % 256, x / 256, 1, 256, 0x100_0000, 0x100_0000);
  }

  lemma ByteField1(x: uint32)
    ensures Field(x, 16, 24) == SByte(x, 1)
  {
    hide ToQ31;
    Pow2Values();
    FieldExtends(x, x % 256, x / 256 % 256, x / 0x1_0000, 256, 256, 0x1_0000, 0x100_0000);
  }

  lemma ByteField2(x: uint32)
    ensures Field(x, 8, 24) == SByte(x, 2)
  {
    hide ToQ31;
    Pow2Values();
    FieldExtends(x, x % 0x1_0000, x / 0x1_0000 % 256, x / 0x100_0000, 0x1_0000, 256, 256, 0x100_0000);
  }

  lemma ByteField3(x: uint32)
    ensures Field(x, 0, 24) == SByte(x, 3)
  {
    hide ToQ31;
    Pow2Values();
    assert Pow2(0) == 1;
    FieldExtends(x, x % 0x100_0000, x / 0x100_0000, 0, 0x100_0000, 256, 1, 0x100_0000);
  }

  lemma ByteFields(x: uint32)
    ensures Field(x, 24, 24) == SByte(x, 0)
    ensures Field(x, 16, 24) == SByte(x, 1)
    ensures Field(x, 8, 24) == SByte(x, 2)
    ensures Field(x, 0, 24) == SByte(x, 3)
  {
    ByteField0(x);
    ByteField1(x);
    ByteField2(x);
    ByteField3(x);
  }

  lemma HalfFields(x: uint32)
    ensures Field(x, 16, 16) == SHalf(x, 0)
    ensures Field(x, 0, 16) == SHalf(x, 1)
  {
    Pow2Values();
    FieldExtends(x, 0, x % 0x1_0000, x / 0x1_0000, 1, 0x1_0000, 0x1_0000, 0x1_0000);
    FieldExtends(x, x % 0x1_0000, x / 0x1_0000, 0, 0x1_0000, 0x1_0000, 1, 0x1_0000);
  }

  /** (x & mask) for the 8-bit and the 16-bit mask, on the two's complement of x. */
  function Low8(x: q31): nat { And(ToU32(x), 0xFF) }

  function Low16(x: q31): nat { And(ToU32(x), 0xFFFF) }

  lemma WrappedLow(x: q31)
    ensures ToU32(x) % 256 == x % 256 && ToU32(x) % 0x1_0000 == x % 0x1_0000
  {
    var wrap := if x >= 0 then 0 else WORD;
    assert ToU32(x) == x + wrap;
    DivUnique(ToU32(x), 256, x / 256 + wrap / 256, x % 256);
    DivUnique(ToU32(x), 0x1_0000, x / 0x1_0000 + wrap / 0x1_0000, x % 0x1_0000);
  }

  lemma LowParts(x: q31)
    ensures Low8(x) == x % 256 && Low16(x) == x % 0x1_0000
  {
    hide And, Pow2, ToU32;
    Pow2Values();
    AndMask(ToU32(x), 8);
    AndMask(ToU32(x), 16);
    WrappedLow(x);
  }

  function Pack8(r: nat, s: nat, t: nat, u: nat): nat {
    Or(Or(Or(Shl(u, 24), Shl(t, 16)), Shl(s, 8)), r)
  }

  function Pack16(r: nat, s: nat): nat { Or(Shl(s, 16), r) }

  /** Bytes or-ed into place do not disturb one another. */
  lemma Pack8Sum(r: nat, s: nat, t: nat, u: nat)
    requires r < 256 && s < 256 && t < 256 && u < 256
    ensures Pack8(r, s, t, u) == u * 0x100_0000 + t * 0x1_0000 + s * 256 + r < WORD
  {
    hide Or;
    Pow2Values();
    OrDisjoint(u, t * 0x1_0000, 24);
    OrDisjoint(u * 256 + t, s * 256, 16);
    OrDisjoint(u * 0x1_0000 + t * 256 + s, r, 8);
  }

  lemma Pack16Sum(r: nat, s: nat)
    requires r < 0x1_0000 && s < 0x1_0000
    ensures Pack16(r, s) == s * 0x1_0000 + r < WORD
  {
    hide Or;
    Pow2Values();
    OrDisjoint(s, r, 16);
  }

  /** The bytes of a word given as a sum of bytes in place. */
  lemma BytesOf(w: uint32, r: nat, s: nat, t: nat, u: nat)
    requires r < 256 && s < 256 && t < 256 && u < 256
    requires w == u * 0x100_0000 + t * 0x1_0000 + s * 256 + r
    ensures w % 256 == r && w / 256 % 256 == s && w / 0x1_0000 % 256 == t && w / 0x100_0000 == u
  {
    DivUnique(w, 0x100_0000, u, t * 0x1_0000 + s * 256 + r);
    DivUnique(w, 0x1_0000, u * 256 + t, s * 256 + r);
    DivUnique(w, 256, u * 0x1_0000 + t * 256 + s, r);
  }

  lemma Low8Back(x: q31)
    requires -128 <= x < 128
    ensures Low8(x) < 256 && Signed8(Low8(x)) == x
  {
    hide Low8;
    LowParts(x);
  }

  lemma Low16Back(x: q31)
    requires -0x8000 <= x < 0x8000
    ensures Low16(x) < 0x1_0000 && Signed16(Low16(x)) == x
  {
    hide Low16;
    LowParts(x);
  }

  /** Packing signed bytes and reading them back. */
  lemma Pack8Lanes(r: q31, s: q31, t: q31, u: q31)
    requires -128 <= r < 128 && -128 <= s < 128 && -128 <= t < 128 && -128 <= u < 128
    ensures var w := Pack8(Low8(r), Low8(s), Low8(t), Low8(u));
            w < WORD && SByte(w, 0) == r && SByte(w, 1) == s && SByte(w, 2) == t && SByte(w, 3) == u
  {
    hide Low8, Pack8, Signed8;
    Low8Back(r);
    Low8Back(s);
    Low8Back(t);
    Low8Back(u);
    Pack8Sum(Low8(r), Low8(s), Low8(t), Low8(u));
    BytesOf(Pack8(Low8(r), Low8(s), Low8(t), Low8(u)), Low8(r), Low8(s), Low8(t), Low8(u));
  }

  lemma Pack16Lanes(r: q31, s: q31)
    requires -0x8000 <= r < 0x8000 && -0x8000 <= s < 0x8000
    ensures var w := Pack16(Low16(r), Low16(s)); w < WORD && SHalf(w, 0) == r && SHalf(w, 1) == s
  {
    hide Low16, Pack16, Signed16;
    Low16Back(r);
    Low16Back(s);
    Pack16Sum(Low16(r), Low16(s));
    DivUnique(Pack16(Low16(r), Low16(s)), 0x1_0000, Low16(s), Low16(r));
  }

  /** __QADD8: four independent saturated sums. */
  method Qadd8(x: uint32, y: uint32) returns (w: uint32)
    ensures SByte(w, 0) == Clamp(SByte(x, 0) + SByte(y, 0), -128, 127)
    ensures SByte(w, 1) == Clamp(SByte(x, 1) + SByte(y, 1), -128, 127)
    ensures SByte(w, 2) == Clamp(SByte(x, 2) + SByte(y, 2), -128, 127)
    ensures SByte(w, 3) == Clamp(SByte(x, 3) + SByte(y, 3), -128, 127)
  {
    hide Pow2, Field, Low8, Pack8;
    Pow2Values();
    ByteFields(x);
    ByteFields(y);
    var r := Ssat(Field(x, 24, 24) + Field(y, 24, 24), 8);
    var s := Ssat(Field(x, 16, 24) + Field(y, 16, 24), 8);
    var t := Ssat(Field(x, 8, 24) + Field(y, 8, 24), 8);
    var u := Ssat(Field(x, 0, 24) + Field(y, 0, 24), 8);
    Pack8Lanes(r, s, t, u);
    w := Pack8(Low8(r), Low8(s), Low8(t), Low8(u));
  }

  /** __QSUB8: four independent saturated differences. */
  method Qsub8(x: uint32, y: uint32) returns (w: uint32)
    ensures SByte(w, 0) == Clamp(SByte(x, 0) - SByte(y, 0), -128, 127)
    ensures SByte(w, 1) == Clamp(SByte(x, 1) - SByte(y, 1), -128, 127)
    ensures SByte(w, 2) == Clamp(SByte(x, 2) - SByte(y, 2), -128, 127)
    ensures SByte(w, 3) == Clamp(SByte(x, 3) - SByte(y, 3), -128, 127)
  {
    hide Pow2, Field, Low8, Pack8;
    Pow2Values();
    ByteFields(x);
    ByteFields(y);
    var r := Ssat(Field(x, 24, 24) - Field(y, 24, 24), 8);
    var s := Ssat(Field(x, 16, 24) - Field(y, 16, 24), 8);
    var t := Ssat(Field(x, 8, 24) - Field(y, 8, 24), 8);
    var u := Ssat(Field(x, 0, 24) - Field(y, 0, 24), 8);
    Pack8Lanes(r, s, t, u);
    w := Pack8(Low8(r), Low8(s), Low8(t), Low8(u));
  }

  /** __QADD16. */
  method Qadd16(x: uint32, y: uint32) returns (w: uint32)
    ensures SHalf(w, 0) == Clamp(SHalf(x, 0) + SHalf(y, 0), -0x8000, 0x7FFF)
    ensures SHalf(w, 1) == Clamp(SHalf(x, 1) + SHalf(y, 1), -0x8000, 0x7FFF)
  {
    hide Pow2, Field, Low16, Pack16;
    HalfBound();
    HalfFields(x);
    HalfFields(y);
    var r := Ssat(Field(x, 16, 16) + Field(y, 16, 16), 16);
    var s := Ssat(Field(x, 0, 16) + Field(y, 0, 16), 16);
    Pack16Lanes(r, s);
    w := Pack16(Low16(r), Low16(s));
  }

  /** __QSUB16. */
  method Qsub16(x: uint32, y: uint32) returns (w: uint32)
    ensures SHalf(w, 0) == Clamp(SHalf(x, 0) - SHalf(y, 0), -0x8000, 0x7FFF)
    ensures SHalf(w, 1) == Clamp(SHalf(x, 1) - SHalf(y, 1), -0x8000, 0x7FFF)
  {
    hide Pow2, Field, Low16, Pack16;
    HalfBound();
    HalfFields(x);
    HalfFields(y);
    var r := Ssat(Field(x, 16, 16) - Field(y, 16, 16), 16);
    var s := Ssat(Field(x, 0, 16) - Field(y, 0, 16), 16);
    Pack16Lanes(r, s);
    w := Pack16(Low16(r), Low16(s));
  }

  /** __QASX: difference of x's low and y's high half below, sum of x's high and y's low half above. */
  method Qasx(x: uint32, y: uint32) returns (w: uint32)
    ensures SHalf(w, 0) == Clamp(SHalf(x, 0) - SHalf(y, 1), -0x8000, 0x7FFF)
    ensures SHalf(w, 1) == Clamp(SHalf(x, 1) + SHalf(y, 0), -0x8000, 0x7FFF)
  {
    hide Pow2, Field, Low16, Pack16;
    HalfBound();
    HalfFields(x);
    HalfFields(y);
    var r := Ssat(Field(x, 16, 16) - Field(y, 0, 16), 16);
    var s := Ssat(Field(x, 0, 16) + Field(y, 16, 16), 16);
    Pack16Lanes(r, s);
    w := Pack16(Low16(r), Low16(s));
  }

  /** __QSAX: sum of x's low and y's high half below, difference of x's high and y's low half above. */
  method Qsax(x: uint32, y: uint32) returns (w: uint32)
    ensures SHalf(w, 0) == Clamp(SHalf(x, 0) + SHalf(y, 1), -0x8000, 0x7FFF)
    ensures SHalf(w, 1) == Clamp(SHalf(x, 1) - SHalf(y, 0), -0x8000, 0x7FFF)
  {
    hide Pow2, Field, Low16, Pack16;
    HalfBound();
    HalfFields(x);
    HalfFields(y);
    var r := Ssat(Field(x, 16, 16) + Field(y, 0, 16), 16);
    var s := Ssat(Field(x, 0, 16) - Field(y, 16, 16), 16);
    Pack16Lanes(r, s);
    w := Pack16(Low16(r), Low16(s));
  }

  lemma HalfBound()
    ensures Pow2(15) == 0x8000
  {
    Pow2Add(8, 7);
    Pow2Values();
  }
}
