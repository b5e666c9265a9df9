/** Interrupt priorities: the group codec of Cortex-M3 and M4, and the packed byte registers of Cortex-M0+. */
module NvicPriority {
  import opened Bits
  import opened Words

  // ---------------------------------------------------------------- the codec

  /** Only the values 0 to 7 of a group are used. */
  function GroupOf(group: uint32): (g: uint32)
    ensures g == group % 8
  {
    Pow2Values();
    AndMask(group, 3);
    And(group, 7)
  }

  /** The widths of the two fields for __NVIC_PRIO_BITS == bits. */
  function PreemptBits(group: uint32, bits: uint32): uint32 {
    var g := GroupOf(group);
    if Sub32(7, g) > bits then bits else Sub32(7, g)
  }

  function SubBits(group: uint32, bits: uint32): uint32 {
    var g := GroupOf(group);
    if Add32(g, bits) < 7 then 0 else Add32(Sub32(g, 7), bits)
  }

  /** (1UL << k) - 1UL. */
  function Ones(k: uint32): uint32 { Sub32(Shl(1, k), 1) }

  /** NVIC_EncodePriority. */
  function Encode(group: uint32, preempt: uint32, sub: uint32, bits: uint32): nat {
    Or(Shl(And(preempt, Ones(PreemptBits(group, bits))), SubBits(group, bits)),
       And(sub, Ones(SubBits(group, bits))))
  }

  /** NVIC_DecodePriority: the preemption priority and the subpriority. */
  function Decode(priority: uint32, group: uint32, bits: uint32): (nat, nat) {
    (And(Shr(priority, SubBits(group, bits)), Ones(PreemptBits(group, bits))),
     And(priority, Ones(SubBits(group, bits))))
  }

  /** The two fields share the implemented bits, although g - 7 wraps below zero on the way; the preemption field has
      7 - g bits unless fewer are implemented. */
  lemma FieldWidths(group: uint32, bits: uint32)
    requires 1 <= bits <= 8
    ensures PreemptBits(group, bits) + SubBits(group, bits) == bits
    ensures PreemptBits(group, bits) == if 7 - group % 8 < bits then 7 - group % 8 else bits
  {
  }

  lemma OnesValue(k: uint32)
    requires k <= 8
    ensures Ones(k) == Pow2(k) - 1 && Pow2(k) <= 256
  {
    hide Pow2;
    Pow2Increasing(k, 8);
    Pow2Values();
  }

  /** Encoding puts the preemption priority, cut to its width, above the subpriority, cut to its own. */
  lemma EncodeValue(group: uint32, preempt: uint32, sub: uint32, bits: uint32)
    requires 1 <= bits <= 8
    ensures var p, s := Pow2(PreemptBits(group, bits)), Pow2(SubBits(group, bits));
            Encode(group, preempt, sub, bits) == (preempt % p) * s + sub % s < Pow2(bits) <= 256
  {
    hide And, Or, Pow2, PreemptBits, SubBits, Ones;
    FieldWidths(group, bits);
    var pb, sb := PreemptBits(group, bits), SubBits(group, bits);
    OnesValue(pb);
    OnesValue(sb);
    OnesValue(bits);
    AndMask(preempt, pb);
    AndMask(sub, sb);
    Pow2Add(pb, sb);
    FieldsFit(preempt % Pow2(pb), sub % Pow2(sb), Pow2(pb), Pow2(sb));
    PutTogether(preempt % Pow2(pb), sub % Pow2(sb), sb);
  }

  lemma PutTogether(high: nat, low: nat, k: nat)
    requires low < Pow2(k) && high * Pow2(k) < WORD
    ensures Or(Shl(high, k), low) == high * Pow2(k) + low
  {
    hide Or, Pow2;
    DivUnique(high * Pow2(k), WORD, 0, high * Pow2(k));
    OrDisjoint(high, low, k);
  }

  lemma FieldsFit(high: nat, low: nat, p: nat, s: nat)
    requires high < p && low < s
    ensures high * s + low < p * s
  {
    assert high * s <= (p - 1) * s;
  }

  lemma DecodeValue(priority: uint32, group: uint32, bits: uint32)
    requires 1 <= bits <= 8
    ensures var p, s := Pow2(PreemptBits(group, bits)), Pow2(SubBits(group, bits));
            Decode(priority, group, bits) == (priority / s % p, priority % s)
  {
    hide And, Pow2, PreemptBits, SubBits, Ones;
    FieldWidths(group, bits);
    var pb, sb := PreemptBits(group, bits), SubBits(group, bits);
    OnesValue(pb);
    OnesValue(sb);
    ShrDivides(priority, sb);
    AndMask(Shr(priority, sb), pb);
    AndMask(priority, sb);
  }

  /** Decoding an encoded priority gives both fields back, modulo their widths. */
  lemma DecodeEncode(group: uint32, preempt: uint32, sub: uint32, bits: uint32)
    requires 1 <= bits <= 8
    ensures Encode(group, preempt, sub, bits) < WORD
    ensures Decode(Encode(group, preempt, sub, bits), group, bits) ==
            (preempt % Pow2(PreemptBits(group, bits)), sub % Pow2(SubBits(group, bits)))
  {
    hide Encode, Decode, Pow2, PreemptBits, SubBits;
    EncodeValue(group, preempt, sub, bits);
    DecodeValue(Encode(group, preempt, sub, bits), group, bits);
    var p, s := Pow2(PreemptBits(group, bits)), Pow2(SubBits(group, bits));
    DivUnique(Encode(group, preempt, sub, bits), s, preempt % p, sub % s);
    DivUnique(preempt % p, p, 0, preempt % p);
  }

  /** Encoding what was decoded from an implemented priority gives the priority back. */
  lemma EncodeDecode(priority: uint32, group: uint32, bits: uint32)
    requires 1 <= bits <= 8 && priority < Pow2(bits)
    ensures var (preempt, sub) := Decode(priority, group, bits);
            preempt < WORD && sub < WORD && Encode(group, preempt, sub, bits) == priority
  {
    hide Encode, Decode, Pow2, PreemptBits, SubBits;
    var p, s := Pow2(PreemptBits(group, bits)), Pow2(SubBits(group, bits));
    FieldWidths(group, bits);
    Pow2Add(PreemptBits(group, bits), SubBits(group, bits));
    DecodeValue(priority, group, bits);
    FieldsBack(priority, p, s);
    EncodeValue(group, priority / s, priority % s, bits);
  }

  /** The two fields of a number that fits them are within their widths and make up the number. */
  lemma FieldsBack(x: nat, p: nat, s: nat)
    requires s > 0 && x < p * s
    ensures p > 0 && x / s % p == x / s <= x && x % s <= x
    ensures x / s % p * s + x % s % s == x
  {
    var high, low := x / s, x % s;
    assert x == high * s + low && low < s;
    HighBelow(x, high, low, p, s);
    DivUnique(high, p, 0, high);
    DivUnique(low, s, 0, low);
  }

  lemma HighBelow(x: nat, high: int, low: nat, p: nat, s: nat)
    requires s > 0 && x == high * s + low && low < s && x < p * s
    ensures 0 <= high < p && high <= x
  {
  }

  /** For fields within their widths, codes are ordered by preemption priority first and subpriority second. */
  lemma EncodeOrder(group: uint32, preempt: uint32, sub: uint32, preempt': uint32, sub': uint32, bits: uint32)
    requires 1 <= bits <= 8
    requires preempt < Pow2(PreemptBits(group, bits)) && preempt' < Pow2(PreemptBits(group, bits))
    requires sub < Pow2(SubBits(group, bits)) && sub' < Pow2(SubBits(group, bits))
    ensures Encode(group, preempt, sub, bits) < Encode(group, preempt', sub', bits) <==>
            preempt < preempt' || (preempt == preempt' && sub < sub')
  {
    hide Encode, Pow2, PreemptBits, SubBits;
    var p, s := Pow2(PreemptBits(group, bits)), Pow2(SubBits(group, bits));
    EncodeValue(group, preempt, sub, bits);
    EncodeValue(group, preempt', sub', bits);
    DivUnique(preempt, p, 0, preempt);
    DivUnique(preempt', p, 0, preempt');
    DivUnique(sub, s, 0, sub);
    DivUnique(sub', s, 0, sub');
    Lexicographic(preempt, sub, preempt', sub', s);
  }

  lemma Lexicographic(a: int, b: int, c: int, d: int, s: int)
    requires 0 <= b < s && 0 <= d < s
    ensures a * s + b < c * s + d <==> a < c || (a == c && b < d)
  {
    assert (c - a) * s == c * s - a * s;
    MulAtLeast(c - a, s);
  }

  // ---------------------------------------------------------------- the packed priority registers

  /** NVIC->IP and SCB->SHP, words of four priority bytes. */
  datatype Registers = Registers(ip: seq<uint32>, shp: seq<uint32>)

  predicate WellFormed(r: Registers) { |r.ip| == 8 && |r.shp| == 2 }

  /** The interrupts that have a byte: the external ones, and the core ones whose number has bit 3 set. */
  predicate HasPriority(irq: int) { -8 <= irq < 32 }

  function BitShift(irq: int): nat { And(irq % WORD, 3) * 8 }

  function ShpIdx(irq: int): nat { Shr(Sub32(Low4(irq), 8), 2) }

  function IpIdx(irq: int): nat { Shr(irq % WORD, 2) }

  function Low4(irq: int): (r: uint32)
    ensures r == irq % WORD % 16
  {
    Pow2Values();
    AndMask(irq % WORD, 4);
    And(irq % WORD, 15)
  }

  /** The byte written for a priority: its implemented bits, at the top. */
  function PriorityByte(priority: uint32, bits: uint32): nat
    requires bits <= 8
  {
    And(Shl(priority, 8 - bits), 0xFF)
  }

  /** The read-modify-write of one byte of a word. */
  function SetByte(word: uint32, shift: nat, byte: nat): nat
    requires Shl(0xFF, shift) < WORD
  {
    Or(And(word, Not(Shl(0xFF, shift))), Shl(byte, shift))
  }

  function GetByte(word: uint32, shift: nat): nat { And(Shr(word, shift), 0xFF) }

  lemma ShrTwo(x: nat)
    ensures Shr(x, 2) == x / 4
  {
    assert Shr(x, 2) == Shr(x / 2, 1) == Shr(x / 2 / 2, 0);
  }

  lemma WrapNegative(irq: int)
    requires -8 <= irq < 0
    ensures irq % WORD == irq + WORD && irq % WORD % 4 == irq % 4 && Sub32(Low4(irq), 8) == irq + 8
  {
    hide And;
  }

  /** The lane of an interrupt within its word, and its word. */
  lemma Lanes(irq: int)
    requires HasPriority(irq)
    ensures BitShift(irq) == 8 * (irq % 4)
    ensures irq >= 0 ==> IpIdx(irq) == irq / 4 < 8
    ensures irq < 0 ==> ShpIdx(irq) == irq / 4 + 2 < 2
  {
    hide And, Shr, Low4, Pow2;
    Pow2Values();
    AndMask(irq % WORD, 2);
    if irq >= 0 {
      ShrTwo(irq);
    } else {
      WrapNegative(irq);
      ShrTwo(irq + 8);
    }
  }

  lemma GetByteValue(high: nat, byte: nat, low: nat, j: nat)
    requires j < 4 && byte < 256 && low < Pow2(8 * j)
    requires (high * 256 + byte) * Pow2(8 * j) + low < WORD
    ensures GetByte((high * 256 + byte) * Pow2(8 * j) + low, 8 * j) == byte
  {
    hide And, Pow2, Shr;
    var top, p := high * 256 + byte, Pow2(8 * j);
    ShrDivides(top * p + low, 8 * j);
    DivUnique(top * p + low, p, top, low);
    Pow2Values();
    AndMask(top, 8);
    assert top % 256 == byte;
  }

  /** The mask that clears byte j has ones above and below it. */
  lemma MaskParts(j: nat) returns (ones: nat)
    requires j < 4
    ensures Shl(0xFF, 8 * j) < WORD && Not(Shl(0xFF, 8 * j)) == ones * 256 * Pow2(8 * j) + (Pow2(8 * j) - 1)
    ensures ones == Pow2(24 - 8 * j) - 1
  {
    Pow2Values();
    ones := Pow2(24 - 8 * j) - 1;
    if j == 0 {
    } else if j == 1 {
    } else if j == 2 {
    } else {
    }
  }

  lemma ClearByte(high: nat, byte: nat, low: nat, j: nat, ones: nat)
    requires j < 4 && byte < 256 && low < Pow2(8 * j) && high < Pow2(24 - 8 * j) && ones == Pow2(24 - 8 * j) - 1
    ensures And((high * 256 + byte) * Pow2(8 * j) + low, ones * 256 * Pow2(8 * j) + (Pow2(8 * j) - 1)) ==
            high * 256 * Pow2(8 * j) + low
  {
    hide And, Pow2;
    Pow2Values();
    AndSplit(high * 256 + byte, low, ones * 256, Pow2(8 * j) - 1, 8 * j);
    AndSplit(high, byte, ones, 0, 8);
    AndOnes(high, 24 - 8 * j);
    AndOnes(low, 8 * j);
    AndZero(byte);
  }

  lemma PutByte(high: nat, low: nat, j: nat, byte: nat)
    requires j < 4 && byte < 256 && low < Pow2(8 * j)
    ensures Or(high * 256 * Pow2(8 * j) + low, byte * Pow2(8 * j)) == (high * 256 + byte) * Pow2(8 * j) + low
  {
    hide Or, Pow2;
    Pow2Values();
    OrSplit(high * 256, low, byte, 0, 8 * j);
    OrDisjoint(high, byte, 8);
    OrZero(low);
  }

  lemma ByteFits(byte: nat, j: nat)
    requires j < 4 && byte < 256
    ensures Shl(byte, 8 * j) == byte * Pow2(8 * j)
  {
    Pow2Values();
    if j == 0 {
    } else if j == 1 {
    } else if j == 2 {
    } else {
    }
  }

  /** Clearing byte j and or-ing a byte in replaces byte j and leaves the bits above and below it alone. */
  lemma SetByteValue(high: nat, byte: nat, low: nat, j: nat, value: nat)
    requires j < 4 && byte < 256 && value < 256 && low < Pow2(8 * j) && high < Pow2(24 - 8 * j)
    requires (high * 256 + byte) * Pow2(8 * j) + low < WORD
    ensures Shl(0xFF, 8 * j) < WORD
    ensures SetByte((high * 256 + byte) * Pow2(8 * j) + low, 8 * j, value) ==
            (high * 256 + value) * Pow2(8 * j) + low
  {
    hide And, Or, Pow2, Shl, Not;
    var ones := MaskParts(j);
    ClearByte(high, byte, low, j, ones);
    ByteFits(value, j);
    PutByte(high, low, j, value);
  }

  /** The word with the given bytes, lowest first. */
  function WordOf(b: seq<nat>): nat
    requires |b| == 4
  {
    b[3] * 0x100_0000 + b[2] * 0x1_0000 + b[1] * 256 + b[0]
  }

  predicate AreBytes(b: seq<nat>) {
    |b| == 4 && b[0] < 256 && b[1] < 256 && b[2] < 256 && b[3] < 256
  }

  /** The parts of a word around its j-th byte. */
  function Below(b: seq<nat>, j: nat): nat
    requires |b| == 4 && j < 4
  {
    if j == 0 then 0 else if j == 1 then b[0] else if j == 2 then b[1] * 256 + b[0]
    else b[2] * 0x1_0000 + b[1] * 256 + b[0]
  }

  function Above(b: seq<nat>, j: nat): nat
    requires |b| == 4 && j < 4
  {
    if j == 0 then b[3] * 0x1_0000 + b[2] * 256 + b[1] else if j == 1 then b[3] * 256 + b[2]
    else if j == 2 then b[3] else 0
  }

  lemma AroundByte(b: seq<nat>, j: nat)
    requires AreBytes(b) && j < 4
    ensures WordOf(b) < WORD
    ensures WordOf(b) == (Above(b, j) * 256 + b[j]) * Pow2(8 * j) + Below(b, j)
    ensures Below(b, j) < Pow2(8 * j) && Above(b, j) < Pow2(24 - 8 * j)
  {
    Pow2Values();
    if j == 0 {
    } else if j == 1 {
    } else if j == 2 {
    } else {
    }
  }

  lemma ReadByte(b: seq<nat>, j: nat)
    requires AreBytes(b) && j < 4
    ensures WordOf(b) < WORD && GetByte(WordOf(b), 8 * j) == b[j]
  {
    AroundByte(b, j);
    GetByteValue(Above(b, j), b[j], Below(b, j), j);
  }

  lemma WriteByte(b: seq<nat>, j: nat, value: nat)
    requires AreBytes(b) && j < 4 && value < 256
    ensures WordOf(b) < WORD && Shl(0xFF, 8 * j) < WORD
    ensures SetByte(WordOf(b), 8 * j, value) == WordOf(b[j := value]) < WORD
  {
    hide SetByte, Pow2;
    AroundByte(b, j);
    AroundByte(b[j := value], j);
    SetByteValue(Above(b, j), b[j], Below(b, j), j, value);
  }

  lemma BytesOf(word: uint32) returns (b: seq<nat>)
    ensures AreBytes(b) && WordOf(b) == word
  {
    var rest := word / 256;
    b := [word % 256, rest % 256, rest / 256 % 256, rest / 256 / 256];
  }

  /** Writing byte j of a word changes byte j, to the value written, and no other byte. */
  lemma ByteLanes(word: uint32, j: nat, k: nat, value: nat)
    requires j < 4 && k < 4 && value < 256
    ensures Shl(0xFF, 8 * j) < WORD && SetByte(word, 8 * j, value) < WORD
    ensures GetByte(SetByte(word, 8 * j, value), 8 * k) == if j == k then value else GetByte(word, 8 * k)
  {
    hide SetByte, GetByte, Pow2;
    var b := BytesOf(word);
    WriteByte(b, j, value);
    ReadByte(b, k);
    ReadByte(b[j := value], k);
  }

  /** The byte written keeps the low bits of the priority, at its top. */
  lemma PriorityBack(priority: uint32, bits: uint32)
    requires 1 <= bits <= 8
    ensures PriorityByte(priority, bits) < 256
    ensures Shr(PriorityByte(priority, bits), 8 - bits) == priority % Pow2(bits)
    ensures PriorityByte(priority, bits) == priority % Pow2(bits) * Pow2(8 - bits)
  {
    hide And, Pow2;
    var p, c := Pow2(bits), Pow2(8 - bits);
    Pow2Values();
    Pow2Add(bits, 8 - bits);
    var low := TopBits(priority, p, c);
    WrapKeepsByte(priority * c, priority / p, low);
    AndMask(Shl(priority, 8 - bits), 8);
    ShrDivides(low, 8 - bits);
  }

  lemma TopBits(x: nat, p: nat, c: nat) returns (low: nat)
    requires p > 0 && c > 0 && p * c == 256
    ensures x * c == x / p * 256 + low && low < 256 && low / c == x % p && low == x % p * c
  {
    var q, r := x / p, x % p;
    low := r * c;
    assert x == q * p + r;
    assert x * c == q * (p * c) + r * c;
    FieldsFit(r, 0, p, c);
    DivUnique(low, c, r, 0);
  }

  lemma WrapKeepsByte(x: nat, q: int, low: nat)
    requires x == q * 256 + low && low < 256
    ensures x % WORD % 256 == low
  {
  }

  /** NVIC_SetPriority. */
  function SetRegister(r: Registers, irq: int, priority: uint32, bits: uint32): (r': Registers)
    requires WellFormed(r) && HasPriority(irq) && 1 <= bits <= 8
    ensures WellFormed(r')
  {
    Lanes(irq);
    PriorityBack(priority, bits);
    if irq < 0 then
      ByteLanes(r.shp[ShpIdx(irq)], irq % 4, 0, PriorityByte(priority, bits));
      r.(shp := r.shp[ShpIdx(irq) := SetByte(r.shp[ShpIdx(irq)], BitShift(irq), PriorityByte(priority, bits))])
    else
      ByteLanes(r.ip[IpIdx(irq)], irq % 4, 0, PriorityByte(priority, bits));
      r.(ip := r.ip[IpIdx(irq) := SetByte(r.ip[IpIdx(irq)], BitShift(irq), PriorityByte(priority, bits))])
  }

  /** NVIC_GetPriority. */
  function PriorityOf(r: Registers, irq: int, bits: uint32): nat
    requires WellFormed(r) && HasPriority(irq) && 1 <= bits <= 8
  {
    Lanes(irq);
    if irq < 0 then Shr(GetByte(r.shp[ShpIdx(irq)], BitShift(irq)), 8 - bits)
    else Shr(GetByte(r.ip[IpIdx(irq)], BitShift(irq)), 8 - bits)
  }

  /** Setting one priority sets it, modulo the implemented bits, and changes no other interrupt's, whether it shares
      the word or not and whether it is external or not. */
  lemma SetThenGet(r: Registers, irq: int, priority: uint32, other: int, bits: uint32)
    requires WellFormed(r) && HasPriority(irq) && HasPriority(other) && 1 <= bits <= 8
    ensures PriorityOf(SetRegister(r, irq, priority, bits), other, bits) ==
            if other == irq then priority % Pow2(bits) else PriorityOf(r, other, bits)
  {
    hide SetByte, GetByte, Pow2, PriorityByte, Shr;
    Lanes(irq);
    Lanes(other);
    PriorityBack(priority, bits);
    var word := if irq < 0 then r.shp[irq / 4 + 2] else r.ip[irq / 4];
    ByteLanes(word, irq % 4, other % 4, PriorityByte(priority, bits));
  }

  /** The register file after a setting, byte by byte: the byte of external interrupt 4k + j is byte j of IP[k], that
      of core interrupt 4k + j - 8 is byte j of SHP[k]; the one set holds the implemented bits of the priority at its
      top and zeros below, and every other byte is as before. */
  lemma SetBytes(r: Registers, irq: int, priority: uint32, bits: uint32, k: nat, j: nat)
    requires WellFormed(r) && HasPriority(irq) && 1 <= bits <= 8 && j < 4
    ensures var r', byte := SetRegister(r, irq, priority, bits), priority % Pow2(bits) * Pow2(8 - bits);
            && (k < 8 ==> GetByte(r'.ip[k], 8 * j) == if irq == 4 * k + j then byte else GetByte(r.ip[k], 8 * j))
            && (k < 2 ==> GetByte(r'.shp[k], 8 * j) == if irq == 4 * k + j - 8 then byte else GetByte(r.shp[k], 8 * j))
  {
    hide SetByte, GetByte, Pow2, PriorityByte, Shr, BitShift, IpIdx, ShpIdx;
    Lanes(irq);
    PriorityBack(priority, bits);
    var word := if irq < 0 then r.shp[irq / 4 + 2] else r.ip[irq / 4];
    ByteLanes(word, irq % 4, j, PriorityByte(priority, bits));
  }

  /** What is read is the implemented bits of the interrupt's own byte. */
  lemma ReadBytes(r: Registers, irq: int, bits: uint32)
    requires WellFormed(r) && HasPriority(irq) && 1 <= bits <= 8
    ensures irq >= 0 ==> PriorityOf(r, irq, bits) == GetByte(r.ip[irq / 4], 8 * (irq % 4)) / Pow2(8 - bits)
    ensures irq < 0 ==> PriorityOf(r, irq, bits) == GetByte(r.shp[irq / 4 + 2], 8 * (irq % 4)) / Pow2(8 - bits)
  {
    hide GetByte, Pow2, BitShift, IpIdx, ShpIdx;
    Lanes(irq);
    var byte := if irq < 0 then GetByte(r.shp[irq / 4 + 2], 8 * (irq % 4)) else GetByte(r.ip[irq / 4], 8 * (irq % 4));
    ShrDivides(byte, 8 - bits);
  }

  datatype Setting = Setting(irq: int, priority: uint32)

  predicate AllHavePriority(calls: seq<Setting>) {
    forall i | 0 <= i < |calls| :: HasPriority(calls[i].irq)
  }

  function SetAll(r: Registers, calls: seq<Setting>, bits: uint32): (r': Registers)
    requires WellFormed(r) && AllHavePriority(calls) && 1 <= bits <= 8
    ensures WellFormed(r')
  {
    if calls == [] then r
    else SetRegister(SetAll(r, calls[..|calls| - 1], bits), calls[|calls| - 1].irq, calls[|calls| - 1].priority, bits)
  }

  /** Over any sequence of settings, each interrupt reads as the last priority set for it, or as before if none was. */
  lemma {:induction false} LastSettingWins(r: Registers, calls: seq<Setting>, irq: int, bits: uint32)
    requires WellFormed(r) && AllHavePriority(calls) && HasPriority(irq) && 1 <= bits <= 8
    ensures (forall i | 0 <= i < |calls| :: calls[i].irq != irq) ==>
              PriorityOf(SetAll(r, calls, bits), irq, bits) == PriorityOf(r, irq, bits)
    ensures forall i | 0 <= i < |calls| ::
              calls[i].irq == irq && (forall j | i < j < |calls| :: calls[j].irq != irq) ==>
              PriorityOf(SetAll(r, calls, bits), irq, bits) == calls[i].priority % Pow2(bits)
  {
    hide PriorityOf, SetRegister, Pow2, HasPriority;
    if calls != [] {
      var before, last := calls[..|calls| - 1], calls[|calls| - 1];
      LastSettingWins(r, before, irq, bits);
      SetThenGet(SetAll(r, before, bits), last.irq, last.priority, irq, bits);
      forall i | 0 <= i < |calls| && calls[i].irq == irq && (forall j | i < j < |calls| :: calls[j].irq != irq)
        ensures PriorityOf(SetAll(r, calls, bits), irq, bits) == calls[i].priority % Pow2(bits)
      {
        if i < |calls| - 1 {
          assert before[i] == calls[i];
        }
      }
    }
  }

  /** The register file the drivers write to. */
  class Nvic {
    const bits: uint32
    const ip: array<uint32>
    const shp: array<uint32>

    ghost predicate Valid()
    {
      1 <= bits <= 8 && ip != shp && ip.Length == 8 && shp.Length == 2
    }

    ghost function Contents(): (r: Registers)
      requires Valid()
      reads ip, shp
      ensures WellFormed(r)
    {
      Registers(ip[..], shp[..])
    }

    constructor (bits: uint32)
      requires 1 <= bits <= 8
      ensures Valid() && this.bits == bits && fresh(ip) && fresh(shp)
    {
      this.bits := bits;
      ip := new uint32[8];
      shp := new uint32[2];
      new;
    }

    /** NVIC_SetPriority: one word is read, modified and written back. */
    method SetPriority(irq: int, priority: uint32)
      requires Valid() && HasPriority(irq)
      modifies ip, shp
      ensures Contents() == SetRegister(old(Contents()), irq, priority, bits)
    {
      hide SetByte, PriorityByte, Pow2, BitShift, ShpIdx, IpIdx;
      Lanes(irq);
      PriorityBack(priority, bits);
      if irq < 0 {
        ByteLanes(shp[ShpIdx(irq)], irq % 4, 0, PriorityByte(priority, bits));
        shp[ShpIdx(irq)] := SetByte(shp[ShpIdx(irq)], BitShift(irq), PriorityByte(priority, bits));
      } else {
        ByteLanes(ip[IpIdx(irq)], irq % 4, 0, PriorityByte(priority, bits));
        ip[IpIdx(irq)] := SetByte(ip[IpIdx(irq)], BitShift(irq), PriorityByte(priority, bits));
      }
    }

    /** NVIC_GetPriority. */
    method GetPriority(irq: int) returns (priority: nat)
      requires Valid() && HasPriority(irq)
      ensures priority == PriorityOf(Contents(), irq, bits)
    {
      hide GetByte, Pow2, BitShift, ShpIdx, IpIdx, Shr;
      Lanes(irq);
      if irq < 0 {
        priority := Shr(GetByte(shp[ShpIdx(irq)], BitShift(irq)), 8 - bits);
      } else {
        priority := Shr(GetByte(ip[IpIdx(irq)], BitShift(irq)), 8 - bits);
      }
    }
  }
}
