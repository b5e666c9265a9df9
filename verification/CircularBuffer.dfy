/** Block writes to and reads from a circular buffer, and the delay line they make. */
module CircularBuffer {
  import opened Bits
  import opened FixedPoint

  // ---------------------------------------------------------------- specification

  /** What the code makes of an offset: it is held below L, but not above 0. */
  function Wrapped(L: int, offset: int, inc: int): int {
    if offset + inc >= L then offset + inc - L else offset + inc
  }

  /** One step round a ring of L cells. */
  function Step(L: nat, offset: nat, inc: nat): (next: nat)
    requires offset < L && inc <= L
    ensures next < L
  {
    Wrapped(L, offset, inc)
  }

  /** Every step from within the ring stays within it exactly for increments from 0 to L. */
  lemma StaysInsideExactly(L: nat, inc: int)
    requires L > 0
    ensures (forall offset :: 0 <= offset < L ==> 0 <= Wrapped(L, offset, inc) < L) <==> 0 <= inc <= L
  {
    if inc < 0 {
      assert Wrapped(L, 0, inc) < 0;
    } else if inc > L {
      assert Wrapped(L, L - 1, inc) >= L;
    }
  }

  function Advance(L: nat, offset: nat, inc: nat, n: nat): (end: nat)
    requires offset < L && inc <= L
    ensures end < L
  {
    if n == 0 then offset else Step(L, Advance(L, offset, inc, n - 1), inc)
  }

  /** The ring after storing the samples one by one. */
  function Stored(ring: seq<q15>, offset: nat, inc: nat, samples: seq<q15>): (after: seq<q15>)
    requires offset < |ring| && inc <= |ring|
    ensures |after| == |ring|
  {
    if samples == [] then ring
    else
      var n := |samples| - 1;
      Stored(ring, offset, inc, samples[..n])[Advance(|ring|, offset, inc, n) := samples[n]]
  }

  /** The n samples met on the way round. */
  function Fetched(ring: seq<q15>, offset: nat, inc: nat, n: nat): (samples: seq<q15>)
    requires offset < |ring| && inc <= |ring|
    ensures |samples| == n
  {
    seq(n, i => if 0 <= i < n then ring[Advance(|ring|, offset, inc, i)] else 0)
  }

  /** The place of item i of a strided block. */
  function At(from: int, inc: int, i: int): int { from + i * inc }

  predicate InRange(length: nat, from: int, inc: int, n: nat) {
    forall i :: 0 <= i < n ==> 0 <= At(from, inc, i) < length
  }

  function Gathered(src: seq<q15>, from: int, inc: int, n: nat): (samples: seq<q15>)
    requires InRange(|src|, from, inc, n)
    ensures |samples| == n
  {
    seq(n, i requires 0 <= i < n => src[At(from, inc, i)])
  }

  /** Item i of a strided block lies i strides behind its start. */
  lemma GatheredAt(src: seq<q15>, from: int, inc: int, n: nat, i: nat)
    requires InRange(|src|, from, inc, n) && i < n
    ensures 0 <= from + i * inc < |src| && Gathered(src, from, inc, n)[i] == src[from + i * inc]
  {
    assert At(from, inc, i) == from + i * inc;
  }

  // ---------------------------------------------------------------- arm_circularWrite_q15, arm_circularRead_q15

  /** Where the code's offset stands after n steps, for any increment. */
  function Place(L: int, offset: int, inc: int, n: nat): int {
    if n == 0 then offset else Wrapped(L, Place(L, offset, inc, n - 1), inc)
  }

  function Places(L: int, offset: int, inc: int, n: nat): (places: seq<int>)
    ensures |places| == n
    ensures forall i :: 0 <= i < n ==> places[i] == Place(L, offset, inc, i)
  {
    seq(n, i requires 0 <= i < n => Place(L, offset, inc, i))
  }

  /** Where the code's destination pointer stands after n steps: it is put back when it stands exactly at the end. */
  function Target(base: int, end: int, at: int, inc: int, n: nat): int {
    if n == 0 then at
    else
      var next := Target(base, end, at, inc, n - 1) + inc;
      if next == end then base else next
  }

  function Targets(base: int, end: int, at: int, inc: int, n: nat): (places: seq<int>)
    ensures |places| == n
    ensures forall i :: 0 <= i < n ==> places[i] == Target(base, end, at, inc, i)
  {
    seq(n, i requires 0 <= i < n => Target(base, end, at, inc, i))
  }

  /** A pointer that never stands exactly at the end runs on past it. */
  lemma {:induction false} TargetRunsOn(base: int, end: int, at: int, inc: int, n: nat)
    requires forall k :: 1 <= k <= n ==> At(at, inc, k) != end
    ensures Target(base, end, at, inc, n) == at + n * inc
  {
    if n > 0 {
      TargetRunsOn(base, end, at, inc, n - 1);
      assert At(at, inc, n) == at + (n - 1) * inc + inc;
    }
  }

  /** An offset that never reaches L runs on, also downwards. */
  lemma {:induction false} PlaceRunsOn(L: int, offset: int, inc: int, n: nat)
    requires forall k :: 1 <= k <= n ==> At(offset, inc, k) < L
    ensures Place(L, offset, inc, n) == offset + n * inc
  {
    if n > 0 {
      PlaceRunsOn(L, offset, inc, n - 1);
      assert At(offset, inc, n) == offset + (n - 1) * inc + inc;
    }
  }

  predicate AllIn(places: seq<int>, size: nat) {
    forall i :: 0 <= i < |places| ==> 0 <= places[i] < size
  }

  /** The buffer after storing the samples at the places, one by one. */
  function StoreAt(buf: seq<q15>, places: seq<int>, samples: seq<q15>): (after: seq<q15>)
    requires |places| == |samples| && AllIn(places, |buf|)
    ensures |after| == |buf|
  {
    if samples == [] then buf
    else
      var n := |samples| - 1;
      StoreAt(buf, places[..n], samples[..n])[places[n] := samples[n]]
  }

  lemma StoreNext(buf: seq<q15>, places: seq<int>, samples: seq<q15>, n: nat)
    requires n < |places| == |samples| && AllIn(places, |buf|)
    ensures StoreAt(buf, places[..n + 1], samples[..n + 1]) ==
            StoreAt(buf, places[..n], samples[..n])[places[n] := samples[n]]
  {
    assert places[..n + 1][..n] == places[..n] && samples[..n + 1][..n] == samples[..n];
  }

  /** Each place holds the last sample stored there, and all others are as before. */
  lemma {:induction false} StoreAtLast(buf: seq<q15>, places: seq<int>, samples: seq<q15>, cell: nat)
    requires |places| == |samples| && AllIn(places, |buf|) && cell < |buf|
    ensures cell !in places ==> StoreAt(buf, places, samples)[cell] == buf[cell]
    ensures forall i :: 0 <= i < |places| && places[i] == cell && cell !in places[i + 1..] ==>
              StoreAt(buf, places, samples)[cell] == samples[i]
  {
    if samples != [] {
      var n := |samples| - 1;
      StoreAtLast(buf, places[..n], samples[..n], cell);
      assert places == places[..n] + [places[n]];
      forall i | 0 <= i < |places| && places[i] == cell && cell !in places[i + 1..]
        ensures StoreAt(buf, places, samples)[cell] == samples[i]
      {
        if i < n {
          assert places[i + 1..] == places[..n][i + 1..] + [places[n]];
          assert places[n] in places[i + 1..];
        }
      }
    }
  }

  function FetchFrom(buf: seq<q15>, places: seq<int>): (samples: seq<q15>)
    requires AllIn(places, |buf|)
    ensures |samples| == |places| && forall i :: 0 <= i < |places| ==> samples[i] == buf[places[i]]
  {
    seq(|places|, i requires 0 <= i < |places| => buf[places[i]])
  }

  /** No sum of an offset on the way and the increment leaves the 32-bit range. */
  predicate Fits32(L: int, offset: int, inc: int, n: nat) {
    && 0 <= L <= Q31_MAX
    && forall i :: 0 <= i < n ==> Q31_MIN <= Place(L, offset, inc, i) + inc <= Q31_MAX
  }

  /** For any increment that keeps the offset within the buffer while samples are stored. The offset kept between
      calls is 16 bits wide. */
  method Write(buffer: array<q15>, L: int, writeOffset: int, bufferInc: int,
               src: array<q15>, from: int, srcInc: int, blockSize: nat)
    returns (offset: nat)
    requires src != buffer && InRange(src.Length, from, srcInc, blockSize)
    requires 0 <= writeOffset < 0x1_0000 && Fits32(L, writeOffset, bufferInc, blockSize)
    requires AllIn(Places(L, writeOffset, bufferInc, blockSize), buffer.Length)
    modifies buffer
    ensures buffer[..] == StoreAt(old(buffer[..]), Places(L, writeOffset, bufferInc, blockSize),
                                  Gathered(src[..], from, srcInc, blockSize))
    ensures offset == Place(L, writeOffset, bufferInc, blockSize) % 0x1_0000
  {
    hide StoreAt;
    ghost var samples, n := Gathered(src[..], from, srcInc, blockSize), 0;
    ghost var places := Places(L, writeOffset, bufferInc, blockSize);
    var wOffset: int, p, i := writeOffset, from, blockSize;
    StoreNone(buffer[..], places[..0], samples[..0]);
    while i > 0
      invariant n == blockSize - i && 0 <= n <= blockSize
      invariant p == At(from, srcInc, n)
      invariant wOffset == Place(L, writeOffset, bufferInc, n)
      invariant buffer[..] == StoreAt(old(buffer[..]), places[..n], samples[..n])
    {
      StoreNext(old(buffer[..]), places, samples, n);
      assert samples[n] == src[At(from, srcInc, n)] && wOffset == places[n];
      buffer[wOffset] := src[p];
      p := p + srcInc;
      wOffset := wOffset + bufferInc;
      if wOffset >= L {
        wOffset := wOffset - L;
      }
      i := i - 1;
      n := n + 1;
      assert p == At(from, srcInc, n);
    }
    assert samples[..n] == samples && places[..n] == places;
    offset := wOffset % 0x1_0000;
  }

  /** For any increments that keep offset and pointer within their buffers while samples are copied. */
  method Read(buffer: array<q15>, L: int, readOffset: int, bufferInc: int,
              dst: array<q15>, at: int, base: int, length: int, dstInc: int, blockSize: nat)
    returns (offset: int)
    requires dst != buffer && Fits32(L, readOffset, bufferInc, blockSize)
    requires AllIn(Places(L, readOffset, bufferInc, blockSize), buffer.Length)
    requires AllIn(Targets(base, base + length, at, dstInc, blockSize), dst.Length)
    modifies dst
    ensures dst[..] == StoreAt(old(dst[..]), Targets(base, base + length, at, dstInc, blockSize),
                               FetchFrom(buffer[..], Places(L, readOffset, bufferInc, blockSize)))
    ensures offset == Place(L, readOffset, bufferInc, blockSize)
  {
    hide StoreAt;
    ghost var places := Places(L, readOffset, bufferInc, blockSize);
    ghost var targets := Targets(base, base + length, at, dstInc, blockSize);
    ghost var samples, n := FetchFrom(buffer[..], places), 0;
    var rOffset, p, end, i := readOffset, at, base + length, blockSize;
    StoreNone(dst[..], targets[..0], samples[..0]);
    while i > 0
      invariant n == blockSize - i && 0 <= n <= blockSize
      invariant p == Target(base, end, at, dstInc, n)
      invariant rOffset == Place(L, readOffset, bufferInc, n)
      invariant dst[..] == StoreAt(old(dst[..]), targets[..n], samples[..n])
    {
      StoreNext(old(dst[..]), targets, samples, n);
      assert rOffset == places[n] && p == targets[n];
      dst[p] := buffer[rOffset];
      p := p + dstInc;
      if p == end {
        p := base;
      }
      rOffset := rOffset + bufferInc;
      if rOffset >= L {
        rOffset := rOffset - L;
      }
      i := i - 1;
      n := n + 1;
    }
    assert samples[..n] == samples && targets[..n] == targets;
    offset := rOffset;
  }

  lemma StoreNone(buf: seq<q15>, places: seq<int>, samples: seq<q15>)
    requires places == [] && samples == []
    ensures StoreAt(buf, places, samples) == buf
  {
  }

  // ---------------------------------------------------------------- rings within buffers

  /** From within the ring, with an increment of at most its length, the code goes round the ring. */
  lemma {:induction false} PlaceIsAdvance(L: nat, offset: nat, inc: nat, n: nat)
    requires offset < L && inc <= L
    ensures Place(L, offset, inc, n) == Advance(L, offset, inc, n)
  {
    if n > 0 {
      PlaceIsAdvance(L, offset, inc, n - 1);
    }
  }

  /** Then everything stays within the buffer and within 32 bits. */
  lemma RingIsSafe(L: nat, offset: nat, inc: nat, n: nat)
    requires offset < L <= 0x4000_0000 && inc <= L
    ensures AllIn(Places(L, offset, inc, n), L) && Fits32(L, offset, inc, n)
  {
    forall i: nat | i < n ensures 0 <= Place(L, offset, inc, i) < L {
      PlaceIsAdvance(L, offset, inc, i);
    }
  }

  lemma {:induction false} StoreIsStored(ring: seq<q15>, offset: nat, inc: nat, samples: seq<q15>)
    requires offset < |ring| <= 0x4000_0000 && inc <= |ring|
    ensures AllIn(Places(|ring|, offset, inc, |samples|), |ring|)
    ensures StoreAt(ring, Places(|ring|, offset, inc, |samples|), samples) == Stored(ring, offset, inc, samples)
  {
    RingIsSafe(|ring|, offset, inc, |samples|);
    if samples != [] {
      var n := |samples| - 1;
      StoreIsStored(ring, offset, inc, samples[..n]);
      PlaceIsAdvance(|ring|, offset, inc, n);
      assert Places(|ring|, offset, inc, n + 1)[..n] == Places(|ring|, offset, inc, n);
    }
  }

  lemma FetchIsFetched(ring: seq<q15>, offset: nat, inc: nat, n: nat)
    requires offset < |ring| <= 0x4000_0000 && inc <= |ring|
    ensures AllIn(Places(|ring|, offset, inc, n), |ring|)
    ensures FetchFrom(ring, Places(|ring|, offset, inc, n)) == Fetched(ring, offset, inc, n)
  {
    RingIsSafe(|ring|, offset, inc, n);
    forall i: nat | i < n ensures Place(|ring|, offset, inc, i) == Advance(|ring|, offset, inc, i) {
      PlaceIsAdvance(|ring|, offset, inc, i);
    }
  }

  /** A destination pointer whose stride meets the end goes round the destination. */
  lemma {:induction false} TargetIsAdvance(base: int, length: nat, at: int, inc: nat, n: nat)
    requires base <= at < base + length && inc <= length && Meets(at - base, length, inc)
    ensures Target(base, base + length, at, inc, n) == base + Advance(length, at - base, inc, n)
    ensures Meets(Advance(length, at - base, inc, n), length, inc)
  {
    hide Meets;
    if n > 0 {
      TargetIsAdvance(base, length, at, inc, n - 1);
      NoJump(Advance(length, at - base, inc, n - 1), length, inc);
    }
  }

  lemma StoredNone(ring: seq<q15>, offset: nat, inc: nat)
    requires offset < |ring| && inc <= |ring|
    ensures Stored(ring, offset, inc, []) == ring
  {
  }

  lemma StoreLast(buf: seq<q15>, places: seq<int>, samples: seq<q15>)
    requires |places| == |samples| > 0 && AllIn(places, |buf|)
    ensures var n := |samples| - 1;
            StoreAt(buf, places, samples) == StoreAt(buf, places[..n], samples[..n])[places[n] := samples[n]]
  {
  }

  lemma StoredLast(ring: seq<q15>, offset: nat, inc: nat, samples: seq<q15>)
    requires offset < |ring| && inc <= |ring| && samples != []
    ensures var n := |samples| - 1;
            Stored(ring, offset, inc, samples) ==
            Stored(ring, offset, inc, samples[..n])[Advance(|ring|, offset, inc, n) := samples[n]]
  {
  }

  lemma UpdateInside(before: seq<q15>, ring: seq<q15>, after: seq<q15>, k: nat, sample: q15)
    requires k < |ring|
    ensures (before + ring + after)[|before| + k := sample] == before + ring[k := sample] + after
  {
  }

  /** What is stored at its places is stored round the part of the buffer that is the destination. */
  lemma {:induction false} StoreIsWindow(buf: seq<q15>, base: nat, length: nat, at: nat, inc: nat, samples: seq<q15>)
    requires base <= at < base + length <= |buf| && inc <= length && Meets(at - base, length, inc)
    ensures AllIn(Targets(base, base + length, at, inc, |samples|), |buf|)
    ensures StoreAt(buf, Targets(base, base + length, at, inc, |samples|), samples) ==
            buf[..base] + Stored(buf[base..base + length], at - base, inc, samples) + buf[base + length..]
  {
    hide Meets, Target, Advance, StoreAt, Stored;
    var targets := Targets(base, base + length, at, inc, |samples|);
    forall i: nat | i < |samples| ensures 0 <= targets[i] < |buf| {
      TargetIsAdvance(base, length, at, inc, i);
    }
    if samples == [] {
      assert buf == buf[..base] + buf[base..base + length] + buf[base + length..];
      StoreNone(buf, targets, samples);
      StoredNone(buf[base..base + length], at - base, inc);
    } else {
      var n := |samples| - 1;
      StoreIsWindow(buf, base, length, at, inc, samples[..n]);
      TargetIsAdvance(base, length, at, inc, n);
      assert targets[..n] == Targets(base, base + length, at, inc, n);
      StoreLast(buf, targets, samples);
      StoredLast(buf[base..base + length], at - base, inc, samples);
      UpdateInside(buf[..base], Stored(buf[base..base + length], at - base, inc, samples[..n]), buf[base + length..],
                   Advance(length, at - base, inc, n), samples[n]);
    }
  }

  /** Whole strides from here lead exactly to the end of the ring. */
  predicate Meets(at: nat, length: nat, inc: nat) { inc > 0 && at % inc == 0 && length % inc == 0 }

  /** A stride that meets the end does not jump past it. */
  lemma NoJump(at: nat, length: nat, inc: nat)
    requires Meets(at, length, inc) && at < length
    ensures at + inc <= length && Meets(at + inc, length, inc) && Meets(0, length, inc)
  {
    var i, j := at / inc, length / inc;
    assert at == i * inc && length == j * inc;
    if j <= i {
      MulNonNegative(i - j, inc);
    }
    MulNonNegative(j - i - 1, inc);
    DivUnique(at + inc, inc, i + 1, 0);
  }

  // ---------------------------------------------------------------- round the ring

  lemma StepMod(L: nat, place: nat, inc: nat)
    requires 0 < L && inc <= L
    ensures Step(L, place % L, inc) == (place + inc) % L
  {
    var q, r := place / L, place % L;
    if r + inc >= L {
      DivUnique(place + inc, L, q + 1, r + inc - L);
    } else {
      DivUnique(place + inc, L, q, r + inc);
    }
  }

  /** The conditional subtraction keeps the offset reduced by the ring's length. */
  lemma {:induction false} AdvanceMod(L: nat, offset: nat, inc: nat, n: nat)
    requires offset < L && inc <= L
    ensures offset + n * inc >= 0 && Advance(L, offset, inc, n) == (offset + n * inc) % L
  {
    MulNonNegative(n, inc);
    if n > 0 {
      AdvanceMod(L, offset, inc, n - 1);
      assert offset + n * inc == offset + (n - 1) * inc + inc;
      StepMod(L, offset + (n - 1) * inc, inc);
    }
  }

  lemma {:induction false} AdvanceAdd(L: nat, offset: nat, inc: nat, m: nat, n: nat)
    requires offset < L && inc <= L
    ensures Advance(L, Advance(L, offset, inc, m), inc, n) == Advance(L, offset, inc, m + n)
  {
    if n > 0 {
      AdvanceAdd(L, offset, inc, m, n - 1);
    }
  }

  /** Two blocks in a row store what one long block stores. */
  lemma {:induction false} StoredAppend(ring: seq<q15>, offset: nat, inc: nat, a: seq<q15>, b: seq<q15>)
    requires offset < |ring| && inc <= |ring|
    ensures Stored(ring, offset, inc, a + b) ==
            Stored(Stored(ring, offset, inc, a), Advance(|ring|, offset, inc, |a|), inc, b)
  {
    if b == [] {
      assert a + b == a;
    } else {
      var n := |b| - 1;
      assert (a + b)[..|a| + n] == a + b[..n];
      StoredAppend(ring, offset, inc, a, b[..n]);
      AdvanceAdd(|ring|, offset, inc, |a|, n);
    }
  }

  /** Places less than one turn apart are different cells. */
  lemma ApartIsDistinct(a: int, b: int, L: nat)
    requires 0 < b - a < L
    ensures a % L != b % L
  {
    MulAtLeast(b / L - a / L, L);
    assert b - a == (b / L - a / L) * L + (b % L - a % L);
  }

  /** The cell whose turn it is k samples after the start. */
  function Cell(L: nat, start: nat, k: int): (c: nat)
    requires L > 0
    ensures c < L
  {
    (start + k) % L
  }

  lemma CellSelf(L: nat, start: nat)
    requires start < L
    ensures Cell(L, start, 0) == start
  {
  }

  lemma CellAdds(L: nat, start: nat, j: int, k: int)
    requires L > 0
    ensures Cell(L, Cell(L, start, j), k) == Cell(L, start, j + k)
  {
    ModAdds(start + j, k, L);
  }

  lemma ModAdds(a: int, i: int, L: nat)
    requires L > 0
    ensures (a % L + i) % L == (a + i) % L
  {
    DivUnique(a + i, L, a / L + (a % L + i) / L, (a % L + i) % L);
  }

  lemma AdvanceCell(L: nat, offset: nat, n: nat)
    requires offset < L
    ensures Advance(L, offset, 1, n) == Cell(L, offset, n)
  {
    AdvanceMod(L, offset, 1, n);
  }

  /** Written with increment 1, each cell holds the last sample whose turn it was, or its old content if none was. */
  lemma {:induction false} LastTurn(ring: seq<q15>, offset: nat, samples: seq<q15>, k: int)
    requires offset < |ring| && |samples| - |ring| <= k < |samples|
    ensures Stored(ring, offset, 1, samples)[Cell(|ring|, offset, k)] ==
            if k >= 0 then samples[k] else ring[Cell(|ring|, offset, k)]
  {
    if samples != [] {
      var n := |samples| - 1;
      AdvanceCell(|ring|, offset, n);
      if k < n {
        ApartIsDistinct(offset + k, offset + n, |ring|);
        if n - |ring| <= k {
          LastTurn(ring, offset, samples[..n], k);
        }
      }
    }
  }

  /** The offset survives the cast to 16 bits on every run exactly when the ring has at most 2^16 cells. */
  lemma OffsetKeptExactly(L: nat)
    requires L > 0
    ensures (forall offset, n ::
               0 <= offset < L && 0 <= n ==> Advance(L, offset, 1, n) % 0x1_0000 == Advance(L, offset, 1, n))
            <==> L <= 0x1_0000
  {
    if L > 0x1_0000 {
      assert Advance(L, 0xFFFF, 1, 0) == 0xFFFF;
      assert Advance(L, 0xFFFF, 1, 1) == 0x1_0000;
    }
  }

  // ---------------------------------------------------------------- the delay line

  function Flatten(blocks: seq<seq<q15>>): seq<q15> {
    if blocks == [] then [] else Flatten(blocks[..|blocks| - 1]) + blocks[|blocks| - 1]
  }

  /** The ring and the kept offset after a run of block writes. */
  function Line(ring: seq<q15>, start: nat, blocks: seq<seq<q15>>): (line: (seq<q15>, nat))
    requires start < |ring|
    ensures |line.0| == |ring| && line.1 < |ring|
  {
    if blocks == [] then (ring, start)
    else
      var (before, offset) := Line(ring, start, blocks[..|blocks| - 1]);
      var block := blocks[|blocks| - 1];
      (Stored(before, offset, 1, block), Advance(|ring|, offset, 1, |block|) % 0x1_0000)
  }

  lemma LineNext(ring: seq<q15>, start: nat, blocks: seq<seq<q15>>)
    requires start < |ring| <= 0x1_0000 && blocks != []
    ensures var (line, offset) := Line(ring, start, blocks[..|blocks| - 1]);
            var block := blocks[|blocks| - 1];
            && Line(ring, start, blocks) == (Stored(line, offset, 1, block), Advance(|ring|, offset, 1, |block|))
            && Flatten(blocks) == Flatten(blocks[..|blocks| - 1]) + block
  {
    hide Stored, Advance;
  }

  /** However the samples are cut into blocks, the line ends as if they had been written in one go, with the offset
      advanced by their number. */
  lemma {:induction false} LineIsOneWrite(ring: seq<q15>, start: nat, blocks: seq<seq<q15>>)
    requires start < |ring| <= 0x1_0000
    ensures Line(ring, start, blocks) ==
            (Stored(ring, start, 1, Flatten(blocks)), Advance(|ring|, start, 1, |Flatten(blocks)|))
  {
    if blocks == [] {
    } else {
      hide Stored, Advance, Line, Flatten;
      var earlier, block := blocks[..|blocks| - 1], blocks[|blocks| - 1];
      LineNext(ring, start, blocks);
      LineIsOneWrite(ring, start, earlier);
      StoredAppend(ring, start, 1, Flatten(earlier), block);
      AdvanceAdd(|ring|, start, 1, |Flatten(earlier)|, |block|);
    }
  }

  /** The kept offset is the start advanced by the number of samples, reduced by the ring's length. */
  lemma OffsetCounts(ring: seq<q15>, start: nat, blocks: seq<seq<q15>>)
    requires start < |ring| <= 0x1_0000
    ensures Line(ring, start, blocks).1 == Cell(|ring|, start, |Flatten(blocks)|)
  {
    hide Line, Flatten;
    LineIsOneWrite(ring, start, blocks);
    AdvanceCell(|ring|, start, |Flatten(blocks)|);
  }

  /** The place that lies back cells behind an offset. */
  function Behind(L: nat, offset: nat, back: nat): (at: nat)
    requires offset < L && back <= L
    ensures at < L
  {
    if offset >= back then offset - back else offset + L - back
  }

  lemma BehindCell(L: nat, start: nat, total: nat, back: nat)
    requires start < L && back <= L && back <= total
    ensures Behind(L, Cell(L, start, total), back) == Cell(L, start, total - back)
  {
    var q, r := (start + total) / L, (start + total) % L;
    if r >= back {
      DivUnique(start + total - back, L, q, r - back);
    } else {
      DivUnique(start + total - back, L, q - 1, r + L - back);
    }
  }

  /** Cell k mod L holds sample k, for each of the last L samples. */
  predicate Holds(ring: seq<q15>, start: nat, history: seq<q15>)
    requires start < |ring|
  {
    forall k :: 0 <= k < |history| && |history| - |ring| <= k ==> ring[Cell(|ring|, start, k)] == history[k]
  }

  /** Writing a block at the current place keeps the last L samples in their cells. */
  lemma PutHolds(ring: seq<q15>, start: nat, history: seq<q15>, block: seq<q15>)
    requires start < |ring| && Holds(ring, start, history)
    ensures Holds(Stored(ring, Cell(|ring|, start, |history|), 1, block), start, history + block)
  {
    hide Stored, Cell;
    var L, place := |ring|, Cell(|ring|, start, |history|);
    var all := history + block;
    forall k | 0 <= k < |all| && |all| - L <= k ensures Stored(ring, place, 1, block)[Cell(L, start, k)] == all[k] {
      CellAdds(L, start, |history|, k - |history|);
      LastTurn(ring, place, block, k - |history|);
    }
  }

  lemma {:induction false} LineHolds(ring: seq<q15>, start: nat, blocks: seq<seq<q15>>)
    requires start < |ring| <= 0x1_0000
    ensures Holds(Line(ring, start, blocks).0, start, Flatten(blocks))
  {
    if blocks != [] {
      hide Holds, Stored, Advance;
      LineHolds(ring, start, blocks[..|blocks| - 1]);
      OffsetCounts(ring, start, blocks[..|blocks| - 1]);
      PutHolds(Line(ring, start, blocks[..|blocks| - 1]).0, start, Flatten(blocks[..|blocks| - 1]),
          blocks[|blocks| - 1]);
    }
  }

  /** Reading from back cells behind gives the samples written back samples ago, in order. */
  lemma GetDelayed(ring: seq<q15>, start: nat, history: seq<q15>, back: nat, n: nat)
    requires start < |ring| && Holds(ring, start, history)
    requires n <= back <= |ring| && back <= |history|
    ensures Fetched(ring, Behind(|ring|, Cell(|ring|, start, |history|), back), 1, n) ==
            history[|history| - back..|history| - back + n]
  {
    hide Cell, Behind, Advance;
    var L, from := |ring|, Cell(|ring|, start, |history| - back);
    BehindCell(L, start, |history|, back);
    forall i | 0 <= i < n ensures ring[Advance(L, from, 1, i)] == history[|history| - back + i] {
      AdvanceCell(L, from, i);
      CellAdds(L, start, |history| - back, i);
    }
  }

  /** After any run of block writes, a read that starts back cells behind the kept offset gives the samples written
      back samples ago, in order. */
  lemma Delayed(ring: seq<q15>, start: nat, blocks: seq<seq<q15>>, back: nat, n: nat)
    requires start < |ring| <= 0x1_0000
    requires n <= back <= |ring| && back <= |Flatten(blocks)|
    ensures var (line, offset) := Line(ring, start, blocks);
            var samples := Flatten(blocks);
            Fetched(line, Behind(|ring|, offset, back), 1, n) == samples[|samples| - back..|samples| - back + n]
  {
    hide Line, Flatten, Holds, Fetched, Behind;
    OffsetCounts(ring, start, blocks);
    LineHolds(ring, start, blocks);
    GetDelayed(Line(ring, start, blocks).0, start, Flatten(blocks), back, n);
  }

  /** What a block leaves in a destination ring: its last samples from the starting place on, and the rest unchanged.
      */
  predicate Delivered(before: seq<q15>, after: seq<q15>, at: nat, samples: seq<q15>)
    requires at < |before| == |after|
  {
    && (forall i :: 0 <= i < |samples| && |samples| - |after| <= i ==> after[Cell(|after|, at, i)] == samples[i])
    && (forall i :: |samples| <= i < |after| ==> after[Cell(|after|, at, i)] == before[Cell(|after|, at, i)])
  }

  lemma StoredDelivers(ring: seq<q15>, at: nat, samples: seq<q15>)
    requires at < |ring|
    ensures Delivered(ring, Stored(ring, at, 1, samples), at, samples)
  {
    hide Stored, Cell;
    var L := |ring|;
    forall i | 0 <= i < |samples| && |samples| - L <= i
      ensures Stored(ring, at, 1, samples)[Cell(L, at, i)] == samples[i]
    {
      LastTurn(ring, at, samples, i);
    }
    forall i | |samples| <= i < L ensures Stored(ring, at, 1, samples)[Cell(L, at, i)] == ring[Cell(L, at, i)] {
      LastTurn(ring, at, samples, i - L);
      WholeTurn(L, at, i);
    }
  }

  lemma WholeTurn(L: nat, start: nat, k: int)
    requires L > 0
    ensures Cell(L, start, k - L) == Cell(L, start, k)
  {
    DivUnique(start + k - L, L, (start + k) / L - 1, (start + k) % L);
  }

  /** A circular buffer that is written block by block, and all that was ever written to it. */
  class DelayLine {
    const buffer: array<q15>
    var writeOffset: nat
    ghost const start: nat
    ghost var history: seq<q15>

    ghost predicate Valid()
      reads this, buffer
    {
      && start < buffer.Length <= 0x1_0000
      && writeOffset == Cell(buffer.Length, start, |history|)
      && Holds(buffer[..], start, history)
    }

    constructor (buffer: array<q15>, start: nat)
      requires start < buffer.Length <= 0x1_0000
      ensures Valid() && this.buffer == buffer && this.start == start && history == []
    {
      this.buffer, this.start, writeOffset, history := buffer, start, start, [];
      new;
      CellSelf(buffer.Length, start);
    }

    /** A block write of any size and source stride. */
    method Put(src: array<q15>, from: int, srcInc: int, blockSize: nat)
      requires Valid() && src != buffer && InRange(src.Length, from, srcInc, blockSize)
      modifies this, buffer
      ensures Valid() && history == old(history) + Gathered(src[..], from, srcInc, blockSize)
      ensures forall i :: 0 <= i < blockSize ==>
                0 <= from + i * srcInc < src.Length && history[|old(history)| + i] == src[from + i * srcInc]
    {
      hide Holds, Stored, Cell, Advance, InRange, Gathered;
      ghost var block := Gathered(src[..], from, srcInc, blockSize);
      PutHolds(buffer[..], start, history, block);
      AdvanceCell(buffer.Length, writeOffset, blockSize);
      CellAdds(buffer.Length, start, |history|, blockSize);
      StoreIsStored(buffer[..], writeOffset, 1, block);
      RingIsSafe(buffer.Length, writeOffset, 1, blockSize);
      PlaceIsAdvance(buffer.Length, writeOffset, 1, blockSize);
      writeOffset := Write(buffer, buffer.Length, writeOffset, 1, src, from, srcInc, blockSize);
      history := history + block;
      forall i | 0 <= i < blockSize
        ensures 0 <= from + i * srcInc < src.Length && history[|old(history)| + i] == src[from + i * srcInc]
      {
        GatheredAt(src[..], from, srcInc, blockSize, i);
      }
    }

    /** A block read that starts back samples ago, into a destination that wraps. */
    method Get(back: nat, dst: array<q15>, at: nat, base: nat, length: nat, blockSize: nat) returns (offset: nat)
      requires Valid() && dst != buffer
      requires blockSize <= back <= buffer.Length && back <= |history|
      requires base <= at < base + length <= dst.Length
      modifies dst
      ensures Valid()
      ensures Delivered(old(dst[base..base + length]), dst[base..base + length], at - base,
                        history[|history| - back..|history| - back + blockSize])
      ensures dst[..base] == old(dst[..base]) && dst[base + length..] == old(dst[base + length..])
      ensures offset == Cell(buffer.Length, start, |history| - back + blockSize)
    {
      hide Holds, Stored, Cell, Advance, Behind, Fetched, Delivered;
      var readOffset := Behind(buffer.Length, writeOffset, back);
      GetDelayed(buffer[..], start, history, back, blockSize);
      StoredDelivers(dst[base..base + length], at - base, history[|history| - back..|history| - back + blockSize]);
      BehindCell(buffer.Length, start, |history|, back);
      AdvanceCell(buffer.Length, readOffset, blockSize);
      CellAdds(buffer.Length, start, |history| - back, blockSize);
      FetchIsFetched(buffer[..], readOffset, 1, blockSize);
      RingIsSafe(buffer.Length, readOffset, 1, blockSize);
      PlaceIsAdvance(buffer.Length, readOffset, 1, blockSize);
      StoreIsWindow(dst[..], base, length, at, 1, history[|history| - back..|history| - back + blockSize]);
      offset := Read(buffer, buffer.Length, readOffset, 1, dst, at, base, length, 1, blockSize);
    }
  }
}
