/** The adaptive Golomb decoder of internal/alac/ag.go: what each symbol means,
    the loop that decodes a block of residuals, and the mean that steers it. */
module Golomb {
  import opened Words
  import opened Bits

  const MAX_PREFIX := 9
  const QB := 512
  const MEAN_CLAMP := 0xffff
  const MEAN_BOUND := 0x200_0000
  const MAX_RUN := 65535

  // ---- leading bits --------------------------------------------------------

  /** The number of bits up to the highest one that is set. */
  function BitLength(m: nat): nat
  {
    if m == 0 then 0 else 1 + BitLength(m / 2)
  }

  lemma {:induction false} BitLengthBounds(m: nat)
    ensures m < Pow2(BitLength(m))
    ensures m > 0 ==> m >= Pow2(BitLength(m) - 1)
  {
    if m > 1 { BitLengthBounds(m / 2); }
  }

  /** Leading zeros of a 32-bit word: 32 for zero. */
  function LeadingZeros(m: nat): int
  {
    32 - BitLength(m)
  }

  lemma LeadBounds(m: nat)
    requires m < TWO_TO_32
    ensures 0 <= LeadingZeros(m) <= 32 && m < Pow2(32 - LeadingZeros(m))
    ensures LeadingZeros(m) < 32 ==> m >= Pow2(31 - LeadingZeros(m))
  {
    BitLengthBounds(m);
    if BitLength(m) > 32 {
      Pow2Monotone(32, BitLength(m) - 1);
      Pow2Wide();
    }
  }

  /** The bounds of a leading-zero count determine it. */
  lemma LeadUnique(m: nat, r: nat)
    requires m < TWO_TO_32 && r <= 32
    requires m < Pow2(32 - r) && (r < 32 ==> m >= Pow2(31 - r))
    ensures LeadingZeros(m) == r
  {
    LeadBounds(m);
    var q := LeadingZeros(m);
    if q < r {
      Pow2Monotone(32 - r, 31 - q);
    } else if r < q {
      Pow2Monotone(32 - q, 31 - r);
    }
  }

  /** The reference's bit-by-bit loop. */
  method Lead(m: nat) returns (j: nat)
    requires m < TWO_TO_32
    ensures j == LeadingZeros(m)
  {
    Pow2Wide();
    var c := 0x8000_0000;
    j := 0;
    while j < 32
      invariant 0 <= j <= 32 && m < Pow2(32 - j)
      invariant j < 32 ==> c == Pow2(31 - j)
    {
      if m / c % 2 != 0 {
        assert m >= c by { SmallQuotient(m, c); }
        LeadUnique(m, j);
        return;
      }
      TopBitClear(m, c);
      c := c / 2;
      j := j + 1;
    }
    LeadUnique(m, 32);
  }

  lemma SmallQuotient(m: nat, c: nat)
    requires c > 0
    ensures m < c ==> m / c == 0
    ensures c <= m < 2 * c ==> m / c == 1
  {
    if m < c {
      DivModUnique(0, c, m);
    } else if m < 2 * c {
      DivModUnique(1, c, m - c);
    }
  }

  lemma TopBitClear(m: nat, c: nat)
    requires c > 0 && m < 2 * c && m / c % 2 == 0
    ensures m < c
  {
    SmallQuotient(m, c);
  }

  /** floor(log2(x + 3)), with the word's own wrap-around. */
  function Lg3a(x: nat): int
  {
    31 - LeadingZeros(U32(x + 3))
  }

  // ---- reading the stream --------------------------------------------------

  /** Four bytes from a byte offset, zero-filled past the end. */
  method Read32bit(s: seq<byte>, off: nat) returns (v: nat)
    ensures v == Slice(s, 8 * off, 32)
  {
    v := 0;
    var i := 0;
    while i < 4
      invariant 0 <= i <= 4
      invariant v == Slice(s, 8 * off, 8 * i)
    {
      SliceAppendByte(s, off, i);
      WordBelow(s, 8 * off, 8 * i);
      v := U32(v * 0x100);
      var j := off + i;
      if j < |s| {
        v := v + s[j];
      }
      i := i + 1;
    }
  }

  lemma WordBelow(s: seq<byte>, p: nat, n: nat)
    requires n <= 24
    ensures Slice(s, p, n) * 0x100 < TWO_TO_32
  {
    SliceBound(s, p, n);
    Pow2Monotone(n, 24);
    Pow2Wide();
  }

  lemma HoldsByte(s: seq<byte>, i: nat)
    ensures Holds(ByteAt(s, i), 8, s, 8 * i, 8)
  {
    SliceByte(s, i);
  }

  lemma HoldsWord(s: seq<byte>, p: nat)
    ensures Holds(Slice(s, p, 32), 32, s, p, 32)
  {
  }

  /** A 32-bit word shifted left by b, as Go computes it. */
  function Shl32(x: nat, b: nat): nat { U32(Shl(x, b)) }

  lemma HoldsShl32(x: nat, s: seq<byte>, p: nat, w: nat, b: nat)
    requires Holds(x, 32, s, p, w) && b <= w
    ensures Holds(Shl32(x, b), 32, s, p + b, w - b)
  {
    U32IsLow(Shl(x, b));
    HoldsShiftLeft(x, 32, s, p, w, b);
  }

  /** `x << b` for a word that holds the w bits from p. */
  method ShiftOut(x: nat, b: nat, ghost s: seq<byte>, ghost p: nat, ghost w: nat) returns (y: nat)
    requires Holds(x, 32, s, p, w) && b <= w
    ensures Holds(y, 32, s, p + b, w - b) && y < TWO_TO_32
  {
    y := Shl32(x, b);
    HoldsShl32(x, s, p, w, b);
  }

  /** The leading suff bits of such a word. */
  method GetNextFromLong(x: nat, suff: nat, ghost s: seq<byte>, ghost p: nat, ghost w: nat)
    returns (r: nat)
    requires Holds(x, 32, s, p, w) && suff <= w
    ensures r == Slice(s, p, suff)
  {
    if suff == 0 {
      return 0;
    }
    HoldsShiftRight(x, 32, s, p, w, suff);
    r := Shr(x, 32 - suff);
  }

  /** Reads numbits <= 32 bits at any offset: four bytes plus, when the field
      straddles them, a fifth. */
  method GetStreamBits(s: seq<byte>, bitoffset: nat, numbits: nat) returns (result: nat)
    requires numbits <= 32
    ensures result == Slice(s, bitoffset, numbits)
  {
    var byteoffset := bitoffset / 8;
    var load1 := Read32bit(s, byteoffset);
    var shift := bitoffset % 8;
    if numbits + shift > 32 {
      result := Shl32(load1, shift);
      var load2: int := ByteAt(s, byteoffset + 4);
      var load2shift := 8 - (numbits + shift - 32);
      load2 := Shr(load2, load2shift);
      StraddlingField(s, byteoffset, shift, numbits);
      result := Shr(result, 32 - numbits) + load2;
    } else {
      LeadingField(s, byteoffset, shift, numbits);
      result := Shr(load1, 32 - numbits - shift);
    }
    if numbits != 32 {
      result := Low(result, numbits);
    }
  }

  /** The straddling case: the two disjoint parts add up to the field. */
  lemma StraddlingField(s: seq<byte>, off: nat, shift: nat, numbits: nat)
    requires shift < 8 && numbits <= 32 < numbits + shift
    ensures Shr(Shl32(Slice(s, 8 * off, 32), shift), 32 - numbits)
          + Shr(ByteAt(s, off + 4), 8 - (numbits + shift - 32))
         == Slice(s, 8 * off + shift, numbits)
    ensures Low(Slice(s, 8 * off + shift, numbits), numbits)
         == Slice(s, 8 * off + shift, numbits)
  {
    hide Shl, Shr, Low, Slice, BitAt, ByteAt;
    var p := 8 * off + shift;
    var over := numbits + shift - 32;
    HoldsWord(s, 8 * off);
    HoldsShl32(Slice(s, 8 * off, 32), s, 8 * off, 32, shift);
    UnevenShifts(Slice(s, p, 32 - shift), over, 32 - numbits);
    HoldsByte(s, off + 4);
    HoldsShiftRight(ByteAt(s, off + 4), 8, s, 8 * (off + 4), 8, over);
    SliceSplit(s, p, 32 - shift, over);
    ClearedAbove(s, p, 0, numbits);
  }

  /** Left by a + b and right by b is left by a. */
  lemma UnevenShifts(x: int, a: nat, b: nat)
    ensures Shr(Shl(x, a + b), b) == Shl(x, a)
  {
    ShlTwice(x, a, b);
    ShrParts(Shl(x, a), b, 0);
  }

  /** The other case: the field with the bits before it still above. */
  lemma LeadingField(s: seq<byte>, off: nat, shift: nat, numbits: nat)
    requires shift + numbits <= 32
    ensures Shr(Slice(s, 8 * off, 32), 32 - numbits - shift) >= 0
    ensures Low(Shr(Slice(s, 8 * off, 32), 32 - numbits - shift), numbits)
         == Slice(s, 8 * off + shift, numbits)
    ensures numbits == 32 ==>
      Shr(Slice(s, 8 * off, 32), 32 - numbits - shift) == Slice(s, 8 * off + shift, numbits)
  {
    hide Shl, Shr, Low, Slice, BitAt;
    HoldsWord(s, 8 * off);
    HoldsShiftRight(Slice(s, 8 * off, 32), 32, s, 8 * off, 32, shift + numbits);
    SliceSplit(s, 8 * off, shift, numbits);
    ClearedAbove(s, 8 * off + shift, Slice(s, 8 * off, shift), numbits);
  }

  lemma ClearedAbove(s: seq<byte>, p: nat, a: nat, n: nat)
    ensures Low(Shl(a, n) + Slice(s, p, n), n) == Slice(s, p, n)
    ensures Low(Slice(s, p, n), n) == Slice(s, p, n)
  {
    SliceBound(s, p, n);
    ShrParts(a, n, Slice(s, p, n));
    ShlZero(n);
    ShrParts(0, n, Slice(s, p, n));
  }

  // ---- one symbol ------------------------------------------------------------

  ghost predicate RunOfOnes(s: seq<byte>, p: nat, n: nat)
  {
    forall i: nat :: p <= i < p + n ==> BitAt(s, i) == 1
  }

  /** The run of one bits at p, counted up to cap. */
  function Ones(s: seq<byte>, p: nat, cap: nat): (r: nat)
    ensures r <= cap
    decreases cap, p
  {
    if cap == 0 || BitAt(s, p) == 0 then 0 else 1 + Ones(s, p + 1, cap - 1)
  }

  lemma {:induction false} OnesMeans(s: seq<byte>, p: nat, cap: nat)
    ensures RunOfOnes(s, p, Ones(s, p, cap))
    ensures Ones(s, p, cap) < cap ==> BitAt(s, p + Ones(s, p, cap)) == 0
    decreases cap
  {
    if cap > 0 && BitAt(s, p) != 0 { OnesMeans(s, p + 1, cap - 1); }
  }

  lemma {:induction false} OnesUnique(s: seq<byte>, p: nat, cap: nat, r: nat)
    requires r <= cap && RunOfOnes(s, p, r)
    requires r < cap ==> BitAt(s, p + r) == 0
    ensures Ones(s, p, cap) == r
    decreases cap
  {
    if r > 0 {
      assert BitAt(s, p) == 1;
      OnesUnique(s, p + 1, cap - 1, r - 1);
    }
  }

  lemma {:induction false} AllOnes(s: seq<byte>, p: nat, n: nat)
    requires RunOfOnes(s, p, n)
    ensures Slice(s, p, n) == Pow2(n) - 1
  {
    if n > 0 { AllOnes(s, p, n - 1); }
  }

  /** Shifting 2^a - 1 by b. */
  lemma {:induction false} ShlMask(a: nat, b: nat)
    ensures Shl(Pow2(a) - 1, b) == Pow2(a + b) - Pow2(b)
  {
    if b > 0 { ShlMask(a, b - 1); }
  }

  /** The leading-zero count of the complement counts the leading ones, and
      nine or more of them escape. */
  lemma LeadCountsOnes(x: nat, s: seq<byte>, p: nat, w: nat)
    requires Holds(x, 32, s, p, w) && MAX_PREFIX <= w && x < TWO_TO_32
    ensures var o, r := Ones(s, p, MAX_PREFIX), LeadingZeros(TWO_TO_32 - 1 - x);
      if o == MAX_PREFIX then r >= MAX_PREFIX else r == o
  {
    var o := Ones(s, p, MAX_PREFIX);
    OnesMeans(s, p, MAX_PREFIX);
    ComplementBelow(x, s, p, w, o);
    if o < MAX_PREFIX {
      ComplementAbove(x, s, p, w, o);
      LeadUnique(TWO_TO_32 - 1 - x, o);
    } else {
      LeadAtLeast(TWO_TO_32 - 1 - x, o);
    }
  }

  lemma ComplementBelow(x: nat, s: seq<byte>, p: nat, w: nat, o: nat)
    requires Holds(x, 32, s, p, w) && o <= w && RunOfOnes(s, p, o)
    ensures TWO_TO_32 - 1 - x < Pow2(32 - o)
  {
    Pow2Wide();
    AllOnes(s, p, o);
    var low := HighPart(x, 32, s, p, w, o);
    ShlMask(o, 32 - o);
  }

  lemma ComplementAbove(x: nat, s: seq<byte>, p: nat, w: nat, o: nat)
    requires Holds(x, 32, s, p, w) && o < w && RunOfOnes(s, p, o) && BitAt(s, p + o) == 0
    ensures TWO_TO_32 - 1 - x >= Pow2(31 - o)
  {
    Pow2Wide();
    AllOnes(s, p, o);
    var low := HighPart(x, 32, s, p, w, o + 1);
    assert Slice(s, p, o + 1) == 2 * Slice(s, p, o);
    ShlDouble(Slice(s, p, o), 31 - o);
    ShlMask(o, 32 - o);
  }

  lemma ShlDouble(x: int, n: nat)
    ensures Shl(2 * x, n) == Shl(x, n + 1)
  {
    ShlTwice(x, 1, n);
    assert Shl(x, 1) == 2 * x;
  }

  lemma LeadAtLeast(m: nat, o: nat)
    requires m < TWO_TO_32 && o <= 32 && m < Pow2(32 - o)
    ensures LeadingZeros(m) >= o
  {
    LeadBounds(m);
    var q := LeadingZeros(m);
    if q < o { Pow2Monotone(32 - o, 31 - q); }
  }

  datatype Sym = Sym(n: nat, end: nat)

  function Mask(k: nat): nat { Pow2(k) - 1 }

  /** The symbol at p with parameter k: up to eight ones and a zero, then a
      remainder in k bits (k - 1 when it is zero), or nine ones and the value
      itself in maxbits. */
  function Symbol(s: seq<byte>, p: nat, k: nat, maxbits: nat): Sym
  {
    var pre := Ones(s, p, MAX_PREFIX);
    if pre == MAX_PREFIX then
      Sym(Slice(s, p + MAX_PREFIX, maxbits), p + MAX_PREFIX + maxbits)
    else
      var v := Slice(s, p + pre + 1, k);
      if v >= 2 then Sym(Times(pre, Mask(k)) + (v - 1), p + pre + 1 + k)
      else Sym(Times(pre, Mask(k)), p + pre + k)
  }

  /** In the decoder's own 32-bit steps nothing wraps, and the unsigned detour
      through v - 1, which underflows when v is 0, comes back. */
  lemma SymbolInWords(s: seq<byte>, p: nat, k: nat, maxbits: nat, pre: nat, v: int, t: nat)
    requires 1 <= k <= 16 && pre == Ones(s, p, MAX_PREFIX) < MAX_PREFIX
    requires v == Slice(s, p + pre + 1, k) && t == Times(pre, Mask(k))
    ensures k == 1 ==> Symbol(s, p, k, maxbits) == Sym(pre, p + pre + 1)
    ensures U32(t) == t
    ensures v >= 2 ==> U32(t + (v - 1)) == U32(t + v - 1) == t + (v - 1)
    ensures v < 2 ==> U32(U32(t + v - 1) - U32(v - 1)) == t
  {
    SymbolBounds(s, p + pre + 1, pre, k);
    NoWrap(v, t);
  }

  lemma SymbolBounds(s: seq<byte>, p: nat, pre: nat, k: nat)
    requires pre < MAX_PREFIX && 1 <= k <= 16
    ensures Slice(s, p, k) < 0x1_0000 && Times(pre, Mask(k)) <= 8 * 0xffff
    ensures k == 1 ==> Slice(s, p, k) < 2 && Times(pre, Mask(k)) == pre
  {
    Pow2Wide();
    Pow2Monotone(k, 16);
    SliceBound(s, p, k);
    TimesBound(pre, Mask(k), 8, 0xffff);
    TimesIsProduct(8, 0xffff);
    TimesIsProduct(pre, 1);
  }

  lemma NoWrap(v: nat, t: nat)
    requires v < 0x1_0000 && t <= 8 * 0xffff
    ensures U32(t) == t
    ensures v >= 2 ==> U32(t + (v - 1)) == t + (v - 1)
    ensures v < 2 ==> U32(U32(t + v - 1) - U32(v - 1)) == t
  {
  }

  /** `read32bit(in, pos>>3) << (pos&7)`: 25 bits or more from pos. */
  method Window(s: seq<byte>, pos: nat) returns (x: nat)
    ensures Holds(x, 32, s, pos, 32 - pos % 8) && x < TWO_TO_32
  {
    x := Read32bit(s, pos / 8);
    HoldsWord(s, 8 * (pos / 8));
    x := ShiftOut(x, pos % 8, s, 8 * (pos / 8), 32);
  }

  /** The prefix: `lead(^streamlong)`. */
  method LeadingOnes(x: nat, ghost s: seq<byte>, ghost p: nat, ghost w: nat) returns (pre: nat)
    requires Holds(x, 32, s, p, w) && MAX_PREFIX <= w && x < TWO_TO_32
    ensures if pre >= MAX_PREFIX then Ones(s, p, MAX_PREFIX) == MAX_PREFIX
            else Ones(s, p, MAX_PREFIX) == pre
  {
    LeadCountsOnes(x, s, p, w);
    pre := Lead(TWO_TO_32 - 1 - x);
  }

  /** The 32-bit look-ahead holds every bit a symbol uses when k <= 16: at most
      7 bits of byte offset, 9 of prefix and terminator, 16 of remainder. */
  method DynGet32bit(s: seq<byte>, bitPos: nat, m: nat, k: nat, maxbits: nat)
    returns (result: nat, tempbits: nat)
    requires 1 <= k <= 16 && m == Mask(k) && maxbits <= 32
    ensures Sym(result, tempbits) == Symbol(s, bitPos, k, maxbits)
  {
    hide Ones, Slice, BitAt, Times, Mask, Shl;
    tempbits := bitPos;
    ghost var w := 32 - bitPos % 8;
    var streamlong := Window(s, tempbits);
    result := LeadingOnes(streamlong, s, bitPos, w);
    if result >= MAX_PREFIX {
      result := GetStreamBits(s, tempbits + MAX_PREFIX, maxbits);
      tempbits := tempbits + MAX_PREFIX + maxbits;
    } else {
      SymbolInWords(s, bitPos, k, maxbits, result, Slice(s, bitPos + result + 1, k), Times(result, m));
      tempbits := tempbits + result + 1;
      if k != 1 {
        streamlong := ShiftOut(streamlong, result + 1, s, bitPos, w);
        var v := GetNextFromLong(streamlong, k, s, tempbits, w - result - 1);
        tempbits := tempbits + k - 1;
        result := U32(Times(result, m));
        if v >= 2 {
          result := U32(result + (v - 1));
          tempbits := tempbits + 1;
        }
      }
    }
  }

  /** The zero-run length. */
  method DynGet(s: seq<byte>, bitPos: nat, m: nat, k: nat) returns (result: nat, tempbits: nat)
    requires 1 <= k <= 16 && m == Mask(k)
    ensures Sym(result, tempbits) == Symbol(s, bitPos, k, 16)
  {
    hide Ones, Slice, BitAt, Times, Mask, Shl;
    tempbits := bitPos;
    ghost var w := 32 - bitPos % 8;
    var streamlong := Window(s, tempbits);
    var pre := LeadingOnes(streamlong, s, bitPos, w);
    if pre >= MAX_PREFIX {
      pre := MAX_PREFIX;
      tempbits := tempbits + pre;
      streamlong := ShiftOut(streamlong, pre, s, bitPos, w);
      result := GetNextFromLong(streamlong, 16, s, tempbits, w - pre);
      tempbits := tempbits + 16;
    } else {
      tempbits := tempbits + pre + 1;
      streamlong := ShiftOut(streamlong, pre + 1, s, bitPos, w);
      var v: int := GetNextFromLong(streamlong, k, s, tempbits, w - pre - 1);
      SymbolInWords(s, bitPos, k, 16, pre, v, Times(pre, m));
      tempbits := tempbits + k;
      result := U32(Times(pre, m) + v - 1);
      if v < 2 {
        result := U32(result - U32(v - 1));
        tempbits := tempbits - 1;
      }
    }
  }
}
