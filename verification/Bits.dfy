/** The zero-extended bit stream, its big-endian slices, and the 24-bit-window
    reader of internal/alac/bits.go. */
module Bits {
  import opened Words

  type bit = x: int | 0 <= x < 2

  /** The byte at index i; zero past the end of the buffer. */
  function ByteAt(s: seq<byte>, i: nat): byte
  {
    if i < |s| then s[i] else 0
  }

  /** Bit k of a number, the least significant being bit 0. */
  function BitOf(b: nat, k: nat): bit
    decreases k, b
  {
    if k == 0 then b % 2 else BitOf(b / 2, k - 1)
  }

  /** Bit p of the stream, most significant bit of each byte first. */
  function BitAt(s: seq<byte>, p: nat): bit
  {
    BitOf(ByteAt(s, p / 8), 7 - p % 8)
  }

  /** The n bits from position p, read as one big-endian number. */
  function Slice(s: seq<byte>, p: nat, n: nat): nat
  {
    if n == 0 then 0 else 2 * Slice(s, p, n - 1) + BitAt(s, p + n - 1)
  }

  lemma {:induction false} SliceBound(s: seq<byte>, p: nat, n: nat)
    ensures Slice(s, p, n) < Pow2(n)
  {
    if n > 0 { SliceBound(s, p, n - 1); }
  }

  /** Consecutive reads of a and b bits compose to one read of a + b bits. */
  lemma {:induction false} SliceSplit(s: seq<byte>, p: nat, a: nat, b: nat)
    ensures Slice(s, p, a + b) == Shl(Slice(s, p, a), b) + Slice(s, p + a, b)
  {
    if b > 0 { SliceSplit(s, p, a, b - 1); }
  }

  /** Eight aligned bits are the byte itself. */
  lemma SliceByte(s: seq<byte>, i: nat)
    ensures Slice(s, 8 * i, 8) == ByteAt(s, i)
  {
    AlignedSlice(s, i, 8);
  }

  /** The n leading bits of a byte. */
  lemma {:induction false} AlignedSlice(s: seq<byte>, i: nat, n: nat)
    requires n <= 8
    ensures Slice(s, 8 * i, n) == Shr(ByteAt(s, i), 8 - n)
  {
    var b := ByteAt(s, i);
    if n == 0 {
      Pow2Small();
      ShlZero(8);
      ShrParts(0, 8, b);
    } else {
      AlignedSlice(s, i, n - 1);
      var p := 8 * i + n - 1;
      assert p / 8 == i && p % 8 == n - 1;
      ShrBit(b, 8 - n);
    }
  }

  lemma {:induction false} ShrBit(b: nat, k: nat)
    ensures Shr(b, k) == 2 * Shr(b, k + 1) + BitOf(b, k)
    decreases k
  {
    if k > 0 { ShrBit(b / 2, k - 1); }
  }

  // ---- words that hold a slice in their top bits -------------------------

  /** Word x, `width` bits wide, holds the w bits from p in its top bits. */
  ghost predicate Holds(x: int, width: nat, s: seq<byte>, p: nat, w: nat)
  {
    w <= width && x == Shl(Slice(s, p, w), width - w)
  }

  /** A left shift by b inside the word drops the b leading bits. */
  lemma HoldsShiftLeft(x: int, width: nat, s: seq<byte>, p: nat, w: nat, b: nat)
    requires Holds(x, width, s, p, w) && b <= w
    ensures Holds(Low(Shl(x, b), width), width, s, p + b, w - b)
  {
    var low := Shifted(x, width, s, p, w, b);
    ShrParts(Slice(s, p, b), width, low);
  }

  lemma Shifted(x: int, width: nat, s: seq<byte>, p: nat, w: nat, b: nat) returns (low: nat)
    requires Holds(x, width, s, p, w) && b <= w
    ensures Shl(x, b) == Shl(Slice(s, p, b), width) + low
    ensures Holds(low, width, s, p + b, w - b) && low < Pow2(width)
  {
    low := Regrouped(s, p, b, w - b, width - w + b);
    ShlTwice(Slice(s, p, w), width - w, b);
  }

  /** A slice of b + c bits shifted by v: the first b bits end above bit c + v. */
  lemma Regrouped(s: seq<byte>, p: nat, b: nat, c: nat, v: nat) returns (low: nat)
    ensures low == Shl(Slice(s, p + b, c), v) && low < Pow2(c + v)
    ensures Shl(Slice(s, p, b + c), v) == Shl(Slice(s, p, b), c + v) + low
  {
    SliceSplit(s, p, b, c);
    SliceBound(s, p + b, c);
    ShlParts(Slice(s, p, b), c, Slice(s, p + b, c), v);
    low := Shl(Slice(s, p + b, c), v);
  }

  /** A right shift that leaves k bits yields the k leading bits. */
  lemma HoldsShiftRight(x: int, width: nat, s: seq<byte>, p: nat, w: nat, k: nat)
    requires Holds(x, width, s, p, w) && k <= w
    ensures Shr(x, width - k) == Slice(s, p, k)
  {
    var low := HighPart(x, width, s, p, w, k);
    ShrParts(Slice(s, p, k), width - k, low);
  }

  lemma HighPart(x: int, width: nat, s: seq<byte>, p: nat, w: nat, k: nat) returns (low: nat)
    requires Holds(x, width, s, p, w) && k <= w
    ensures x == Shl(Slice(s, p, k), width - k) + low && low < Pow2(width - k)
  {
    low := Regrouped(s, p, k, w - k, width - w);
  }

  // ---- bit strings laid out in a stream -----------------------------------

  /** The stream shows the given bits from position p on. */
  ghost predicate HasBits(s: seq<byte>, p: nat, bits: seq<bit>)
  {
    forall i :: 0 <= i < |bits| ==> BitAt(s, p + i) == bits[i]
  }

  /** Value v as n big-endian bits. */
  function Field(v: int, n: nat): (bits: seq<bit>)
    ensures |bits| == n
    decreases n, v
  {
    if n == 0 then [] else Field(v / 2, n - 1) + [v % 2]
  }

  /** Reading back a field gives the value written. */
  lemma {:induction false} FieldReads(s: seq<byte>, p: nat, v: int, n: nat)
    requires 0 <= v < Pow2(n)
    requires HasBits(s, p, Field(v, n))
    ensures Slice(s, p, n) == v
    decreases n
  {
    if n > 0 {
      var f := Field(v, n);
      var g := Field(v / 2, n - 1);
      assert forall i :: 0 <= i < n - 1 ==> g[i] == f[i];
      FieldReads(s, p, v / 2, n - 1);
      assert f[n - 1] == v % 2;
    }
  }

  lemma HasBitsAppend(s: seq<byte>, p: nat, a: seq<bit>, b: seq<bit>)
    ensures HasBits(s, p, a + b) <==> HasBits(s, p, a) && HasBits(s, p + |a|, b)
  {
    var c := a + b;
    if HasBits(s, p, c) {
      forall i | 0 <= i < |a| ensures BitAt(s, p + i) == a[i] { assert c[i] == a[i]; }
      forall i | 0 <= i < |b| ensures BitAt(s, p + |a| + i) == b[i] {
        assert BitAt(s, p + (|a| + i)) == c[|a| + i];
      }
    }
    if HasBits(s, p, a) && HasBits(s, p + |a|, b) {
      forall i | 0 <= i < |c| ensures BitAt(s, p + i) == c[i] {
        if i >= |a| { assert BitAt(s, p + |a| + (i - |a|)) == b[i - |a|]; }
      }
    }
  }

  // ---- streams that agree on a prefix -------------------------------------

  /** Both streams show the same bits before position e. */
  ghost predicate Agree(s: seq<byte>, t: seq<byte>, e: nat)
  {
    forall i: nat :: i < e ==> BitAt(s, i) == BitAt(t, i)
  }

  lemma {:induction false} SliceAgree(s: seq<byte>, t: seq<byte>, e: nat, p: nat, n: nat)
    requires Agree(s, t, e) && p + n <= e
    ensures Slice(s, p, n) == Slice(t, p, n)
  {
    if n > 0 { SliceAgree(s, t, e, p, n - 1); }
  }

  lemma PrefixAgrees(s: seq<byte>, n: nat)
    requires n <= |s|
    ensures Agree(s, s[..n], 8 * n)
  {
  }

  /** A slice reaching past the end is all zeros from there on, so a set last
      bit lies inside the buffer. */
  lemma OddSliceIsInside(s: seq<byte>, p: nat, n: nat)
    requires n > 0 && Slice(s, p, n) % 2 == 1
    ensures p + n <= 8 * |s|
  {
    hide BitAt;
    assert Slice(s, p, n) == 2 * Slice(s, p, n - 1) + BitAt(s, p + n - 1);
    BitPastEnd(s, p + n - 1);
  }

  lemma BitPastEnd(s: seq<byte>, q: nat)
    ensures q >= 8 * |s| ==> BitAt(s, q) == 0
  {
    ZeroBits(7 - q % 8);
  }

  lemma {:induction false} ZeroBits(k: nat)
    ensures BitOf(0, k) == 0
  {
    if k > 0 { ZeroBits(k - 1); }
  }

  // ---- packing bits into bytes --------------------------------------------

  function BitOrZero(bits: seq<bit>, i: nat): bit
  {
    if i < |bits| then bits[i] else 0
  }

  /** The number with the n bits from index i. */
  function Number(bits: seq<bit>, i: nat, n: nat): (v: nat)
    ensures v < Pow2(n)
  {
    if n == 0 then 0 else 2 * Number(bits, i, n - 1) + BitOrZero(bits, i + n - 1)
  }

  /** The bytes of a bit string, zero-filled to a byte boundary. */
  function Pack(bits: seq<bit>): (s: seq<byte>)
    ensures |s| == (|bits| + 7) / 8
  {
    Pow2Small();
    seq((|bits| + 7) / 8, i requires 0 <= i => Number(bits, 8 * i, 8))
  }

  lemma PackShows(bits: seq<bit>)
    ensures HasBits(Pack(bits), 0, bits)
    ensures 8 * |Pack(bits)| >= |bits|
  {
    forall i | 0 <= i < |bits| ensures BitAt(Pack(bits), 0 + i) == bits[i] {
      NumberBit(bits, 8 * (i / 8), 8, i % 8);
    }
  }

  lemma {:induction false} NumberBit(bits: seq<bit>, i: nat, n: nat, j: nat)
    requires j < n
    ensures BitOf(Number(bits, i, n), n - 1 - j) == BitOrZero(bits, i + j)
  {
    if j < n - 1 {
      NumberBit(bits, i, n - 1, j);
      assert Number(bits, i, n) / 2 == Number(bits, i, n - 1);
    }
  }

  // ---- the reader ----------------------------------------------------------

  /** A position in a buffer, read most significant bit first. */
  class BitBuffer {
    const buf: seq<byte>
    var pos: nat

    constructor (b: seq<byte>)
      ensures buf == b && pos == 0
    {
      buf := b;
      pos := 0;
    }

    /** read: n bits from the position on, as a number. */
    method Read(n: nat) returns (v: nat)
      requires n <= 32
      modifies this`pos
      ensures v == Slice(buf, old(pos), n)
      ensures pos == old(pos) + n
      decreases n
    {
      if n == 0 {
        return 0;
      }
      if n > 16 {
        SliceJoin(buf, pos, n);
        var hi := Read(n - 16);
        var lo := Read(16);
        return hi * 0x1_0000 + lo;
      }
      var i, shift := pos / 8, pos % 8;
      v := ByteAt(buf, i) * 0x1_0000 + ByteAt(buf, i + 1) * 0x100 + ByteAt(buf, i + 2);
      WindowRead(buf, i, shift, n, v);
      v := Low(Shl(v, shift), 24);
      v := Shr(v, 24 - n);
      pos := pos + n;
    }

    method Advance(n: nat)
      modifies this`pos
      ensures pos == old(pos) + n
    {
      pos := pos + n;
    }

    /** byteAlign: to the end of a byte that was begun. */
    method ByteAlign()
      modifies this`pos
      ensures pos % 8 == 0 && old(pos) <= pos < old(pos) + 8
    {
      var r := pos % 8;
      if r != 0 {
        pos := pos + (8 - r);
      }
    }

    predicate Exhausted()
      reads this`pos
    {
      pos > |buf| * 8
    }
  }

  lemma SliceJoin(s: seq<byte>, p: nat, n: nat)
    requires n >= 16
    ensures Slice(s, p, n) == Slice(s, p, n - 16) * 0x1_0000 + Slice(s, p + (n - 16), 16)
  {
    SliceSplit(s, p, n - 16, 16);
    ShlBytes(Slice(s, p, n - 16));
  }

  /** Shifting the 24-bit window left by up to 7 and right leaves n <= 16 bits. */
  lemma WindowRead(s: seq<byte>, i: nat, shift: nat, n: nat, v: int)
    requires shift < 8 && n <= 16
    requires v == ByteAt(s, i) * 0x1_0000 + ByteAt(s, i + 1) * 0x100 + ByteAt(s, i + 2)
    ensures Shr(Low(Shl(v, shift), 24), 24 - n) == Slice(s, 8 * i + shift, n)
  {
    WindowHolds24(s, i, v);
    HoldsShiftLeft(v, 24, s, 8 * i, 24, shift);
    HoldsShiftRight(Low(Shl(v, shift), 24), 24, s, 8 * i + shift, 24 - shift, n);
  }

  lemma WindowHolds24(s: seq<byte>, i: nat, v: int)
    requires v == ByteAt(s, i) * 0x1_0000 + ByteAt(s, i + 1) * 0x100 + ByteAt(s, i + 2)
    ensures Holds(v, 24, s, 8 * i, 24)
  {
    SliceByte(s, i);
    SliceAppendByte(s, i, 1);
    SliceAppendByte(s, i, 2);
  }

  lemma ShlBytes(x: int)
    ensures Shl(x, 8) == x * 0x100 && Shl(x, 16) == x * 0x1_0000
  {
    Pow2Small();
    ShlIsProduct(x, 8);
    ShlTwice(x, 8, 8);
    ShlIsProduct(Shl(x, 8), 8);
  }

  lemma SliceAppendByte(s: seq<byte>, i: nat, k: nat)
    ensures Slice(s, 8 * i, 8 * k + 8) == Slice(s, 8 * i, 8 * k) * 0x100 + ByteAt(s, i + k)
  {
    SliceSplit(s, 8 * i, 8 * k, 8);
    ShlBytes(Slice(s, 8 * i, 8 * k));
    SliceByte(s, i + k);
    assert 8 * (i + k) == 8 * i + 8 * k;
  }
}
