/** Machine words: powers of two, fixed-width wrap-around and the shifts that
    the decoder relies on, stated over unbounded integers. */
module Words {

  type byte = x: int | 0 <= x < 256

  type int32 = x: int | -0x8000_0000 <= x < 0x8000_0000

  type int16 = x: int | -0x8000 <= x < 0x8000

  datatype Option<+T> = None | Some(value: T)

  const TWO_TO_32: int := 0x1_0000_0000

  function Min(a: int, b: int): int { if a <= b then a else b }

  function Max(a: int, b: int): int { if a <= b then b else a }

  function Pow2(n: nat): (p: nat)
    ensures p >= 1
  {
    if n == 0 then 1 else 2 * Pow2(n - 1)
  }

  lemma {:induction false} Pow2Add(a: nat, b: nat)
    ensures Pow2(a + b) == Pow2(a) * Pow2(b)
  {
    if b > 0 {
      Pow2Add(a, b - 1);
      assert Pow2(a + b) == 2 * Pow2(a + b - 1);
      assert Pow2(a) * (2 * Pow2(b - 1)) == 2 * (Pow2(a) * Pow2(b - 1));
    }
  }

  lemma {:induction false} Pow2Monotone(a: nat, b: nat)
    requires a <= b
    ensures Pow2(a) <= Pow2(b)
  {
    if a < b { Pow2Monotone(a, b - 1); }
  }

  lemma Pow2Small()
    ensures Pow2(1) == 2 && Pow2(2) == 4 && Pow2(3) == 8 && Pow2(4) == 16
    ensures Pow2(5) == 32 && Pow2(6) == 64 && Pow2(7) == 128 && Pow2(8) == 256
    ensures Pow2(9) == 512
  {
    assert Pow2(4) == 16;
    assert Pow2(8) == 256;
  }

  lemma Pow2Wide()
    ensures Pow2(16) == 0x1_0000 && Pow2(17) == 0x2_0000
    ensures Pow2(24) == 0x100_0000 && Pow2(25) == 0x200_0000
    ensures Pow2(31) == 0x8000_0000 && Pow2(32) == TWO_TO_32
  {
    Pow2Small();
    Pow2Add(8, 8);
    Pow2Add(16, 8);
    Pow2Add(24, 7);
  }

  // ---- products ----------------------------------------------------------

  /** a * b as repeated addition, so that proofs which do not multiply are not
      charged for multiplication. */
  function Times(a: nat, b: nat): nat
    decreases a, b
  {
    if a == 0 then 0 else b + Times(a - 1, b)
  }

  lemma {:induction false} TimesIsProduct(a: nat, b: nat)
    ensures Times(a, b) == a * b
    decreases a
  {
    if a > 0 { TimesIsProduct(a - 1, b); }
  }

  lemma {:induction false} TimesSplit(a: nat, c: nat, b: nat)
    ensures Times(a + c, b) == Times(a, b) + Times(c, b)
    decreases a
  {
    if a > 0 { TimesSplit(a - 1, c, b); }
  }

  lemma {:induction false} TimesBound(a: nat, b: nat, c: nat, d: nat)
    requires a <= c && b <= d
    ensures Times(a, b) <= Times(c, d)
    decreases c
  {
    if a > 0 { TimesBound(a - 1, b, c - 1, d); }
  }

  // ---- shifts ----------------------------------------------------------

  /** An unbounded left shift. */
  function Shl(x: int, n: nat): int
    decreases n, x
  {
    if n == 0 then x else 2 * Shl(x, n - 1)
  }

  lemma {:induction false} ShlIsProduct(x: int, n: nat)
    ensures Shl(x, n) == x * Pow2(n)
    decreases n
  {
    if n > 0 {
      ShlIsProduct(x, n - 1);
      MulAssociate(x, 2, Pow2(n - 1));
    }
  }

  lemma {:induction false} ShlTwice(x: int, a: nat, b: nat)
    ensures Shl(Shl(x, a), b) == Shl(x, a + b)
    decreases b
  {
    if b > 0 { ShlTwice(x, a, b - 1); }
  }

  lemma {:induction false} ShlSum(x: int, y: int, n: nat)
    ensures Shl(x + y, n) == Shl(x, n) + Shl(y, n)
    decreases n
  {
    if n > 0 { ShlSum(x, y, n - 1); }
  }

  lemma {:induction false} ShlBound(x: int, m: nat, n: nat)
    requires 0 <= x < Pow2(m)
    ensures 0 <= Shl(x, n) < Pow2(m + n)
    decreases n
  {
    if n > 0 { ShlBound(x, m, n - 1); }
  }

  /** Shifting a high part and a low part together. */
  lemma ShlParts(a: int, u: nat, low: int, v: nat)
    requires 0 <= low < Pow2(u)
    ensures Shl(Shl(a, u) + low, v) == Shl(a, u + v) + Shl(low, v)
    ensures 0 <= Shl(low, v) < Pow2(u + v)
  {
    ShlSum(Shl(a, u), low, v);
    ShlTwice(a, u, v);
    ShlBound(low, u, v);
  }

  lemma {:induction false} ShlZero(n: nat)
    ensures Shl(0, n) == 0
  {
    if n > 0 { ShlZero(n - 1); }
  }

  /** An arithmetic right shift: n halvings, each rounding down. */
  function Shr(x: int, n: nat): int
    decreases n, x
  {
    if n == 0 then x else Shr(x / 2, n - 1)
  }

  /** The low n bits. */
  function Low(x: int, n: nat): (r: nat)
    ensures r < Pow2(n)
    decreases n, x
  {
    if n == 0 then 0 else 2 * Low(x / 2, n - 1) + x % 2
  }

  /** A high part above n bits and a low part below them can be told apart. */
  lemma {:induction false} ShrParts(a: int, n: nat, low: int)
    requires 0 <= low < Pow2(n)
    ensures Shr(Shl(a, n) + low, n) == a
    ensures Low(Shl(a, n) + low, n) == low
    decreases n
  {
    if n > 0 {
      assert (Shl(a, n) + low) / 2 == Shl(a, n - 1) + low / 2;
      ShrParts(a, n - 1, low / 2);
    }
  }

  /** Every number has these two parts. */
  lemma {:induction false} PartsOf(x: int, n: nat)
    ensures x == Shl(Shr(x, n), n) + Low(x, n)
    decreases n
  {
    if n > 0 { PartsOf(x / 2, n - 1); }
  }

  /** The shifts and the mask are the quotient, product and remainder by 2^n. */
  lemma ShiftsAreArithmetic(x: int, n: nat)
    ensures Shl(x, n) == x * Pow2(n)
    ensures Shr(x, n) == x / Pow2(n)
    ensures Low(x, n) == x % Pow2(n)
  {
    ShlIsProduct(x, n);
    PartsOf(x, n);
    ShlIsProduct(Shr(x, n), n);
    DivModUnique(Shr(x, n), Pow2(n), Low(x, n));
  }

  // ---- division by a positive divisor -----------------------------------

  /** The quotient and remainder of a * m + b, for b already reduced. */
  lemma DivModUnique(a: int, m: int, b: int)
    requires 0 <= b < m
    ensures (a * m + b) / m == a
    ensures (a * m + b) % m == b
  {
    var x := a * m + b;
    var q, r := x / m, x % m;
    assert x == q * m + r;
    assert (a - q) * m == r - b;
    if a > q {
      MulMonotone(1, a - q, m);
      assert false;
    } else if a < q {
      MulMonotone(a - q, -1, m);
      assert false;
    }
  }

  lemma MulMonotone(a: int, b: int, m: int)
    requires a <= b && 0 <= m
    ensures a * m <= b * m
  {
  }

  /** A common factor passes through the remainder. */
  lemma ModScale(a: int, m: int, p: int)
    requires m > 0 && p > 0
    ensures m * p > 0
    ensures (a * p) % (m * p) == (a % m) * p
  {
    var q, r := a / m, a % m;
    assert m * p > 0 by { MulMonotone(1, m, p); }
    assert a * p == q * (m * p) + r * p by {
      assert a == q * m + r;
      assert (q * m + r) * p == q * m * p + r * p;
      assert q * m * p == q * (m * p);
    }
    assert 0 <= r * p < m * p by {
      MulMonotone(0, r, p);
      MulMonotone(r, m - 1, p);
      assert (m - 1) * p == m * p - p;
    }
    DivModUnique(q, m * p, r * p);
  }

  lemma ModShift(x: int, k: int, m: int)
    requires m > 0
    ensures (x + k * m) % m == x % m
  {
    var q, r := x / m, x % m;
    assert x + k * m == (q + k) * m + r;
    DivModUnique(q + k, m, r);
  }

  // ---- fixed-width integers ---------------------------------------------

  /** The value an unsigned 32-bit word holds after a computation that gives x. */
  function U32(x: int): (w: nat)
    ensures w < TWO_TO_32
  {
    x % TWO_TO_32
  }

  /** Two's complement: the value an n-bit signed word holds for x. */
  function Signed(x: int, n: nat): (w: int)
    requires n >= 1
    ensures Fits(w, n)
  {
    (x + Pow2(n - 1)) % Pow2(n) - Pow2(n - 1)
  }

  ghost predicate Fits(x: int, n: nat)
    requires n >= 1
  {
    0 - Pow2(n - 1) <= x < Pow2(n - 1)
  }

  function S32(x: int): int32
  {
    (x + 0x8000_0000) % TWO_TO_32 - 0x8000_0000
  }

  function S16(x: int): int16
  {
    (x + 0x8000) % 0x1_0000 - 0x8000
  }

  function S8(x: int): (w: int)
    ensures -0x80 <= w < 0x80
  {
    (x + 0x80) % 0x100 - 0x80
  }

  /** Go's int32 `(x << n) >> n`. */
  function ShiftPair(x: int, n: nat): int { Shr(S32(Shl(x, n)), n) }

  lemma U32IsLow(x: int)
    ensures U32(x) == Low(x, 32)
  {
    Pow2Wide();
    ShiftsAreArithmetic(x, 32);
  }

  /** Wrapping leaves in-range values alone. */
  lemma SignedFits(x: int, n: nat)
    requires n >= 1 && Fits(x, n)
    ensures Signed(x, n) == x
  {
    assert Pow2(n) == 2 * Pow2(n - 1);
    DivModUnique(0, Pow2(n), x + Pow2(n - 1));
  }

  /** Values that differ by a multiple of 2^n wrap to the same word. */
  lemma SignedCongruent(x: int, k: int, n: nat)
    requires n >= 1
    ensures Signed(x + k * Pow2(n), n) == Signed(x, n)
  {
    hide Pow2;
    ModShift(x + Pow2(n - 1), k, Pow2(n));
  }

  /** A wrapped word differs from the value by a multiple of 2^n. */
  lemma SignedOffset(x: int, n: nat) returns (k: int)
    requires n >= 1
    ensures Signed(x, n) == x + k * Pow2(n)
  {
    var y := x + Pow2(n - 1);
    k := -(y / Pow2(n));
    assert y == (y / Pow2(n)) * Pow2(n) + y % Pow2(n);
    assert k * Pow2(n) == -((y / Pow2(n)) * Pow2(n));
  }

  lemma S32IsSigned(x: int)
    ensures S32(x) == Signed(x, 32)
  {
    Pow2Wide();
  }

  /** Wrapping to 32 bits first does not change a narrower wrap. */
  lemma SignedOfS32(x: int, n: nat)
    requires 1 <= n <= 32
    ensures Signed(S32(x), n) == Signed(x, n)
  {
    S32IsSigned(x);
    var k := SignedOffset(x, 32);
    var j := k * Pow2(32 - n);
    assert k * Pow2(32) == j * Pow2(n) by {
      Pow2Add(32 - n, n);
      MulAssociate(k, Pow2(32 - n), Pow2(n));
    }
    SignedCongruent(x, j, n);
  }

  lemma MulAssociate(a: int, b: int, c: int)
    ensures a * (b * c) == (a * b) * c
  {
  }

  /** Wrapping a multiple of p in a word of m * p values wraps its quotient in m. */
  lemma ScaledWrap(x: int, h: int, m: int, p: int)
    requires m > 0 && p > 0
    requires h * p == 0x8000_0000 && m * p == TWO_TO_32
    ensures S32(x * p) == ((x + h) % m - h) * p
  {
    ModScale(x + h, m, p);
    var w := (x + h) % m;
    assert (x + h) * p == x * p + h * p;
    assert (w - h) * p == w * p - h * p;
  }

  /** Shifting left and back by 32 - n sign-extends the low n bits. */
  lemma ShiftPairIsSigned(x: int, n: nat)
    requires 1 <= n <= 32
    ensures ShiftPair(x, 32 - n) == Signed(x, n)
  {
    var p := Pow2(32 - n);
    WordSplit(n);
    ScaledWrap(x, Pow2(n - 1), Pow2(n), p);
    SignedQuotient(x, n);
  }

  lemma WordSplit(n: nat)
    requires 1 <= n <= 32
    ensures Pow2(n - 1) * Pow2(32 - n) == 0x8000_0000
    ensures Pow2(n) * Pow2(32 - n) == TWO_TO_32
  {
    Pow2Wide();
    Pow2Add(n, 32 - n);
    Pow2Add(n - 1, 32 - n);
  }

  lemma SignedQuotient(x: int, n: nat)
    requires 1 <= n <= 32
    requires S32(x * Pow2(32 - n)) == Signed(x, n) * Pow2(32 - n)
    ensures ShiftPair(x, 32 - n) == Signed(x, n)
  {
    hide S32, Signed, Pow2, Shr, Shl;
    ShlIsProduct(x, 32 - n);
    ShlIsProduct(Signed(x, n), 32 - n);
    ShrParts(Signed(x, n), 32 - n, 0);
  }
}
