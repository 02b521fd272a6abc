/** The encoder that dynDecomp inverts. Its numbers are its own: the mean as a
    weighted average, the widths as a logarithm and a table, the zero-run flag from
    what it has sent. That they are the decoder's is proved, and decoding its output
    is a lockstep simulation. */
module GolombRoundTrip {
  import opened Words
  import opened Bits
  import opened Golomb
  import opened Residuals

  // ---- one symbol ----------------------------------------------------------

  function OneBits(n: nat): (b: seq<bit>)
    ensures |b| == n && forall i :: 0 <= i < n ==> b[i] == 1
  {
    seq(n, _ => 1)
  }

  /** How often m goes into n, counted up to cap. */
  function Quotient(n: nat, m: nat, cap: nat): nat
    decreases cap, n
  {
    if cap == 0 || n < m then 0 else 1 + Quotient(n - m, m, cap - 1)
  }

  lemma {:induction false} QuotientBounds(n: nat, m: nat, cap: nat)
    ensures Quotient(n, m, cap) <= cap && Times(Quotient(n, m, cap), m) <= n
    ensures Quotient(n, m, cap) < cap ==> n - Times(Quotient(n, m, cap), m) < m
    decreases cap
  {
    if cap > 0 && n >= m { QuotientBounds(n - m, m, cap - 1); }
  }

  /** n in at most eight ones, a zero and a remainder; or escaped behind nine. */
  function CodeWord(n: nat, k: nat, maxbits: nat): (b: seq<bit>)
    requires k >= 1
    ensures |b| >= 1
  {
    var m := Pow2(k) - 1;
    var div := Quotient(n, m, 9);
    var mod: int := n - Times(div, m);
    if div >= 9 then OneBits(9) + Field(n, maxbits)
    else if mod == 0 then OneBits(div) + [0] + Field(0, k - 1)
    else OneBits(div) + [0] + Field(mod + 1, k)
  }

  lemma OneBitsShow(s: seq<byte>, p: nat, n: nat)
    requires HasBits(s, p, OneBits(n))
    ensures RunOfOnes(s, p, n)
  {
    forall i: nat | p <= i < p + n ensures BitAt(s, i) == 1 {
      assert BitAt(s, p + (i - p)) == OneBits(n)[i - p];
    }
  }

  lemma PrefixShows(s: seq<byte>, p: nat, div: nat)
    requires div < MAX_PREFIX && HasBits(s, p, OneBits(div) + [0])
    ensures Ones(s, p, MAX_PREFIX) == div
  {
    HasBitsAppend(s, p, OneBits(div), [0]);
    OneBitsShow(s, p, div);
    assert BitAt(s, p + div + 0) == [0][0];
    OnesUnique(s, p, MAX_PREFIX, div);
  }

  /** k - 1 zero bits and whatever follows read as less than two. */
  lemma ZeroRemainder(s: seq<byte>, p: nat, k: nat)
    requires k >= 1 && HasBits(s, p, Field(0, k - 1))
    ensures Slice(s, p, k) < 2
  {
    FieldReads(s, p, 0, k - 1);
  }

  /** Reading a code word gives the value and stops right after it. */
  lemma CodeWordReads(s: seq<byte>, p: nat, n: nat, k: nat, maxbits: nat)
    requires k >= 1 && n < Pow2(maxbits)
    requires HasBits(s, p, CodeWord(n, k, maxbits))
    ensures Symbol(s, p, k, maxbits) == Sym(n, p + |CodeWord(n, k, maxbits)|)
  {
    hide Quotient, Times, Ones, Slice, Field, BitAt;
    var div := Quotient(n, Mask(k), 9);
    var mod: int := n - Times(div, Mask(k));
    QuotientBounds(n, Mask(k), 9);
    if div >= 9 {
      EscapeReads(s, p, n, k, maxbits);
    } else if mod == 0 {
      HasBitsAppend(s, p, OneBits(div) + [0], Field(0, k - 1));
      PrefixShows(s, p, div);
      ZeroRemainder(s, p + div + 1, k);
    } else {
      HasBitsAppend(s, p, OneBits(div) + [0], Field(mod + 1, k));
      PrefixShows(s, p, div);
      FieldReads(s, p + div + 1, mod + 1, k);
    }
  }

  lemma EscapeReads(s: seq<byte>, p: nat, n: nat, k: nat, maxbits: nat)
    requires n < Pow2(maxbits) && HasBits(s, p, OneBits(MAX_PREFIX) + Field(n, maxbits))
    ensures Symbol(s, p, k, maxbits) == Sym(n, p + MAX_PREFIX + maxbits)
  {
    HasBitsAppend(s, p, OneBits(MAX_PREFIX), Field(n, maxbits));
    OneBitsShow(s, p, MAX_PREFIX);
    OnesUnique(s, p, MAX_PREFIX, MAX_PREFIX);
    FieldReads(s, p + MAX_PREFIX, n, maxbits);
  }

  // ---- the encoder's own numbers ---------------------------------------------

  /** The mean after sending n, which stood for nd: pb parts in 512 of the new
      value for the old one, rounded up, and a fixed mean after a large n. */
  function SendMean(pb: nat, mb: nat, nd: nat, n: nat): nat
    requires pb <= 512
  {
    if n > 65535 then 65535 else Times(pb, nd) + (Times(512 - pb, mb) + 511) / 512
  }

  lemma SendMeanIsNext(pb: nat, mb: nat, n: nat, zmode: nat)
    requires pb <= 127
    ensures SendMean(pb, mb, n + zmode, n) == NextMean(mb, pb, n, zmode)
  {
    hide Times;
    TimesSplit(pb, 512 - pb, mb);
    TimesIsProduct(512, mb);
    Complements(mb, Times(pb, mb), Times(512 - pb, mb));
  }

  lemma Complements(mb: nat, x: nat, y: nat)
    requires x + y == 512 * mb
    ensures (y + 511) / 512 == mb - x / 512
  {
  }

  /** The number of times x can be halved before it is 1. */
  function Halvings(x: nat): nat
    requires x >= 1
  {
    if x == 1 then 0 else 1 + Halvings(x / 2)
  }

  lemma {:induction false} HalvingsBound(x: nat)
    requires x >= 1
    ensures Pow2(Halvings(x)) <= x < Pow2(Halvings(x) + 1)
  {
    if x > 1 { HalvingsBound(x / 2); }
  }

  lemma HalvingsAreLead(x: nat)
    requires 1 <= x < TWO_TO_32
    ensures Halvings(x) == 31 - LeadingZeros(x)
  {
    hide LeadingZeros, Halvings;
    var h := Halvings(x);
    HalvingsBound(x);
    Pow2Wide();
    if h >= 32 { Pow2Monotone(32, h); }
    LeadUnique(x, 31 - h);
  }

  /** The width for a mean: the logarithm of mb / 512 + 3, at most kb. */
  function SendWidth(mb: nat, kb: nat): (k: nat)
  {
    Min(Halvings(mb / 512 + 3), kb)
  }

  lemma SendWidthIsParam(mb: nat, kb: nat)
    requires mb <= MEAN_BOUND
    ensures SendWidth(mb, kb) == ParamK(mb, kb)
  {
    hide LeadingZeros, U32, Halvings;
    SmallWord(mb / 512 + 3);
    HalvingsAreLead(mb / 512 + 3);
  }

  /** The width of a run's length, by the mean before it. */
  function RunWidth(mb: nat): (k: nat)
    requires mb < 128
    ensures 2 <= k <= 8
  {
    if mb == 0 then 8
    else if mb < 2 then 7
    else if mb < 4 then 6
    else if mb < 8 then 5
    else if mb < 16 then 4
    else if mb < 32 then 3
    else if mb < 48 then 2
    else if mb < 64 then 3
    else if mb < 112 then 2
    else 3
  }

  lemma RunWidthIsRunK(mb: nat)
    requires mb < 128
    ensures RunWidth(mb) == RunK(mb)
  {
    hide LeadingZeros;
    Pow2Small();
    Pow2Wide();
    assert Pow2(0) == 1;
    if mb == 0 { LeadUnique(mb, 32); }
    else if mb < 2 { LeadUnique(mb, 31); }
    else if mb < 4 { LeadUnique(mb, 30); }
    else if mb < 8 { LeadUnique(mb, 29); }
    else if mb < 16 { LeadUnique(mb, 28); }
    else if mb < 32 { LeadUnique(mb, 27); }
    else if mb < 64 { LeadUnique(mb, 26); }
    else { LeadUnique(mb, 25); }
  }

  /** The decoder's number for the encoder's flag: a run ended short. */
  function Flag(cut: bool): (zmode: nat)
    ensures zmode <= 1
  {
    if cut then 1 else 0
  }

  // ---- a block ---------------------------------------------------------------

  /** Every residual fits a signed word of n bits. */
  ghost predicate AllFit(xs: seq<int>, n: nat)
    requires n >= 1
  {
    forall i :: 0 <= i < |xs| ==> Fits(xs[i], n)
  }

  /** The zero run at the head of xs, as long as possible up to the cap. */
  function RunLength(xs: seq<int>, cap: nat): (n: nat)
    ensures n <= |xs| && n <= cap
    ensures n < cap && n < |xs| ==> xs[n] != 0
    ensures xs[..n] == Zeros(n)
    decreases cap, xs
  {
    if cap == 0 || |xs| == 0 || xs[0] != 0 then 0
    else
      var m := RunLength(xs[1..], cap - 1);
      assert xs[..1 + m] == [xs[0]] + xs[1..][..m];
      1 + m
  }

  /** After a zero run that ended short the next residual is not zero, so its
      zigzag number can be sent less one. */
  ghost predicate InStep(xs: seq<int>, cut: bool)
  {
    cut && |xs| > 0 ==> xs[0] != 0
  }

  lemma ZigBound(x: int, n: nat)
    requires n >= 1 && Fits(x, n)
    ensures Zig(x) < Pow2(n)
    ensures x != 0 ==> Zig(x) >= 1
  {
  }

  lemma ZigZag(x: int, zmode: nat)
    requires zmode <= 1 && (zmode == 1 ==> x != 0)
    ensures Zig(x) >= zmode && Unzig((Zig(x) - zmode) + zmode) == x
  {
  }

  /** The number sent for a residual. */
  function Sent(x: int, cut: bool): nat
    requires cut ==> x != 0
  {
    Zig(x) - Flag(cut)
  }

  function HeadBits(ag: Params, maxSize: nat, x: int, mb: nat, cut: bool): (b: seq<bit>)
    requires Legal(ag) && mb <= MEAN_BOUND && (cut ==> x != 0)
    ensures |b| >= 1
  {
    SendWidthIsParam(mb, ag.kb);
    ParamRange(mb, ag.kb);
    CodeWord(Sent(x, cut), SendWidth(mb, ag.kb), maxSize)
  }

  function MeanAfter(ag: Params, x: int, mb: nat, cut: bool): (r: nat)
    requires Legal(ag) && mb <= MEAN_BOUND && (cut ==> x != 0)
    ensures r <= MEAN_BOUND
  {
    SendMeanIsNext(ag.pb, mb, Sent(x, cut), Flag(cut));
    MeanStaysBounded(mb, ag.pb, Sent(x, cut), Flag(cut));
    SendMean(ag.pb, mb, Zig(x), Sent(x, cut))
  }

  /** The decoder reads the residual and arrives at the encoder's mean. */
  lemma HeadReads(s: seq<byte>, ag: Params, maxSize: nat, p: nat, x: int, mb: nat, cut: bool)
    requires Legal(ag) && mb <= MEAN_BOUND && (cut ==> x != 0)
    requires maxSize >= 1 && Fits(x, maxSize)
    requires HasBits(s, p, HeadBits(ag, maxSize, x, mb, cut))
    ensures HeadAt(s, ag, maxSize, p, mb, Flag(cut))
         == Head(x, p + |HeadBits(ag, maxSize, x, mb, cut)|, MeanAfter(ag, x, mb, cut))
  {
    hide CodeWord, Symbol, SendMean, NextMean, SendWidth, ParamK;
    SendWidthIsParam(mb, ag.kb);
    ParamRange(mb, ag.kb);
    ZigZag(x, Flag(cut));
    ZigBound(x, maxSize);
    SendMeanIsNext(ag.pb, mb, Sent(x, cut), Flag(cut));
    CodeWordReads(s, p, Sent(x, cut), SendWidth(mb, ag.kb), maxSize);
  }

  function RunBits(zeros: nat, mb: nat): seq<bit>
    requires mb < 128
  {
    CodeWord(zeros, RunWidth(mb), 16)
  }

  lemma RunReads(s: seq<byte>, p: nat, zeros: nat, mb: nat)
    requires mb < 128 && zeros <= 65535 && HasBits(s, p, RunBits(zeros, mb))
    ensures RunAt(s, p, mb) == Sym(zeros, p + |RunBits(zeros, mb)|)
  {
    RunWidthIsRunK(mb);
    Pow2Wide();
    CodeWordReads(s, p, zeros, RunWidth(mb), 16);
  }

  /** What the encoder does for one turn: the bits, how many residuals they carry,
      the mean, and whether a run was sent that ended short of 65535. */
  datatype Coded = Coded(bits: seq<bit>, taken: nat, mb: nat, cut: bool)

  function EncodeTurn(ag: Params, maxSize: nat, xs: seq<int>, mb: nat, cut: bool): (c: Coded)
    requires Legal(ag) && mb <= MEAN_BOUND && InStep(xs, cut) && |xs| > 0
    ensures 0 < c.taken <= |xs| && c.mb <= MEAN_BOUND && |c.bits| >= 1
    ensures InStep(xs[c.taken..], c.cut)
  {
    var head := HeadBits(ag, maxSize, xs[0], mb, cut);
    var mb' := MeanAfter(ag, xs[0], mb, cut);
    if mb' < 128 && |xs| > 1 then
      var run := RunLength(xs[1..], 65535);
      Coded(head + RunBits(run, mb'), 1 + run, 0, run < 65535)
    else Coded(head, 1, mb', false)
  }

  function Encode(ag: Params, maxSize: nat, xs: seq<int>, mb: nat, cut: bool): seq<bit>
    requires Legal(ag) && mb <= MEAN_BOUND && InStep(xs, cut)
    decreases |xs|
  {
    if |xs| == 0 then []
    else
      var c := EncodeTurn(ag, maxSize, xs, mb, cut);
      c.bits + Encode(ag, maxSize, xs[c.taken..], c.mb, c.cut)
  }

  /** One turn of the decoder undoes one turn of the encoder and leaves the same
      mean and the same zero-run flag. */
  lemma TurnReads(s: seq<byte>, ag: Params, maxSize: nat, p: nat, xs: seq<int>, mb: nat, cut: bool)
    requires Legal(ag) && mb <= MEAN_BOUND && InStep(xs, cut) && |xs| > 0
    requires maxSize >= 1 && Fits(xs[0], maxSize)
    requires HasBits(s, p, EncodeTurn(ag, maxSize, xs, mb, cut).bits)
    requires p < 8 * |s|
    ensures var c := EncodeTurn(ag, maxSize, xs, mb, cut);
      OneTurn(s, ag, maxSize, p, |xs|, mb, Flag(cut))
        == Turn(xs[..c.taken], p + |c.bits|, c.mb, Flag(c.cut))
  {
    hide HeadBits, HeadAt, MeanAfter, RunBits, RunAt, RunLength;
    var head := HeadBits(ag, maxSize, xs[0], mb, cut);
    var mb' := MeanAfter(ag, xs[0], mb, cut);
    if mb' < 128 && |xs| > 1 {
      var run := RunLength(xs[1..], 65535);
      HasBitsAppend(s, p, head, RunBits(run, mb'));
      HeadReads(s, ag, maxSize, p, xs[0], mb, cut);
      RunReads(s, p + |head|, run, mb');
      assert xs[..1 + run] == [xs[0]] + xs[1..][..run];
    } else {
      HeadReads(s, ag, maxSize, p, xs[0], mb, cut);
      assert xs[..1] == [xs[0]];
    }
  }

  /** Decoding an encoded block recovers every residual and stops exactly at the
      end of its bits, whatever follows them. */
  lemma {:induction false} RoundTrip(s: seq<byte>, ag: Params, maxSize: nat, p: nat, xs: seq<int>,
                                     mb: nat, cut: bool)
    requires Legal(ag) && mb <= MEAN_BOUND && InStep(xs, cut)
    requires maxSize >= 1 && AllFit(xs, maxSize)
    requires HasBits(s, p, Encode(ag, maxSize, xs, mb, cut))
    requires p + |Encode(ag, maxSize, xs, mb, cut)| <= 8 * |s|
    ensures Decomp(s, ag, maxSize, p, |xs|, mb, Flag(cut))
         == Block(xs, p + |Encode(ag, maxSize, xs, mb, cut)|)
    decreases |xs|
  {
    hide OneTurn, EncodeTurn;
    if |xs| > 0 {
      var c := EncodeTurn(ag, maxSize, xs, mb, cut);
      var rest := xs[c.taken..];
      HasBitsAppend(s, p, c.bits, Encode(ag, maxSize, rest, c.mb, c.cut));
      TurnReads(s, ag, maxSize, p, xs, mb, cut);
      RoundTrip(s, ag, maxSize, p + |c.bits|, rest, c.mb, c.cut);
      Rejoined(s, ag, maxSize, p, xs, mb, Flag(cut), c.taken);
    }
  }

  /** A turn that yields the first residuals, followed by a block of the others. */
  lemma Rejoined(s: seq<byte>, ag: Params, maxSize: nat, p: nat, xs: seq<int>, mb: nat, zmode: nat,
                 n: nat)
    requires Legal(ag) && mb <= MEAN_BOUND && zmode <= 1 && 0 < n <= |xs|
    requires var t := OneTurn(s, ag, maxSize, p, |xs|, mb, zmode);
      && t.Turn? && t.xs == xs[..n]
      && Decomp(s, ag, maxSize, t.end, |xs| - n, t.mb, t.zmode).Block?
      && Decomp(s, ag, maxSize, t.end, |xs| - n, t.mb, t.zmode).res == xs[n..]
    ensures var t := OneTurn(s, ag, maxSize, p, |xs|, mb, zmode);
      Decomp(s, ag, maxSize, p, |xs|, mb, zmode)
        == Block(xs, Decomp(s, ag, maxSize, t.end, |xs| - n, t.mb, t.zmode).end)
  {
    hide OneTurn;
    assert xs == xs[..n] + xs[n..];
  }
}
