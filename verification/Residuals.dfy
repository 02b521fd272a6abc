/** Blocks of residuals: dynDecomp of internal/alac/ag.go, whose code parameters
    follow an adaptive mean, and the encoder that keeps pace with it. */
module Residuals {
  import opened Words
  import opened Bits
  import opened Golomb

  /** The errors the decoder reports. */
  datatype AlacError =
    | Truncated
    | CorruptRun
    | BadElement
    | BadShift
    | FrameTooLong
    | BadDepth

  /** The fields of agParams that steer the decoder. */
  datatype Params = Params(mb0: nat, pb: nat, kb: nat)

  /** What AirPlay's cookie guarantees: see Frames.Supported. */
  ghost predicate Legal(p: Params)
  {
    p.mb0 <= 255 && p.pb <= 127 && 8 <= p.kb
  }

  // ---- the mean ------------------------------------------------------------

  /** The mean's recurrence over unbounded integers. */
  function NextMean(mb: nat, pb: nat, n: nat, zmode: nat): int
  {
    if n > MEAN_CLAMP then MEAN_CLAMP else Times(pb, n + zmode) + mb - Times(pb, mb) / QB
  }

  /** The same step as ag.go takes it, wrapping every operation to 32 bits. */
  function MeanStep(mb: nat, pb: nat, n: nat, zmode: nat): nat
  {
    if n > MEAN_CLAMP then MEAN_CLAMP
    else U32(U32(Times(pb, U32(n + zmode))) + mb - U32(Times(pb, mb)) / QB)
  }

  /** With pb <= 127 the mean never leaves 0..2^25 and no operation wraps. */
  lemma MeanStaysBounded(mb: nat, pb: nat, n: nat, zmode: nat)
    requires mb <= MEAN_BOUND && pb <= 127 && zmode <= 1
    ensures 0 <= NextMean(mb, pb, n, zmode) <= MEAN_BOUND
    ensures MeanStep(mb, pb, n, zmode) == NextMean(mb, pb, n, zmode)
  {
    hide Times, U32;
    if n <= MEAN_CLAMP {
      SmallWord(n + zmode);
      TimesSplit(pb, QB - pb, mb);
      TimesSplit(pb, QB - pb, MEAN_BOUND);
      TimesIsProduct(QB, mb);
      TimesIsProduct(QB, MEAN_BOUND);
      TimesBound(QB - pb, mb, QB - pb, MEAN_BOUND);
      TimesBound(pb, mb, pb, MEAN_BOUND);
      TimesBound(pb, n + zmode, pb, 0x1_0000);
      TimesIsProduct(pb, 0x1_0000);
      TimesIsProduct(pb, MEAN_BOUND);
      MeanArith(pb, mb, Times(pb, mb), Times(pb, n + zmode), Times(QB - pb, mb));
    }
  }

  lemma SmallWord(x: int)
    requires 0 <= x < TWO_TO_32
    ensures U32(x) == x
  {
  }

  lemma MeanArith(pb: nat, mb: nat, x: nat, y: nat, z: nat)
    requires pb <= 127 && mb <= MEAN_BOUND && y <= pb * 0x1_0000
    requires x <= pb * MEAN_BOUND && x + z == QB * mb && pb * MEAN_BOUND + z <= QB * MEAN_BOUND
    ensures 0 <= y + mb - x / QB <= MEAN_BOUND
    ensures U32(U32(y) + mb - U32(x) / QB) == y + mb - x / QB
  {
  }

  method UpdateMean(mb: nat, pb: nat, n: nat, zmode: nat) returns (r: nat)
    requires mb <= MEAN_BOUND && pb <= 127 && zmode <= 1
    ensures r == NextMean(mb, pb, n, zmode) && r <= MEAN_BOUND
  {
    MeanStaysBounded(mb, pb, n, zmode);
    r := MeanStep(mb, pb, n, zmode);
  }

  /** The remainder width for a mean: floor(log2(mb / 512 + 3)), capped by kb. */
  function ParamK(mb: nat, kb: nat): int
  {
    Min(Lg3a(mb / QB), kb)
  }

  /** A bounded mean keeps every remainder inside the 32-bit look-ahead. */
  lemma ParamRange(mb: nat, kb: nat)
    requires mb <= MEAN_BOUND && 1 <= kb
    ensures 1 <= ParamK(mb, kb) <= 16
  {
    hide LeadingZeros, U32;
    Pow2Wide();
    var x := mb / QB + 3;
    SmallWord(x);
    LeadBounds(x);
    LeadAtLeast(x, 15);
    assert Pow2(0) == 1 && Pow2(1) == 2;
  }

  /** The remainder width of a zero-run symbol. */
  function RunK(mb: nat): int
  {
    LeadingZeros(mb) - 24 + (mb + 16) / 64
  }

  /** Zero-run mode is entered only below 128, where the width is 2..8 and the
      unsigned subtraction does not underflow. */
  lemma RunRange(mb: nat)
    requires mb < 128
    ensures 2 <= RunK(mb) <= 8
    ensures LeadingZeros(mb) >= 24
  {
    Pow2Small();
    LeadAtLeast(mb, 25);
    if mb > 0 {
      LeadBounds(mb);
      var r := LeadingZeros(mb);
      if r > 26 { Pow2Monotone(32 - r, 5); }
      if r > 25 { Pow2Monotone(32 - r, 6); }
    }
  }

  // ---- signs ---------------------------------------------------------------

  /** The residual for n + zmode: the low bit is the sign. */
  function Unzig(nd: nat): int
  {
    if nd % 2 == 1 then -((nd + 1) / 2) else nd / 2
  }

  function Zig(r: int): nat
  {
    if r >= 0 then 2 * r else -2 * r - 1
  }

  function Zeros(n: nat): (z: seq<int>)
    ensures |z| == n && forall i :: 0 <= i < n ==> z[i] == 0
  {
    seq(n, _ => 0)
  }

  // ---- the block -----------------------------------------------------------

  datatype Block =
    | Block(res: seq<int>, end: nat)
    | Failed(err: AlacError, end: nat)

  function Glue(pre: seq<int>, b: Block): Block
  {
    match b
    case Block(res, end) => Block(pre + res, end)
    case Failed(_, _) => b
  }

  /** One turn of the loop: the residuals it yields and the state it leaves, or
      the error it stops with. */
  datatype Turn =
    | Turn(xs: seq<int>, end: nat, mb: nat, zmode: nat)
    | Stop(err: AlacError, end: nat)

  /** The symbol at the head of a turn: its residual and the mean after it. */
  datatype Head = Head(x: int, end: nat, mb: nat)

  function HeadAt(s: seq<byte>, ag: Params, maxSize: nat, p: nat, mb: nat, zmode: nat): (h: Head)
    requires Legal(ag) && mb <= MEAN_BOUND && zmode <= 1
    ensures h.end >= p && h.mb <= MEAN_BOUND
  {
    ParamRange(mb, ag.kb);
    var sym := Symbol(s, p, ParamK(mb, ag.kb), maxSize);
    MeanStaysBounded(mb, ag.pb, sym.n, zmode);
    Head(Unzig(sym.n + zmode), sym.end, NextMean(mb, ag.pb, sym.n, zmode))
  }

  /** The zero-run symbol that follows a mean below 128. */
  function RunAt(s: seq<byte>, p: nat, mb: nat): (sym: Sym)
    requires mb < 128
    ensures sym.end >= p
  {
    RunRange(mb);
    Symbol(s, p, RunK(mb), 16)
  }

  function OneTurn(s: seq<byte>, ag: Params, maxSize: nat, p: nat, left: nat, mb: nat, zmode: nat)
    : (t: Turn)
    requires Legal(ag) && mb <= MEAN_BOUND && zmode <= 1 && left > 0
    ensures t.end >= p
    ensures t.Turn? ==> 0 < |t.xs| <= left && t.mb <= MEAN_BOUND && t.zmode <= 1
  {
    if p >= 8 * |s| then Stop(Truncated, p)
    else
      var h := HeadAt(s, ag, maxSize, p, mb, zmode);
      if h.mb < 128 && left > 1 then
        var run := RunAt(s, h.end, h.mb);
        if run.n > left - 1 then Stop(CorruptRun, run.end)
        else Turn([h.x] + Zeros(run.n), run.end, 0, AfterRun(run.n))
      else Turn([h.x], h.end, h.mb, 0)
  }

  /** What `left` more residuals starting at bit p decode to, given the mean and
      whether the last symbol was a zero run that ended early. */
  function Decomp(s: seq<byte>, ag: Params, maxSize: nat, p: nat, left: nat, mb: nat, zmode: nat)
    : (b: Block)
    requires Legal(ag) && mb <= MEAN_BOUND && zmode <= 1
    ensures b.end >= p
    ensures b.Block? ==> |b.res| == left
    decreases left
  {
    if left == 0 then Block([], p)
    else
      match OneTurn(s, ag, maxSize, p, left, mb, zmode)
      case Stop(err, end) => Failed(err, end)
      case Turn(xs, end, mb', zmode') =>
        Glue(xs, Decomp(s, ag, maxSize, end, left - |xs|, mb', zmode'))
  }

  function AfterRun(n: nat): (zmode: nat)
    ensures zmode <= 1
  {
    if n >= MAX_RUN then 0 else 1
  }

  lemma GlueTwice(a: seq<int>, b: seq<int>, c: Block)
    ensures Glue(a, Glue(b, c)) == Glue(a + b, c)
  {
    if c.Block? { assert a + (b + c.res) == (a + b) + c.res; }
  }

  /** A symbol that fits 31 bits leaves room for the sign arithmetic. */
  lemma SymbolRange(s: seq<byte>, p: nat, k: nat, maxbits: nat)
    requires 1 <= k <= 16 && maxbits <= 31
    ensures Symbol(s, p, k, maxbits).n < 0x8000_0000
  {
    hide Slice, Ones, Times, Mask;
    Pow2Wide();
    Pow2Monotone(maxbits, 31);
    SliceBound(s, p + MAX_PREFIX, maxbits);
    var pre := Ones(s, p, MAX_PREFIX);
    if pre < MAX_PREFIX { SymbolBounds(s, p + pre + 1, pre, k); }
  }

  /** `int32((ndecode+1)>>1) * multiplier`. */
  method Residual(n: nat, zmode: nat) returns (x: int32)
    requires n < 0x8000_0000 && zmode <= 1
    ensures x == Unzig(n + zmode)
  {
    var ndecode := U32(n + zmode);
    var multiplier := if ndecode % 2 == 1 then -1 else 1;
    x := S32(S32(U32(ndecode + 1) / 2) * multiplier);
  }

  /** The inner loop: n zero residuals from index c on. */
  method WriteRun(pc: array<int32>, c: nat, n: nat) returns (next: nat)
    requires c + n <= pc.Length
    modifies pc
    ensures next == c + n
    ensures pc[..next] == old(pc[..c]) + Zeros(n) && pc[next..] == old(pc[next..])
  {
    next := c;
    var j := 0;
    while j < n
      invariant 0 <= j <= n && next == c + j
      invariant pc[..next] == old(pc[..c]) + Zeros(j)
      invariant pc[next..] == old(pc[next..])
    {
      pc[next] := 0;
      next := next + 1;
      j := j + 1;
    }
  }

  /** The first half of dynDecomp's loop body: a symbol, its residual and the
      new mean. */
  method ReadHead(s: seq<byte>, ag: Params, maxSize: nat, p: nat, mb: nat, zmode: nat)
    returns (x: int32, bitPos: nat, mb': nat)
    requires Legal(ag) && mb <= MEAN_BOUND && zmode <= 1 && maxSize <= 31
    ensures Head(x, bitPos, mb') == HeadAt(s, ag, maxSize, p, mb, zmode)
  {
    ParamRange(mb, ag.kb);
    var k := ParamK(mb, ag.kb);
    SymbolRange(s, p, k, maxSize);
    var n;
    n, bitPos := DynGet32bit(s, p, Mask(k), k, maxSize);
    x := Residual(n, zmode);
    mb' := UpdateMean(mb, ag.pb, n, zmode);
  }

  /** `m & wb` for wb = (1 << kb) - 1, all ones when kb is 32 or more. */
  function AndWb(m: int, kb: nat): nat
  {
    Low(m, Min(kb, 32))
  }

  /** The run symbol's mask already lies within wb, so the `&` changes nothing. */
  lemma WbIsIdle(k: nat, kb: nat)
    requires 1 <= k <= 8 <= kb
    ensures AndWb(Mask(k), kb) == Mask(k)
  {
    var w := Min(kb, 32);
    Pow2Monotone(k, w);
    ShlZero(w);
    ShrParts(0, w, Mask(k));
  }

  /** The second half, entered when `mb << 2 < 512`: the length of a zero run. */
  method ReadRun(s: seq<byte>, p: nat, mb: nat, kb: nat) returns (n: nat, bitPos: nat)
    requires mb < 128 && kb >= 8
    ensures Sym(n, bitPos) == RunAt(s, p, mb)
  {
    RunRange(mb);
    var k := RunK(mb);
    WbIsIdle(k, kb);
    var mz := AndWb(Mask(k), kb);
    n, bitPos := DynGet(s, p, mz, k);
  }

  /** A turn by its halves: a symbol, and a run if the mean has fallen below 128
      and a residual is still missing. */
  lemma TurnByHalves(s: seq<byte>, ag: Params, maxSize: nat, p: nat, left: nat, mb: nat, zmode: nat)
    requires Legal(ag) && mb <= MEAN_BOUND && zmode <= 1 && left > 0 && p < 8 * |s|
    ensures var h, t := HeadAt(s, ag, maxSize, p, mb, zmode), OneTurn(s, ag, maxSize, p, left, mb, zmode);
      && (U32(h.mb * 4) < QB <==> h.mb < 128)
      && (h.mb >= 128 || left == 1 ==> t == Turn([h.x], h.end, h.mb, 0))
      && (h.mb < 128 && left > 1 ==>
            var run := RunAt(s, h.end, h.mb);
            t == if run.n > left - 1 then Stop(CorruptRun, run.end)
                 else Turn([h.x] + Zeros(run.n), run.end, 0, AfterRun(run.n)))
  {
    hide HeadAt, RunAt;
  }

  /** What a run says about what follows it: one short of 65535 zeros is followed by
      a residual that is not zero, a full one by any. */
  lemma RunSaysWhatFollows(s: seq<byte>, ag: Params, maxSize: nat, p: nat, left: nat, mb: nat, zmode: nat,
                           more: nat)
    requires Legal(ag) && mb <= MEAN_BOUND && zmode <= 1 && left > 1 && more > 0
    requires OneTurn(s, ag, maxSize, p, left, mb, zmode).Turn? && HeadAt(s, ag, maxSize, p, mb, zmode).mb < 128
    ensures var t := OneTurn(s, ag, maxSize, p, left, mb, zmode);
      && t.xs[1..] == Zeros(|t.xs| - 1)
      && (|t.xs| - 1 >= 65535 ==> t.zmode == 0)
      && (|t.xs| - 1 < 65535 ==>
            var next := OneTurn(s, ag, maxSize, t.end, more, t.mb, t.zmode);
            next.Turn? ==> next.xs[0] != 0)
  {
    hide Symbol, NextMean, ParamK, RunAt;
  }

  /** The part of a block already decoded, then the rest. */
  ghost predicate Resumes(whole: Block, done: seq<int>, s: seq<byte>, ag: Params, maxSize: nat,
                          p: nat, left: nat, mb: nat, zmode: nat)
  {
    && Legal(ag) && mb <= MEAN_BOUND && zmode <= 1
    && whole == Glue(done, Decomp(s, ag, maxSize, p, left, mb, zmode))
  }

  lemma ResumesAfter(whole: Block, done: seq<int>, s: seq<byte>, ag: Params, maxSize: nat,
                     p: nat, left: nat, mb: nat, zmode: nat)
    requires Resumes(whole, done, s, ag, maxSize, p, left, mb, zmode) && left > 0
    ensures match OneTurn(s, ag, maxSize, p, left, mb, zmode)
      case Stop(err, end) => whole == Failed(err, end) && (p >= 8 * |s| ==> err == Truncated && end == p)
      case Turn(xs, end, mb', zmode') =>
        p < 8 * |s| && |xs| <= left && mb' <= MEAN_BOUND && zmode' <= 1
        && Resumes(whole, done + xs, s, ag, maxSize, end, left - |xs|, mb', zmode')
  {
    match OneTurn(s, ag, maxSize, p, left, mb, zmode)
    case Stop(err, end) =>
    case Turn(xs, end, mb', zmode') =>
      GlueTwice(done, xs, Decomp(s, ag, maxSize, end, left - |xs|, mb', zmode'));
  }

  lemma ResumesAtStart(s: seq<byte>, ag: Params, maxSize: nat, p: nat, left: nat)
    requires Legal(ag)
    ensures Resumes(Decomp(s, ag, maxSize, p, left, ag.mb0, 0), [], s, ag, maxSize, p, left, ag.mb0, 0)
  {
    var b := Decomp(s, ag, maxSize, p, left, ag.mb0, 0);
    if b.Block? { assert [] + b.res == b.res; }
  }

  /** dynDecomp: the loop of ag.go over the reader, the residual buffer and the
      running mean, in 32-bit arithmetic. */
  method DynDecomp(ag: Params, bits: BitBuffer, pc: array<int32>, numSamples: nat, maxSize: nat)
    returns (used: nat, err: bool, why: AlacError)
    requires Legal(ag) && numSamples <= pc.Length && maxSize <= 31
    modifies bits`pos, pc
    ensures var b := Decomp(bits.buf, ag, maxSize, old(bits.pos), numSamples, ag.mb0, 0);
      && err == b.Failed? && (err ==> why == b.err)
      && bits.pos == b.end && used == b.end - old(bits.pos)
      && (!err ==> pc[..numSamples] == b.res)
    ensures pc[numSamples..] == old(pc[numSamples..])
  {
    hide Decomp, OneTurn, Glue, Resumes, HeadAt, RunAt, U32;
    var s := bits.buf;
    var startPos := bits.pos;
    var maxPos := 8 * |s|;
    var bitPos := startPos;
    var mb: nat, zmode: nat, c: nat := ag.mb0, 0, 0;
    err, why := false, Truncated;
    ghost var whole := Decomp(s, ag, maxSize, startPos, numSamples, ag.mb0, 0);
    ghost var done: seq<int> := [];
    ResumesAtStart(s, ag, maxSize, startPos, numSamples);
    while c < numSamples
      invariant 0 <= c <= numSamples && startPos <= bitPos && bits.pos == startPos
      invariant mb <= MEAN_BOUND && zmode <= 1
      invariant Resumes(whole, done, s, ag, maxSize, bitPos, numSamples - c, mb, zmode)
      invariant pc[..c] == done
      invariant pc[numSamples..] == old(pc[numSamples..])
    {
      ResumesAfter(whole, done, s, ag, maxSize, bitPos, numSamples - c, mb, zmode);
      if bitPos >= maxPos {
        bits.Advance(bitPos - startPos);
        return bitPos - startPos, true, Truncated;
      }
      TurnByHalves(s, ag, maxSize, bitPos, numSamples - c, mb, zmode);
      ghost var before := done;
      pc[c], bitPos, mb := ReadHead(s, ag, maxSize, bitPos, mb, zmode);
      done := done + [pc[c] as int];
      c := c + 1;
      zmode := 0;
      if U32(mb * 4) < QB && c < numSamples {
        var n;
        n, bitPos := ReadRun(s, bitPos, mb, ag.kb);
        if c + n > numSamples {
          bits.Advance(bitPos - startPos);
          return bitPos - startPos, true, CorruptRun;
        }
        c := WriteRun(pc, c, n);
        assert done + Zeros(n) == before + ([done[|done| - 1]] + Zeros(n));
        done := done + Zeros(n);
        zmode := AfterRun(n);
        mb := 0;
      }
    }
    ResumesAtEnd(whole, done, s, ag, maxSize, bitPos, mb, zmode);
    used := bitPos - startPos;
    bits.Advance(used);
  }

  lemma ResumesAtEnd(whole: Block, done: seq<int>, s: seq<byte>, ag: Params, maxSize: nat, p: nat,
                     mb: nat, zmode: nat)
    requires Resumes(whole, done, s, ag, maxSize, p, 0, mb, zmode)
    ensures whole == Block(done, p)
  {
    assert done + [] == done;
  }
}
