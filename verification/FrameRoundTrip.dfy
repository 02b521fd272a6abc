/** The frame encoder that the decoder inverts, whole frames through both, and
    what a truncated frame cannot do. */
module FrameRoundTrip {
  import opened Words
  import opened Bits
  import opened Golomb
  import opened Residuals
  import opened GolombRoundTrip
  import opened Locality
  import opened Predictor
  import opened Frames

  // ---- mid/side ----------------------------------------------------------------

  /** The encoder's mid channel: a weighted mean of left and right. */
  function Mid(l: int, r: int, mixBits: nat, mixRes: int): int
  {
    if mixRes != 0 then Shr(mixRes * l + (Pow2(mixBits) - mixRes) * r, mixBits) else l
  }

  function Side(l: int, r: int, mixRes: int): int
  {
    if mixRes != 0 then l - r else r
  }

  lemma {:induction false} ShrCarries(x: int, a: int, n: nat)
    ensures Shr(x + Shl(a, n), n) == Shr(x, n) + a
    decreases n
  {
    if n > 0 {
      assert (x + Shl(a, n)) / 2 == x / 2 + Shl(a, n - 1);
      ShrCarries(x / 2, a, n - 1);
    }
  }

  lemma {:induction false} ShrMonotone(x: int, y: int, n: nat)
    requires x <= y
    ensures Shr(x, n) <= Shr(y, n)
    decreases n
  {
    if n > 0 { ShrMonotone(x / 2, y / 2, n - 1); }
  }

  /** The mid sample is the right one plus the scaled difference. */
  lemma MidIsOffset(l: int, r: int, mixBits: nat, mixRes: int)
    requires mixRes != 0
    ensures Mid(l, r, mixBits, mixRes) == r + Shr(mixRes * (l - r), mixBits)
  {
    var m := Pow2(mixBits);
    assert mixRes * l + (m - mixRes) * r == mixRes * (l - r) + r * m;
    ShlIsProduct(r, mixBits);
    ShrCarries(mixRes * (l - r), r, mixBits);
  }

  ghost predicate IsSample(x: int) { -0x8000 <= x < 0x8000 }

  lemma SignedByte(a: int, d: int)
    requires -0x80 <= a < 0x80 && -0x1_0000 < d < 0x1_0000
    ensures -0x80_0000 <= a * d <= 0x80_0000
  {
    if d >= 0 {
      MulMonotone(-0x80, a, d);
      MulMonotone(a, 0x80, d);
    } else {
      MulMonotone(-0x80, a, -d);
      MulMonotone(a, 0x80, -d);
    }
  }

  /** Unmixing gives back left and right, for any weight whose mid sample fits. */
  lemma UnmixInverse(l: int, r: int, mixBits: nat, mixRes: int)
    requires IsSample(l) && IsSample(r) && -0x80 <= mixRes < 0x80
    requires -0x1_0000 <= Mid(l, r, mixBits, mixRes) < 0x1_0000
    ensures Left(Mid(l, r, mixBits, mixRes), Side(l, r, mixRes), mixBits, mixRes) == l
    ensures Right(Mid(l, r, mixBits, mixRes), Side(l, r, mixRes), mixBits, mixRes) == r
  {
    hide Mid, Shr;
    if mixRes != 0 {
      MidIsOffset(l, r, mixBits, mixRes);
      SignedByte(mixRes, l - r);
      UnmixArith(Mid(l, r, mixBits, mixRes), l, r, mixRes * (l - r), Shr(mixRes * (l - r), mixBits));
    } else {
      assert Mid(l, r, mixBits, 0) == l by { MidPlain(l, r, mixBits); }
    }
  }

  lemma MidPlain(l: int, r: int, mixBits: nat)
    ensures Mid(l, r, mixBits, 0) == l
  {
  }

  lemma UnmixArith(u: int, l: int, r: int, x: int, y: int)
    requires IsSample(l) && IsSample(r) && u == r + y && -0x1_0000 <= u < 0x1_0000
    requires -0x80_0000 <= x <= 0x80_0000
    ensures S32(x) == x && S32(u + (l - r)) == u + (l - r)
    ensures S32(S32(u + (l - r)) as int - y) == l && S32(l - (l - r)) == r
    ensures S16(l) == l && S16(r) == r
  {
  }

  /** Every weight from 0 to 2^mixBits keeps the mid sample between the two. */
  lemma LegalMixFits(l: int, r: int, mixBits: nat, mixRes: int)
    requires IsSample(l) && IsSample(r) && 0 <= mixRes <= Pow2(mixBits)
    ensures IsSample(Mid(l, r, mixBits, mixRes))
  {
    hide Shr, Shl, Pow2;
    if mixRes != 0 {
      MidIsOffset(l, r, mixBits, mixRes);
      var d := l - r;
      ShlIsProduct(d, mixBits);
      ShlZero(mixBits);
      ShrCarries(0, d, mixBits);
      ShrCarries(0, 0, mixBits);
      if d >= 0 {
        MulMonotone(mixRes, Pow2(mixBits), d);
        MulMonotone(0, mixRes, d);
        ShrMonotone(mixRes * d, Shl(d, mixBits), mixBits);
        ShrMonotone(0, mixRes * d, mixBits);
      } else {
        MulMonotone(mixRes, Pow2(mixBits), -d);
        MulMonotone(0, mixRes, -d);
        ShrMonotone(Shl(d, mixBits), mixRes * d, mixBits);
        ShrMonotone(mixRes * d, 0, mixBits);
      }
      ShrOfZero(mixBits);
    }
  }

  lemma {:induction false} ShrOfZero(n: nat)
    ensures Shr(0, n) == 0
  {
    if n > 0 { ShrOfZero(n - 1); }
  }

  function Mids(ls: seq<int>, rs: seq<int>, mixBits: nat, mixRes: int): (us: seq<int>)
    requires |ls| == |rs|
    ensures |us| == |ls|
  {
    seq(|ls|, i requires 0 <= i < |ls| => Mid(ls[i], rs[i], mixBits, mixRes))
  }

  function Sides(ls: seq<int>, rs: seq<int>, mixRes: int): (vs: seq<int>)
    requires |ls| == |rs|
    ensures |vs| == |ls|
  {
    seq(|ls|, i requires 0 <= i < |ls| => Side(ls[i], rs[i], mixRes))
  }

  function Interleaved(ls: seq<int>, rs: seq<int>): (out: seq<int>)
    requires |ls| == |rs|
    ensures |out| == 2 * |ls|
  {
    seq(2 * |ls|, i requires 0 <= i < 2 * |ls| => if i % 2 == 0 then ls[i / 2] else rs[i / 2])
  }

  ghost predicate AreSamples(xs: seq<int>)
  {
    forall i :: 0 <= i < |xs| ==> IsSample(xs[i])
  }

  /** Both mixed channels fit words of width bits. */
  ghost predicate MixFits(ls: seq<int>, rs: seq<int>, mixBits: nat, mixRes: int, width: nat)
    requires |ls| == |rs| && width >= 1
  {
    forall i :: 0 <= i < |ls| ==>
      Fits(Mid(ls[i], rs[i], mixBits, mixRes), width) && Fits(Side(ls[i], rs[i], mixRes), width)
  }

  lemma UnmixFrame(ls: seq<int>, rs: seq<int>, mixBits: nat, mixRes: int)
    requires |ls| == |rs| && AreSamples(ls) && AreSamples(rs) && -0x80 <= mixRes < 0x80
    requires exists width: nat :: 1 <= width <= 17 && MixFits(ls, rs, mixBits, mixRes, width)
    ensures Unmixed(Mids(ls, rs, mixBits, mixRes), Sides(ls, rs, mixRes), mixBits, mixRes)
         == Interleaved(ls, rs)
  {
    hide Mid, Side, Left, Right;
    forall i | 0 <= i < |ls|
      ensures Left(Mid(ls[i], rs[i], mixBits, mixRes), Side(ls[i], rs[i], mixRes), mixBits, mixRes) == ls[i]
      ensures Right(Mid(ls[i], rs[i], mixBits, mixRes), Side(ls[i], rs[i], mixRes), mixBits, mixRes) == rs[i]
    {
      var width: nat :| 1 <= width <= 17 && MixFits(ls, rs, mixBits, mixRes, width);
      FitsWide(Mid(ls[i], rs[i], mixBits, mixRes), width);
      UnmixInverse(ls[i], rs[i], mixBits, mixRes);
    }
  }

  lemma FitsWide(x: int, width: nat)
    requires 1 <= width <= 17 && Fits(x, width)
    ensures -0x1_0000 <= x < 0x1_0000
  {
    Pow2Monotone(width - 1, 16);
    Pow2Wide();
  }

  // ---- one channel ---------------------------------------------------------------

  /** The residuals the encoder sends for a channel. */
  function SentResidues(c: Channel, chanBits: nat, xs: seq<int>): (res: seq<int>)
    requires ValidChannel(c) && 1 <= chanBits <= 32
    ensures |res| == |xs|
  {
    var pc := Residues(ChannelSetup(c, chanBits), Active(c.coefs, |c.coefs|), xs, |xs|);
    if c.mode == 0 then pc else Residues(DeltaSetup(chanBits), DELTA_COEFS, pc, |pc|)
  }

  /** The decoder's predictor passes undo the encoder's. */
  lemma SentRebuilds(c: Channel, chanBits: nat, xs: seq<int>)
    requires ValidChannel(c) && 1 <= chanBits <= 32 && AllFit(xs, chanBits)
    ensures AllFit(SentResidues(c, chanBits, xs), chanBits)
    ensures Rebuilt(c, chanBits, SentResidues(c, chanBits, xs)) == xs
  {
    hide DecoderAfter, Residues, Fits;
    var u, cs := ChannelSetup(c, chanBits), Active(c.coefs, |c.coefs|);
    var pc := Residues(u, cs, xs, |xs|);
    ResiduesFit(u, cs, xs, |xs|);
    PredictorInverse(u, cs, xs);
    if c.mode != 0 {
      ResiduesFit(DeltaSetup(chanBits), DELTA_COEFS, pc, |pc|);
      PredictorInverse(DeltaSetup(chanBits), DELTA_COEFS, pc);
    }
  }

  // ---- fields --------------------------------------------------------------------

  function Put(v: int, n: nat, rest: seq<bit>): seq<bit> { Field(v, n) + rest }

  lemma TakeField(s: seq<byte>, p: nat, v: int, n: nat, rest: seq<bit>)
    requires 0 <= v < Pow2(n) && HasBits(s, p, Put(v, n, rest))
    ensures Slice(s, p, n) == v && HasBits(s, p + n, rest)
  {
    HasBitsAppend(s, p, Field(v, n), rest);
    FieldReads(s, p, v, n);
  }

  function CoefBits(coefs: seq<int>): (b: seq<bit>)
    ensures |b| == 16 * |coefs|
  {
    if |coefs| == 0 then [] else Field(coefs[0] % 0x1_0000, 16) + CoefBits(coefs[1..])
  }

  lemma {:induction false} CoefsRead(s: seq<byte>, p: nat, coefs: seq<int>)
    requires AreSamples(coefs) && HasBits(s, p, CoefBits(coefs))
    ensures CoefsAt(s, p, |coefs|) == coefs
    decreases |coefs|
  {
    hide HasBits, Slice, Field;
    if |coefs| > 0 {
      Pow2Wide();
      HasBitsAppend(s, p, Field(coefs[0] % 0x1_0000, 16), CoefBits(coefs[1..]));
      FieldReads(s, p, coefs[0] % 0x1_0000, 16);
      CoefsRead(s, p + 16, coefs[1..]);
      var got := CoefsAt(s, p, |coefs|);
      forall i | 0 <= i < |coefs| ensures got[i] == coefs[i] {
        if i == 0 {
          assert S16(coefs[0] % 0x1_0000) == coefs[0];
        } else {
          assert CoefsAt(s, p + 16, |coefs| - 1)[i - 1] == coefs[1..][i - 1];
          assert p + 16 + 16 * (i - 1) == p + 16 * i;
        }
      }
    }
  }

  function ChannelBits(c: Channel, rest: seq<bit>): seq<bit>
  {
    Put(c.mode, 4, Put(c.denShift, 4, Put(c.pbFactor, 3, Put(|c.coefs|, 5, CoefBits(c.coefs) + rest))))
  }

  lemma ChannelReads(s: seq<byte>, p: nat, c: Channel, rest: seq<bit>)
    requires ValidChannel(c) && c.mode <= 15 && HasBits(s, p, ChannelBits(c, rest))
    ensures ChannelAt(s, p) == c && HasBits(s, ChannelEnd(s, p), rest)
    ensures ChannelEnd(s, p) == p + 16 + 16 * |c.coefs|
  {
    hide Put, HasBits, Slice, CoefBits, CoefsAt;
    Pow2Small();
    var b3 := CoefBits(c.coefs) + rest;
    var b2 := Put(|c.coefs|, 5, b3);
    var b1 := Put(c.pbFactor, 3, b2);
    var b0 := Put(c.denShift, 4, b1);
    TakeField(s, p, c.mode, 4, b0);
    TakeField(s, p + 4, c.denShift, 4, b1);
    TakeField(s, p + 8, c.pbFactor, 3, b2);
    TakeField(s, p + 11, |c.coefs|, 5, b3);
    HasBitsAppend(s, p + 16, CoefBits(c.coefs), rest);
    CoefsRead(s, p + 16, c.coefs);
  }

  // ---- the encoder's parameters ----------------------------------------------------

  /** A quarter, rounded down. */
  function Quarter(x: nat): (q: nat)
    ensures 4 * q <= x < 4 * q + 4
  {
    if x < 4 then 0 else 1 + Quarter(x - 4)
  }

  /** The cookie's mean and width, and its rate scaled by a number of quarters. */
  function SendParams(cfg: Config, pbFactor: nat): (ag: Params)
    requires Supported(cfg) && pbFactor <= 7
    ensures Legal(ag) && ag == AgParams(cfg, pbFactor)
  {
    MulMonotone(0, pbFactor, cfg.pb);
    AgParamsScales(cfg, pbFactor);
    Params(cfg.mb, Quarter(cfg.pb * pbFactor), cfg.kb)
  }

  // ---- whole frames --------------------------------------------------------------

  /** The encoder's free choices; low is what it sends aside of each sample. */
  datatype Plan = Plan(instance: nat, unused: nat, partial: nat, shifted: nat, low: seq<bit>,
                       mixBits: nat, mixRes: int, u: Channel, v: Channel)

  ghost predicate ValidPlan(plan: Plan)
  {
    && plan.instance < 16 && plan.unused < 4096 && plan.partial <= 1 && plan.shifted <= 2
    && plan.mixBits < 256 && -0x80 <= plan.mixRes < 0x80
    && ValidChannel(plan.u) && plan.u.mode <= 15 && ValidChannel(plan.v) && plan.v.mode <= 15
  }

  /** The width of a channel of a pair: one more than that of a sample. */
  function Width(plan: Plan): (w: nat)
    requires ValidPlan(plan)
    ensures 1 <= w <= 17
  {
    if plan.shifted == 0 then 17 else if plan.shifted == 1 then 9 else 1
  }

  /** n is sent only in partial frames; other frames have the configured length. */
  ghost predicate FitsFrame(cfg: Config, plan: Plan, n: nat)
  {
    n <= cfg.frameLength && n < TWO_TO_32 && (plan.partial == 0 ==> n == cfg.frameLength)
  }

  function HeaderBits(tag: nat, plan: Plan, escape: nat, n: nat, rest: seq<bit>): seq<bit>
  {
    Put(tag, 3, Put(plan.instance, 4, Put(plan.unused, 12, Put(plan.partial, 1,
      Put(plan.shifted, 2, Put(escape, 1, if plan.partial == 0 then rest else Put(n, 32, rest)))))))
  }

  lemma HeaderReads(cfg: Config, s: seq<byte>, tag: nat, plan: Plan, escape: nat, n: nat, rest: seq<bit>)
    requires ValidPlan(plan) && FitsFrame(cfg, plan, n) && escape <= 1 && tag < 8
    requires HasBits(s, 0, HeaderBits(tag, plan, escape, n, rest))
    ensures var h := HeaderAt(cfg, s, 3);
      && Slice(s, 0, 3) == tag
      && h.bytesShifted == plan.shifted && h.escape == escape && h.n == n
      && HasBits(s, h.end, rest) && h.end + |rest| == |HeaderBits(tag, plan, escape, n, rest)|
  {
    hide HasBits, Slice, Field;
    Pow2Small();
    Pow2Wide();
    var b6 := if plan.partial == 0 then rest else Put(n, 32, rest);
    var b5 := Put(escape, 1, b6);
    var b4 := Put(plan.shifted, 2, b5);
    var b3 := Put(plan.partial, 1, b4);
    var b2 := Put(plan.unused, 12, b3);
    var b1 := Put(plan.instance, 4, b2);
    TakeField(s, 0, tag, 3, b1);
    TakeField(s, 3, plan.instance, 4, b2);
    assert Pow2(12) == 4096;
    TakeField(s, 7, plan.unused, 12, b3);
    TakeField(s, 19, plan.partial, 1, b4);
    TakeField(s, 20, plan.shifted, 2, b5);
    TakeField(s, 22, escape, 1, b6);
    if plan.partial != 0 { TakeField(s, 23, n, 32, rest); }
  }

  /** One channel's residuals at a width. */
  function BlockOf(cfg: Config, c: Channel, width: nat, xs: seq<int>): seq<bit>
    requires Supported(cfg) && ValidChannel(c) && 1 <= width <= 32
  {
    Encode(SendParams(cfg, c.pbFactor), width, SentResidues(c, width, xs), cfg.mb, false)
  }

  /** Both blocks of residuals and the end tag. */
  function BlockBits(cfg: Config, plan: Plan, us: seq<int>, vs: seq<int>): seq<bit>
    requires Supported(cfg) && ValidPlan(plan)
  {
    BlockOf(cfg, plan.u, Width(plan), us) + (BlockOf(cfg, plan.v, Width(plan), vs) + Field(7, 3))
  }

  function BodyBits(cfg: Config, plan: Plan, ls: seq<int>, rs: seq<int>): seq<bit>
    requires Supported(cfg) && ValidPlan(plan) && |ls| == |rs|
  {
    Put(plan.mixBits, 8, Put(plan.mixRes % 0x100, 8,
      ChannelBits(plan.u, ChannelBits(plan.v, plan.low +
        BlockBits(cfg, plan, Mids(ls, rs, plan.mixBits, plan.mixRes), Sides(ls, rs, plan.mixRes))))))
  }

  function FrameBits(cfg: Config, plan: Plan, ls: seq<int>, rs: seq<int>): seq<bit>
    requires Supported(cfg) && ValidPlan(plan) && |ls| == |rs|
  {
    HeaderBits(1, plan, 0, |ls|, BodyBits(cfg, plan, ls, rs))
  }

  /** The decoder reads back both blocks and stands at the end tag. */
  lemma BlocksRead(cfg: Config, s: seq<byte>, p: nat, plan: Plan, us: seq<int>, vs: seq<int>)
    requires Supported(cfg) && ValidPlan(plan) && |us| == |vs|
    requires AllFit(us, Width(plan)) && AllFit(vs, Width(plan))
    requires HasBits(s, p, BlockBits(cfg, plan, us, vs)) && p + |BlockBits(cfg, plan, us, vs)| <= 8 * |s|
    ensures var w := Width(plan); var bu := ChannelBlock(cfg, s, p, |us|, plan.u, w);
      && bu.Block? && bu.res == SentResidues(plan.u, w, us)
      && var bv := ChannelBlock(cfg, s, bu.end, |us|, plan.v, w);
      && bv.Block? && bv.res == SentResidues(plan.v, w, vs)
      && Slice(s, bv.end, 3) == 7 && bv.end + 3 == p + |BlockBits(cfg, plan, us, vs)|
  {
    hide HasBits, Slice, BlockOf, ChannelBlock, SentResidues, AllFit, Field, Rebuilt;
    Pow2Small();
    var w := Width(plan);
    var eu, ev := BlockOf(cfg, plan.u, w, us), BlockOf(cfg, plan.v, w, vs);
    HasBitsAppend(s, p, eu, ev + Field(7, 3));
    HasBitsAppend(s, p + |eu|, ev, Field(7, 3));
    BlockReads(cfg, s, p, plan.u, w, us);
    BlockReads(cfg, s, p + |eu|, plan.v, w, vs);
    FieldReads(s, p + |eu| + |ev|, 7, 3);
  }

  lemma BlockReads(cfg: Config, s: seq<byte>, p: nat, c: Channel, width: nat, xs: seq<int>)
    requires Supported(cfg) && ValidChannel(c) && 1 <= width <= 17 && AllFit(xs, width)
    requires HasBits(s, p, BlockOf(cfg, c, width, xs)) && p + |BlockOf(cfg, c, width, xs)| <= 8 * |s|
    ensures ChannelBlock(cfg, s, p, |xs|, c, width)
         == Block(SentResidues(c, width, xs), p + |BlockOf(cfg, c, width, xs)|)
  {
    hide Encode, Decomp, SentResidues, AllFit, HasBits, AgParams, Rebuilt;
    SentRebuilds(c, width, xs);
    RoundTrip(s, SendParams(cfg, c.pbFactor), width, p, SentResidues(c, width, xs), cfg.mb, false);
  }

  lemma MixedFit(ls: seq<int>, rs: seq<int>, mixBits: nat, mixRes: int, width: nat)
    requires |ls| == |rs| && width >= 1 && MixFits(ls, rs, mixBits, mixRes, width)
    ensures AllFit(Mids(ls, rs, mixBits, mixRes), width) && AllFit(Sides(ls, rs, mixRes), width)
  {
    hide Mid, Side, Fits;
  }

  /** What is sent aside fills the room the decoder steps over. */
  ghost predicate LowFits(plan: Plan, chans: nat, n: nat)
  {
    |plan.low| == 8 * plan.shifted * chans * n
  }

  lemma LowIsRoom(plan: Plan, chans: nat, n: nat)
    requires LowFits(plan, chans, n)
    ensures ShiftRoom(plan.shifted, chans, n) == |plan.low|
  {
    TimesIsProduct(plan.shifted, chans);
    TimesIsProduct(8 * Times(plan.shifted, chans), n);
    MulAssociate(8, plan.shifted, chans);
  }

  lemma MixReads(s: seq<byte>, p: nat, plan: Plan, rest: seq<bit>)
    requires ValidPlan(plan) && HasBits(s, p, Put(plan.mixBits, 8, Put(plan.mixRes % 0x100, 8, rest)))
    ensures Slice(s, p, 8) == plan.mixBits && S8(Slice(s, p + 8, 8)) == plan.mixRes && HasBits(s, p + 16, rest)
  {
    hide HasBits, Slice, Put;
    assert Pow2(8) == 0x100 by { Pow2Small(); }
    TakeField(s, p, plan.mixBits, 8, Put(plan.mixRes % 0x100, 8, rest));
    TakeField(s, p + 8, plan.mixRes % 0x100, 8, rest);
    assert S8(plan.mixRes % 0x100) == plan.mixRes;
  }

  /** The decoder's view of the body, from both channels' descriptions and blocks. */
  lemma CompressedIs(cfg: Config, s: seq<byte>, p: nat, plan: Plan, n: nat, p0: nat, bu: Block, bv: Block)
    requires Supported(cfg) && ValidPlan(plan)
    requires var pv := ChannelEnd(s, p + 16);
      && ChannelAt(s, p + 16) == plan.u && ChannelAt(s, pv) == plan.v
      && p0 == ChannelEnd(s, pv) + ShiftRoom(plan.shifted, 2, n)
    requires bu == ChannelBlock(cfg, s, p0, n, plan.u, Width(plan)) && bu.Block?
    requires bv == ChannelBlock(cfg, s, bu.end, n, plan.v, Width(plan)) && bv.Block?
    ensures Compressed(cfg, s, p, n, plan.shifted)
         == Pcm(n, Unmixed(Rebuilt(plan.u, Width(plan), bu.res), Rebuilt(plan.v, Width(plan), bv.res),
                           Slice(s, p, 8), S8(Slice(s, p + 8, 8))), bv.end)
  {
    hide Slice, Rebuilt, ChannelBlock, Unmixed, ChannelAt, ChannelEnd, ShiftRoom, S8;
  }

  lemma BodyReads(cfg: Config, s: seq<byte>, p: nat, plan: Plan, ls: seq<int>, rs: seq<int>)
    requires Supported(cfg) && ValidPlan(plan) && |ls| == |rs| && LowFits(plan, 2, |ls|)
    requires AreSamples(ls) && AreSamples(rs) && MixFits(ls, rs, plan.mixBits, plan.mixRes, Width(plan))
    requires HasBits(s, p, BodyBits(cfg, plan, ls, rs)) && p + |BodyBits(cfg, plan, ls, rs)| <= 8 * |s|
    ensures var end := p + |BodyBits(cfg, plan, ls, rs)| - 3;
      && Compressed(cfg, s, p, |ls|, plan.shifted) == Pcm(|ls|, Interleaved(ls, rs), end)
      && Slice(s, end, 3) == 7
  {
    hide HasBits, Slice, BlockBits, Mids, Sides, SentResidues, Rebuilt, ChannelBlock, Unmixed, Interleaved,
      AllFit, AreSamples, MixFits, Field, ChannelAt, ChannelEnd, CoefBits, LowFits, ShiftRoom, Compressed, S8, Width;
    var n, us, vs := |ls|, Mids(ls, rs, plan.mixBits, plan.mixRes), Sides(ls, rs, plan.mixRes);
    var w := Width(plan);
    var b4 := BlockBits(cfg, plan, us, vs);
    var b3 := plan.low + b4;
    var b2 := ChannelBits(plan.v, b3);
    var b1 := ChannelBits(plan.u, b2);
    MixReads(s, p, plan, b1);
    ChannelReads(s, p + 16, plan.u, b2);
    var pv := ChannelEnd(s, p + 16);
    ChannelReads(s, pv, plan.v, b3);
    var pb := ChannelEnd(s, pv);
    HasBitsAppend(s, pb, plan.low, b4);
    LowIsRoom(plan, 2, n);
    var p0 := pb + |plan.low|;
    MixedFit(ls, rs, plan.mixBits, plan.mixRes, w);
    BlocksRead(cfg, s, p0, plan, us, vs);
    var bu := ChannelBlock(cfg, s, p0, n, plan.u, w);
    CompressedIs(cfg, s, p, plan, n, p0, bu, ChannelBlock(cfg, s, bu.end, n, plan.v, w));
    SentRebuilds(plan.u, w, us);
    SentRebuilds(plan.v, w, vs);
    UnmixFrame(ls, rs, plan.mixBits, plan.mixRes);
  }

  /** Losslessness: every stereo frame of samples whose mixed channels fit, encoded
      with any mixing weight, coefficients, modes, shifts, pbFactors and number of
      low bytes sent aside, decodes to exactly those samples, whatever follows its
      bits. */
  lemma FrameLossless(cfg: Config, s: seq<byte>, plan: Plan, ls: seq<int>, rs: seq<int>)
    requires Supported(cfg) && cfg.bitDepth == 16 && ValidPlan(plan)
    requires 1 <= |ls| == |rs| && FitsFrame(cfg, plan, |ls|) && LowFits(plan, 2, |ls|)
    requires AreSamples(ls) && AreSamples(rs) && MixFits(ls, rs, plan.mixBits, plan.mixRes, Width(plan))
    requires HasBits(s, 0, FrameBits(cfg, plan, ls, rs)) && |FrameBits(cfg, plan, ls, rs)| <= 8 * |s|
    ensures DecodeFrame(cfg, s)
         == Decoded(|ls|, Interleaved(ls, rs), |FrameBits(cfg, plan, ls, rs)|)
  {
    hide HasBits, Slice, BodyBits, Compressed, HeaderBits, HeaderAt, Interleaved, MixFits, AreSamples, LowFits;
    HeaderReads(cfg, s, 1, plan, 0, |ls|, BodyBits(cfg, plan, ls, rs));
    BodyReads(cfg, s, HeaderAt(cfg, s, 3).end, plan, ls, rs);
  }

  /** A legal weight: what is kept of each channel is 16 bits. */
  ghost predicate LegalMix(plan: Plan)
  {
    plan.shifted == 0 && 0 <= plan.mixRes <= Pow2(plan.mixBits)
  }

  lemma LegalMixIsEnough(plan: Plan, ls: seq<int>, rs: seq<int>)
    requires ValidPlan(plan) && LegalMix(plan) && |ls| == |rs| && AreSamples(ls) && AreSamples(rs)
    ensures MixFits(ls, rs, plan.mixBits, plan.mixRes, Width(plan))
  {
    hide Mid;
    Pow2Wide();
    forall i | 0 <= i < |ls|
      ensures Fits(Mid(ls[i], rs[i], plan.mixBits, plan.mixRes), 17) && Fits(Side(ls[i], rs[i], plan.mixRes), 17)
    {
      LegalMixFits(ls[i], rs[i], plan.mixBits, plan.mixRes);
    }
  }

  /** The same for the bytes of an actual packet; every legal weight will do. */
  lemma PackedFrameLossless(cfg: Config, plan: Plan, ls: seq<int>, rs: seq<int>)
    requires Supported(cfg) && cfg.bitDepth == 16 && ValidPlan(plan)
    requires 1 <= |ls| == |rs| && FitsFrame(cfg, plan, |ls|) && LowFits(plan, 2, |ls|)
    requires AreSamples(ls) && AreSamples(rs)
    requires LegalMix(plan) || MixFits(ls, rs, plan.mixBits, plan.mixRes, Width(plan))
    ensures DecodeFrame(cfg, Pack(FrameBits(cfg, plan, ls, rs)))
         == Decoded(|ls|, Interleaved(ls, rs), |FrameBits(cfg, plan, ls, rs)|)
  {
    hide FrameBits, Pack, DecodeFrame, MixFits, LegalMix, LowFits, AreSamples;
    if LegalMix(plan) { LegalMixIsEnough(plan, ls, rs); }
    PackShows(FrameBits(cfg, plan, ls, rs));
    FrameLossless(cfg, Pack(FrameBits(cfg, plan, ls, rs)), plan, ls, rs);
  }

  // ---- a mono element --------------------------------------------------------------

  function MonoWidth(plan: Plan): (w: nat)
    ensures 1 <= w <= 16
  {
    if plan.shifted == 0 then 16 else 8
  }

  function MonoBody(cfg: Config, plan: Plan, xs: seq<int>, rest: seq<bit>): seq<bit>
    requires Supported(cfg) && ValidPlan(plan)
  {
    Put(plan.mixBits, 8, Put(plan.mixRes % 0x100, 8,
      ChannelBits(plan.u, plan.low + (BlockOf(cfg, plan.u, MonoWidth(plan), xs) + rest))))
  }

  /** A mono element: one channel, of one bit less, and anything behind it. */
  function MonoBits(cfg: Config, plan: Plan, xs: seq<int>, rest: seq<bit>): seq<bit>
    requires Supported(cfg) && ValidPlan(plan)
  {
    HeaderBits(0, plan, 0, |xs|, MonoBody(cfg, plan, xs, rest))
  }

  lemma MonoBodyReads(cfg: Config, s: seq<byte>, p: nat, plan: Plan, xs: seq<int>, rest: seq<bit>)
    requires Supported(cfg) && ValidPlan(plan)
    requires LowFits(plan, 1, |xs|) && AllFit(xs, MonoWidth(plan))
    requires HasBits(s, p, MonoBody(cfg, plan, xs, rest)) && p + |MonoBody(cfg, plan, xs, rest)| <= 8 * |s|
    ensures var q := ChannelEnd(s, p + 16) + ShiftRoom(plan.shifted, 1, |xs|);
      ChannelBlock(cfg, s, q, |xs|, ChannelAt(s, p + 16), MonoWidth(plan)).Block?
  {
    hide HasBits, Slice, Field, ChannelAt, ChannelEnd, CoefBits, LowFits, ShiftRoom, BlockOf, ChannelBlock, AllFit,
      MonoWidth, SentResidues;
    var w := MonoWidth(plan);
    var e := BlockOf(cfg, plan.u, w, xs);
    var b2 := plan.low + (e + rest);
    var b1 := ChannelBits(plan.u, b2);
    MixReads(s, p, plan, b1);
    ChannelReads(s, p + 16, plan.u, b2);
    var q := ChannelEnd(s, p + 16);
    HasBitsAppend(s, q, plan.low, e + rest);
    HasBitsAppend(s, q + |plan.low|, e, rest);
    LowIsRoom(plan, 1, |xs|);
    BlockReads(cfg, s, q + |plan.low|, plan.u, w, xs);
  }

  /** A mono element as an encoder forms it ends in no error. */
  lemma MonoReads(cfg: Config, s: seq<byte>, plan: Plan, xs: seq<int>, rest: seq<bit>)
    requires Supported(cfg) && ValidPlan(plan) && plan.shifted <= 1
    requires 1 <= |xs| && FitsFrame(cfg, plan, |xs|) && LowFits(plan, 1, |xs|)
    requires AllFit(xs, MonoWidth(plan))
    requires HasBits(s, 0, MonoBits(cfg, plan, xs, rest)) && |MonoBits(cfg, plan, xs, rest)| <= 8 * |s|
    ensures Slice(s, 0, 3) == 0 && MonoError(cfg, s, 3) == None
  {
    hide HasBits, Slice, HeaderBits, HeaderAt, ChannelAt, ChannelEnd, LowFits, ShiftRoom, ChannelBlock, AllFit,
      MonoBody;
    HeaderReads(cfg, s, 0, plan, 0, |xs|, MonoBody(cfg, plan, xs, rest));
    MonoBodyReads(cfg, s, HeaderAt(cfg, s, 3).end, plan, xs, rest);
  }

  // ---- refusals ------------------------------------------------------------------------

  /** The errors, by the bits that cause them. */
  lemma Refusals(cfg: Config, s: seq<byte>)
    requires Supported(cfg)
    ensures cfg.bitDepth != 16 ==> DecodeFrame(cfg, s) == Rejected(BadDepth)
    ensures cfg.bitDepth == 16 && 2 <= Slice(s, 0, 3) <= 6 ==> DecodeFrame(cfg, s) == Rejected(BadElement)
    ensures cfg.bitDepth == 16 && Slice(s, 0, 3) <= 1 && Slice(s, 20, 2) == 3 ==>
      DecodeFrame(cfg, s) == Rejected(BadShift)
    ensures cfg.bitDepth == 16 && Slice(s, 0, 3) <= 1 && Slice(s, 20, 2) != 3
            && Slice(s, 19, 1) == 1 && Slice(s, 23, 32) > cfg.frameLength ==>
      DecodeFrame(cfg, s) == Rejected(FrameTooLong)
  {
    hide Slice, Compressed, RawOut, ChannelBlock, ChannelAt, ChannelEnd;
    HeaderBounds(s, 3);
  }

  /** A pair in place of the end of which some other tag stands is refused. */
  lemma OtherTagIsRefused(cfg: Config, s: seq<byte>)
    requires Supported(cfg) && cfg.bitDepth == 16 && Slice(s, 0, 3) == 1
    requires var e := ElementAt(cfg, s, 3); e.Pcm? && e.end <= 8 * |s| && 2 <= Slice(s, e.end, 3) <= 6
    ensures DecodeFrame(cfg, s) == Rejected(BadElement)
  {
    hide Slice, ElementAt;
  }

  // ---- the raw form --------------------------------------------------------------

  function RawBits(plan: Plan, pcm: seq<int>): seq<bit>
  {
    HeaderBits(1, plan, 1, |pcm| / 2, CoefBits(pcm) + Field(7, 3))
  }

  /** The escape form returns the samples as they were. */
  lemma RawLossless(cfg: Config, s: seq<byte>, plan: Plan, pcm: seq<int>)
    requires Supported(cfg) && cfg.bitDepth == 16 && ValidPlan(plan)
    requires |pcm| % 2 == 0 && FitsFrame(cfg, plan, |pcm| / 2) && AreSamples(pcm)
    requires HasBits(s, 0, RawBits(plan, pcm)) && |RawBits(plan, pcm)| <= 8 * |s|
    ensures DecodeFrame(cfg, s) == Decoded(|pcm| / 2, pcm, |RawBits(plan, pcm)|)
  {
    hide HasBits, Slice, HeaderBits, HeaderAt, AreSamples, Field, CoefBits, CoefsAt;
    HeaderReads(cfg, s, 1, plan, 1, |pcm| / 2, CoefBits(pcm) + Field(7, 3));
    var p := HeaderAt(cfg, s, 3).end;
    HasBitsAppend(s, p, CoefBits(pcm), Field(7, 3));
    CoefsRead(s, p, pcm);
    Pow2Small();
    FieldReads(s, p + 16 * |pcm|, 7, 3);
  }

  // ---- truncation ----------------------------------------------------------------

  lemma ChannelAgrees(s: seq<byte>, t: seq<byte>, e: nat, p: nat)
    requires Agree(s, t, e) && ChannelEnd(s, p) <= e
    ensures ChannelAt(t, p) == ChannelAt(s, p) && ChannelEnd(t, p) == ChannelEnd(s, p)
  {
    hide Agree, Slice;
    SliceAgree(s, t, e, p, 4);
    SliceAgree(s, t, e, p + 4, 4);
    SliceAgree(s, t, e, p + 8, 3);
    SliceAgree(s, t, e, p + 11, 5);
    CoefsAgree(s, t, e, p + 16, Slice(s, p + 11, 5));
  }

  lemma CoefsAgree(s: seq<byte>, t: seq<byte>, e: nat, p: nat, n: nat)
    requires Agree(s, t, e) && p + 16 * n <= e
    ensures CoefsAt(t, p, n) == CoefsAt(s, p, n)
  {
    hide Agree, Slice;
    forall i | 0 <= i < n ensures Slice(t, p + 16 * i, 16) == Slice(s, p + 16 * i, 16) {
      SliceAgree(s, t, e, p + 16 * i, 16);
    }
  }

  lemma CompressedAgrees(cfg: Config, s: seq<byte>, t: seq<byte>, e: nat, p: nat, n: nat, bs: nat)
    requires Supported(cfg) && Agree(s, t, e) && e <= 8 * |t| && bs <= 2
    requires Compressed(cfg, s, p, n, bs).Pcm? && Compressed(cfg, s, p, n, bs).end <= e
    ensures Compressed(cfg, t, p, n, bs) == Compressed(cfg, s, p, n, bs)
  {
    hide Agree, Slice, Decomp, ChannelAt, ChannelEnd, Unmixed, Rebuilt, ShiftRoom;
    var chanBits := 17 - 8 * bs;
    var u, pv := ChannelAt(s, p + 16), ChannelEnd(s, p + 16);
    var v, pb := ChannelAt(s, pv), ChannelEnd(s, pv);
    var q := pb + ShiftRoom(bs, 2, n);
    var bu := ChannelBlock(cfg, s, q, n, u, chanBits);
    SliceAgree(s, t, e, p, 8);
    SliceAgree(s, t, e, p + 8, 8);
    ChannelAgrees(s, t, e, p + 16);
    ChannelAgrees(s, t, e, pv);
    DecompAgrees(s, t, e, AgParams(cfg, u.pbFactor), chanBits, q, n, cfg.mb, 0);
    DecompAgrees(s, t, e, AgParams(cfg, v.pbFactor), chanBits, bu.end, n, cfg.mb, 0);
  }

  lemma ElementAgrees(cfg: Config, s: seq<byte>, t: seq<byte>, e: nat, p: nat)
    requires Supported(cfg) && Agree(s, t, e) && e <= 8 * |t|
    requires ElementAt(cfg, s, p).Pcm? && ElementAt(cfg, s, p).end <= e
    ensures ElementAt(cfg, t, p) == ElementAt(cfg, s, p)
  {
    hide Agree, Slice, Compressed, CoefsAt;
    var h := HeaderAt(cfg, s, p);
    SliceAgree(s, t, e, p + 16, 1);
    SliceAgree(s, t, e, p + 17, 2);
    SliceAgree(s, t, e, p + 19, 1);
    if h.partial != 0 { SliceAgree(s, t, e, p + 20, 32); }
    if h.escape == 1 {
      CoefsAgree(s, t, e, h.end, 2 * h.n);
    } else {
      CompressedAgrees(cfg, s, t, e, h.end, h.n, h.bytesShifted);
    }
  }

  /** A decoded frame depends only on the bits it consumed: any buffer that shows
      them decodes to the same samples. */
  lemma DecodeDependsOnConsumedBits(cfg: Config, s: seq<byte>, t: seq<byte>)
    requires Supported(cfg) && DecodeFrame(cfg, s).Decoded?
    requires Agree(s, t, DecodeFrame(cfg, s).end) && DecodeFrame(cfg, s).end <= 8 * |t|
    ensures DecodeFrame(cfg, t) == DecodeFrame(cfg, s)
  {
    hide Agree, Slice, ElementAt;
    var e := DecodeFrame(cfg, s).end;
    SliceAgree(s, t, e, 0, 3);
    if Slice(s, 0, 3) == TAG_CPE {
      SliceAgree(s, t, e, e - 3, 3);
      ElementAgrees(cfg, s, t, e, 3);
    }
  }

  // Bits past the end of the buffer read as zero.
  lemma {:induction false} PaddingIsZero(s: seq<byte>, p: nat, n: nat)
    requires p >= 8 * |s|
    ensures Slice(s, p, n) == 0
  {
    if n > 0 {
      PaddingIsZero(s, p, n - 1);
      ZeroBits(7 - (p + n - 1) % 8);
    }
  }

  /** A mono element read from padding runs out of bits. */
  lemma PaddingIsTruncated(cfg: Config, s: seq<byte>, p: nat)
    requires Supported(cfg) && cfg.frameLength >= 1 && p >= 8 * |s|
    ensures MonoError(cfg, s, p) == Some(Truncated)
  {
    hide Slice, ChannelAt, AgParams, OneTurn;
    PaddingIsZero(s, p + 16, 1);
    PaddingIsZero(s, p + 17, 2);
    PaddingIsZero(s, p + 19, 1);
    var c, q := ChannelAt(s, p + 36), ChannelEnd(s, p + 36) + ShiftRoom(0, 1, cfg.frameLength);
    StopsAtEnd(s, AgParams(cfg, c.pbFactor), 16, q, cfg.frameLength, cfg.mb);
  }

  lemma StopsAtEnd(s: seq<byte>, ag: Params, maxSize: nat, p: nat, left: nat, mb: nat)
    requires Legal(ag) && mb <= MEAN_BOUND && left > 0 && p >= 8 * |s|
    ensures Decomp(s, ag, maxSize, p, left, mb, 0) == Failed(Truncated, p)
  {
    hide HeadAt, RunAt;
  }

  /** The end tag cut short by the end of the buffer is no longer one, and is no
      pair tag either. */
  lemma CutTag(s: seq<byte>, t: seq<byte>, p: nat)
    requires p <= 8 * |t| < p + 3 && Agree(s, t, 8 * |t|) && Slice(s, p, 3) == TAG_END
    ensures Slice(t, p, 3) != TAG_END && Slice(t, p, 3) != TAG_CPE
    ensures Slice(t, p, 3) == TAG_SCE ==> p == 8 * |t|
  {
    hide BitAt;
    if Slice(t, p, 3) % 2 == 1 { OddSliceIsInside(t, p, 3); }
    if p < 8 * |t| {
      assert BitAt(t, p) == BitAt(s, p) == 1 by { TopBit(s, p); }
      TopBit(t, p);
    }
  }

  lemma TopBit(s: seq<byte>, p: nat)
    ensures Slice(s, p, 3) >= 4 <==> BitAt(s, p) == 1
  {
    hide BitAt;
    assert Slice(s, p, 1) == BitAt(s, p);
    assert Slice(s, p, 2) == 2 * Slice(s, p, 1) + BitAt(s, p + 1);
  }

  /** No truncated frame decodes: a byte prefix that loses any consumed bit is
      never accepted, and it is rejected with an error unless the cut makes the
      sample count of a partial frame read as zero. */
  lemma TruncatedNeverDecodes(cfg: Config, s: seq<byte>, n: nat)
    requires Supported(cfg) && cfg.frameLength >= 1 && DecodeFrame(cfg, s).Decoded?
    requires n <= |s| && 8 * n < DecodeFrame(cfg, s).end
    ensures !DecodeFrame(cfg, s[..n]).Decoded?
    ensures HeaderAt(cfg, s[..n], 3).n != 0 ==> DecodeFrame(cfg, s[..n]).Rejected?
  {
    hide DecodeFrame, BitAt, HeaderAt;
    if DecodeFrame(cfg, s[..n]).Decoded? {
      DecodedEndsInside(cfg, s[..n]);
      PrefixAgrees(s, n);
      DecodeDependsOnConsumedBits(cfg, s[..n], s);
      assert false;
    }
    if HeaderAt(cfg, s[..n], 3).n != 0 { TruncatedIsRejected(cfg, s, n); }
  }

  lemma TruncatedIsRejected(cfg: Config, s: seq<byte>, n: nat)
    requires Supported(cfg) && cfg.frameLength >= 1 && DecodeFrame(cfg, s).Decoded?
    requires n <= |s| && 8 * n < DecodeFrame(cfg, s).end
    requires HeaderAt(cfg, s[..n], 3).n != 0
    ensures DecodeFrame(cfg, s[..n]).Rejected?
  {
    hide BitAt, HeaderAt, Slice, MonoError, Agree, Compressed, RawOut;
    var t := s[..n];
    PrefixAgrees(s, n);
    if n == 0 {
      PaddingIsZero(t, 0, 3);
      PaddingIsTruncated(cfg, t, 3);
    } else {
      SliceAgree(s, t, 8 * n, 0, 3);
      var e := ElementAt(cfg, t, 3);
      if e.Pcm? && e.end <= 8 * n {
        AgreeIsSymmetric(s, t, 8 * n);
        ElementAgrees(cfg, t, s, e.end, 3);
        CutTag(s, t, e.end);
        PaddingIsTruncated(cfg, t, 8 * n + 3);
      }
    }
  }

  lemma AgreeIsSymmetric(s: seq<byte>, t: seq<byte>, e: nat)
    requires Agree(s, t, e)
    ensures forall d: nat :: d <= e ==> Agree(t, s, d)
  {
  }
}
