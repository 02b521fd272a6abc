/** The sign-adaptive linear predictor of internal/alac/predictor.go, in wrapping
    32-bit and 16-bit arithmetic, and the forward predictor it inverts. */
module Predictor {
  import opened Words

  /** numactive 31 selects a plain first-order delta. */
  const DELTA := 31

  // ---- wrapping arithmetic -------------------------------------------------

  /** S32 forgets multiples of 2^32. */
  lemma S32Offset(x: int) returns (k: int)
    ensures S32(x) == x + k * TWO_TO_32
  {
    k := -((x + 0x8000_0000) / TWO_TO_32);
  }

  lemma S32Forgets(x: int, k: int)
    ensures S32(x + k * TWO_TO_32) == S32(x)
  {
    ModShift(x + 0x8000_0000, k, TWO_TO_32);
  }

  lemma S32OfSum(x: int, y: int)
    ensures S32(S32(x) + y) == S32(x + y)
    ensures S32(x + S32(y)) == S32(x + y)
  {
    var k := S32Offset(x);
    S32Forgets(x + y, k);
    var j := S32Offset(y);
    S32Forgets(x + y, j);
  }

  lemma S32OfProduct(c: int, x: int)
    ensures S32(c * S32(x)) == S32(c * x)
  {
    var k := S32Offset(x);
    assert c * (x + k * TWO_TO_32) == c * x + (c * k) * TWO_TO_32;
    S32Forgets(c * x, c * k);
  }

  /** A value that fits can be recovered from its wrapped difference. */
  lemma SignedInverse(x: int, p: int, n: nat)
    requires n >= 1 && Fits(x, n)
    ensures Signed(Signed(x - p, n) + p, n) == x
  {
    var k := SignedOffset(x - p, n);
    SignedCongruent(x, k, n);
    SignedFits(x, n);
  }

  function Sign(x: int): int
  {
    if x > 0 then 1 else if x < 0 then -1 else 0
  }

  /** signOfInt's bit trick: the top bit of -i, or all ones when i is negative.
      It is the sign of every 32-bit word, the most negative one included. */
  function SignOfInt(i: int32): (r: int)
    ensures r == Sign(i)
  {
    var negishift := U32(0 - i as int) / 0x8000_0000;
    if i < 0 then -1 else negishift
  }

  // ---- the predictor's state ------------------------------------------------

  /** The samples so far and the coefficients they have led to. */
  datatype State = State(out: seq<int>, coefs: seq<int>)

  /** A channel's predictor description. */
  datatype Setup = Setup(numactive: nat, chanbits: nat, denshift: nat)

  ghost predicate ValidSetup(u: Setup)
  {
    u.numactive <= DELTA && 1 <= u.chanbits <= 32 && u.denshift <= 31
  }

  /** Only a real predictor needs its coefficients. */
  ghost predicate Ready(u: Setup, coefs: seq<int>)
  {
    u.numactive == DELTA || |coefs| == u.numactive
  }

  /** The sample that the predictor works relative to. */
  function Top(out: seq<int>, n: nat): int
    requires |out| > n
  {
    out[|out| - 1 - n]
  }

  /** The weighted differences from top, over unbounded integers. */
  function Dot(out: seq<int>, coefs: seq<int>, n: nat, k: nat): int
    requires |out| > n == |coefs| && k <= n
  {
    if k == 0 then 0
    else Dot(out, coefs, n, k - 1) + coefs[k - 1] * (out[|out| - k] - Top(out, n))
  }

  /** Go's `int32(1) << (denshift - 1)`, which is 0 when denshift is. */
  function DenHalf(denshift: nat): int
    requires denshift <= 31
  {
    if denshift == 0 then 0 else Pow2(denshift - 1)
  }

  function Prediction(out: seq<int>, coefs: seq<int>, denshift: nat): int
    requires |out| > |coefs| && denshift <= 31
  {
    Top(out, |coefs|) + Shr(S32(Dot(out, coefs, |coefs|, |coefs|) + DenHalf(denshift)), denshift)
  }

  /** The sign-driven update of coefficients k - 1 down to 0: each moves against
      the sign of its difference until the residual is used up. */
  function Adapt(coefs: seq<int>, out: seq<int>, k: nat, rest: int, sg: int, denshift: nat)
    : (r: seq<int>)
    requires |out| > |coefs| && k <= |coefs|
    ensures |r| == |coefs|
    decreases k
  {
    if k == 0 then coefs
    else
      var dd := S32(Top(out, |coefs|) - out[|out| - k]);
      var coefs' := coefs[k - 1 := S16(coefs[k - 1] - sg * Sign(dd))];
      var weight := |coefs| - (k - 1);
      var rest' := S32(rest - S32(weight * Shr(S32(sg * Sign(dd) * dd), denshift)));
      if sg * rest' <= 0 then coefs' else Adapt(coefs', out, k - 1, rest', sg, denshift)
  }

  /** What is added to a residual, and how the state moves on: shared by both
      directions. */
  function Base(u: Setup, st: State): int
    requires ValidSetup(u) && Ready(u, st.coefs)
  {
    if |st.out| == 0 || u.numactive == 0 then 0
    else if u.numactive == DELTA || |st.out| <= u.numactive then st.out[|st.out| - 1]
    else Prediction(st.out, st.coefs, u.denshift)
  }

  /** The first sample and unpredicted ones are copied without wrapping. */
  predicate Copied(u: Setup, st: State)
  {
    |st.out| == 0 || u.numactive == 0
  }

  function CoefsAfter(u: Setup, st: State, r: int): (c: seq<int>)
    requires ValidSetup(u) && Ready(u, st.coefs)
    ensures Ready(u, c)
  {
    if Copied(u, st) || u.numactive == DELTA || |st.out| <= u.numactive || r == 0 then st.coefs
    else Adapt(st.coefs, st.out, |st.coefs|, r, Sign(r), u.denshift)
  }

  /** One decoded sample. */
  function SampleOf(u: Setup, st: State, r: int): int
    requires ValidSetup(u) && Ready(u, st.coefs)
  {
    if Copied(u, st) then r else Signed(r + Base(u, st), u.chanbits)
  }

  /** The decoder after n residuals. */
  function DecoderAfter(u: Setup, coefs: seq<int>, pc: seq<int>, n: nat): (st: State)
    requires ValidSetup(u) && Ready(u, coefs) && n <= |pc|
    ensures |st.out| == n && Ready(u, st.coefs)
  {
    if n == 0 then State([], coefs)
    else
      var st := DecoderAfter(u, coefs, pc, n - 1);
      State(st.out + [SampleOf(u, st, pc[n - 1])], CoefsAfter(u, st, pc[n - 1]))
  }

  // ---- the encoder ---------------------------------------------------------------

  /** Tap k of n: the sample k + 1 places back, from the one n + 1 places back. */
  function Tap(out: seq<int>, n: nat, k: nat): int
    requires k < n < |out|
  {
    out[|out| - 1 - k] - out[|out| - 1 - n]
  }

  /** What taps k and up fall short by, weighted: the unrolled form of the sum, with
      the differences taken the other way round. */
  function Shortfall(out: seq<int>, coefs: seq<int>, k: nat): int
    requires k <= |coefs| < |out|
    decreases |coefs| - k
  {
    if k == |coefs| then 0 else -coefs[k] * Tap(out, |coefs|, k) + Shortfall(out, coefs, k + 1)
  }

  /** The sample expected: the oldest tap's, and the rounded mean of the weighted
      differences. */
  function Expected(out: seq<int>, coefs: seq<int>, denshift: nat): int
    requires |out| > |coefs| && denshift <= 31
  {
    out[|out| - 1 - |coefs|] + Shr(S32(Pow2(denshift) / 2 - Shortfall(out, coefs, 0)), denshift)
  }

  lemma {:induction false} ShortfallIsDot(out: seq<int>, coefs: seq<int>, k: nat)
    requires k <= |coefs| < |out|
    ensures Shortfall(out, coefs, 0) - Shortfall(out, coefs, k) == -Dot(out, coefs, |coefs|, k)
  {
    if k > 0 {
      ShortfallIsDot(out, coefs, k - 1);
      var c, d := coefs[k - 1], Tap(out, |coefs|, k - 1);
      assert -c * d == -(c * d);
    }
  }

  lemma ExpectedIsPrediction(out: seq<int>, coefs: seq<int>, denshift: nat)
    requires |out| > |coefs| && denshift <= 31
    ensures Expected(out, coefs, denshift) == Prediction(out, coefs, denshift)
  {
    hide Shortfall, Dot, Shr;
    ShortfallIsDot(out, coefs, |coefs|);
    ShortfallEnds(out, coefs);
    HalfOf(denshift);
  }

  lemma ShortfallEnds(out: seq<int>, coefs: seq<int>)
    requires |coefs| < |out|
    ensures Shortfall(out, coefs, |coefs|) == 0
  {
  }

  lemma HalfOf(n: nat)
    requires n <= 31
    ensures Pow2(n) / 2 == DenHalf(n)
  {
  }

  /** Towards which side of the oldest tap a tap lies, its difference taken in 32
      bits. */
  function Side32(out: seq<int>, n: nat, k: nat): int
    requires k < n < |out|
  {
    var d := S32(-Tap(out, n, k));
    if d < 0 then 1 else if d > 0 then -1 else 0
  }

  function Abs(x: int): int { if x < 0 then -x else x }

  /** What is left of a residual of sign sg once taps n - 1 down to k have taken
      their share, each more the further back it is. */
  function Remains(out: seq<int>, n: nat, k: nat, r: int, sg: int, denshift: nat): int
    requires k <= n < |out|
    decreases n - k
  {
    if k == n then r
    else
      var share := Shr(S32(sg * Abs(S32(-Tap(out, n, k)))), denshift);
      S32(Remains(out, n, k + 1, r, sg, denshift) - S32((n - k) * share))
  }

  /** Tap k has its turn if something of the residual was left after every tap
      beyond it. */
  predicate HasTurn(out: seq<int>, n: nat, k: nat, r: int, sg: int, denshift: nat)
    requires k < n < |out|
  {
    forall j :: k < j < n ==> sg * Remains(out, n, j, r, sg, denshift) > 0
  }

  /** The coefficients after a residual: those that have their turn go one step,
      up where the tap lies on the residual's side, down where it does not. */
  function Nudged(coefs: seq<int>, out: seq<int>, r: int, sg: int, denshift: nat): (c: seq<int>)
    requires |out| > |coefs|
    ensures |c| == |coefs|
  {
    seq(|coefs|, k requires 0 <= k < |coefs| =>
      if HasTurn(out, |coefs|, k, r, sg, denshift) then S16(coefs[k] + sg * Side32(out, |coefs|, k)) as int
      else coefs[k])
  }

  lemma TapSteps(coefs: seq<int>, out: seq<int>, k: nat, sg: int)
    requires k < |coefs| < |out| && (sg == 1 || sg == -1)
    ensures var dd := S32(Top(out, |coefs|) - out[|out| - 1 - k]);
      && coefs[k] - sg * Sign(dd) == coefs[k] + sg * Side32(out, |coefs|, k)
      && sg * Sign(dd) * dd == sg * Abs(S32(-Tap(out, |coefs|, k)))
  {
  }

  lemma NudgedAt(coefs: seq<int>, out: seq<int>, r: int, sg: int, denshift: nat, i: nat)
    requires i < |coefs| < |out|
    ensures HasTurn(out, |coefs|, i, r, sg, denshift) ==>
      Nudged(coefs, out, r, sg, denshift)[i] == S16(coefs[i] + sg * Side32(out, |coefs|, i))
    ensures !HasTurn(out, |coefs|, i, r, sg, denshift) ==> Nudged(coefs, out, r, sg, denshift)[i] == coefs[i]
  {
    hide HasTurn, S16, Side32;
  }

  /** One tap of the decoder's walk: its step, what is left, and whether that ends it. */
  lemma AdaptStep(c: seq<int>, coefs: seq<int>, out: seq<int>, k: nat, r: int, sg: int, denshift: nat)
    requires |c| == |coefs| < |out| && 0 < k <= |coefs| && (sg == 1 || sg == -1) && c[k - 1] == coefs[k - 1]
    ensures var n := |coefs|; var rest := Remains(out, n, k - 1, r, sg, denshift);
      var c' := c[k - 1 := S16(coefs[k - 1] + sg * Side32(out, n, k - 1)) as int];
      Adapt(c, out, k, Remains(out, n, k, r, sg, denshift), sg, denshift)
        == if sg * rest > 0 then Adapt(c', out, k - 1, rest, sg, denshift) else c'
  {
    hide Shr, S32, S16, Side32, Abs;
    TapSteps(coefs, out, k - 1, sg);
  }

  /** The decoder's update, walked from tap k - 1 down, gives each coefficient what
      it is given on its own; it stops where no turn is left. */
  lemma {:induction false} AdaptNudges(c: seq<int>, coefs: seq<int>, out: seq<int>, k: nat, r: int, sg: int,
                                       denshift: nat, i: nat)
    requires |c| == |coefs| < |out| && k <= |coefs| && i < |coefs| && (sg == 1 || sg == -1)
    requires forall j :: k <= j < |coefs| ==> sg * Remains(out, |coefs|, j, r, sg, denshift) > 0
    requires c[..k] == coefs[..k]
    requires i >= k ==> c[i] == Nudged(coefs, out, r, sg, denshift)[i]
    ensures Adapt(c, out, k, Remains(out, |coefs|, k, r, sg, denshift), sg, denshift)[i]
         == Nudged(coefs, out, r, sg, denshift)[i]
    decreases k
  {
    hide Remains, Side32, S16, Nudged, Adapt;
    if k > 0 {
      var n := |coefs|;
      assert c[k - 1] == c[..k][k - 1] == coefs[..k][k - 1] == coefs[k - 1];
      AdaptStep(c, coefs, out, k, r, sg, denshift);
      NudgedAt(coefs, out, r, sg, denshift, i);
      var rest := Remains(out, n, k - 1, r, sg, denshift);
      var c' := c[k - 1 := S16(coefs[k - 1] + sg * Side32(out, n, k - 1)) as int];
      if sg * rest > 0 {
        assert c'[..k - 1] == c[..k][..k - 1] == coefs[..k][..k - 1] == coefs[..k - 1];
        AdaptNudges(c', coefs, out, k - 1, r, sg, denshift, i);
      } else if i < k - 1 {
        assert c'[i] == c[..k][i] == coefs[..k][i] == coefs[i];
      }
    } else {
      AdaptEnds(c, out, Remains(out, |coefs|, 0, r, sg, denshift), sg, denshift);
    }
  }

  lemma AdaptEnds(c: seq<int>, out: seq<int>, rest: int, sg: int, denshift: nat)
    requires |out| > |c|
    ensures Adapt(c, out, 0, rest, sg, denshift) == c
  {
  }

  lemma AdaptIsNudged(coefs: seq<int>, out: seq<int>, r: int, denshift: nat)
    requires |coefs| < |out| && r != 0
    ensures Adapt(coefs, out, |coefs|, r, Sign(r), denshift) == Nudged(coefs, out, r, Sign(r), denshift)
  {
    hide Remains, Nudged, Adapt;
    var n, sg := |coefs|, Sign(r);
    NothingTaken(out, n, r, sg, denshift);
    forall i | 0 <= i < n
      ensures Adapt(coefs, out, n, r, sg, denshift)[i] == Nudged(coefs, out, r, sg, denshift)[i]
    {
      AdaptNudges(coefs, coefs, out, n, r, sg, denshift, i);
    }
  }

  lemma NothingTaken(out: seq<int>, n: nat, r: int, sg: int, denshift: nat)
    requires n < |out|
    ensures Remains(out, n, n, r, sg, denshift) == r
  {
  }

  lemma {:induction false} NudgesAdd(coefs: seq<int>, out: seq<int>, r: int, sg: int, denshift: nat, k: nat)
    requires k <= |coefs| < |out| && (sg == 1 || sg == -1)
    requires forall i :: 0 <= i < |coefs| ==> -0x8000 < coefs[i] < 0x7fff
    requires forall i: nat :: i < |coefs| ==> -0x8000_0000 < Tap(out, |coefs|, i) < 0x8000_0000
    ensures var n := |coefs|; var d := Dot(out, Nudged(coefs, out, r, sg, denshift), n, k) - Dot(out, coefs, n, k);
      && sg * d >= 0
      && (0 < k == n && Tap(out, n, n - 1) != 0 ==> sg * d > 0)
  {
    hide Nudged, HasTurn, Remains;
    if k > 0 {
      var n := |coefs|;
      NudgesAdd(coefs, out, r, sg, denshift, k - 1);
      NudgedAt(coefs, out, r, sg, denshift, k - 1);
      NudgeGain(coefs[k - 1], Nudged(coefs, out, r, sg, denshift)[k - 1], out, n, k - 1, sg);
      if k == n { LastHasTurn(out, n, r, sg, denshift); }
    }
  }

  lemma LastHasTurn(out: seq<int>, n: nat, r: int, sg: int, denshift: nat)
    requires 0 < n < |out|
    ensures HasTurn(out, n, n - 1, r, sg, denshift)
  {
  }

  lemma NudgeGain(c: int, d: int, out: seq<int>, n: nat, k: nat, sg: int)
    requires k < n < |out| && (sg == 1 || sg == -1) && -0x8000 < c < 0x7fff
    requires -0x8000_0000 < Tap(out, n, k) < 0x8000_0000
    requires d == c || d == S16(c + sg * Side32(out, n, k))
    ensures sg * (d * Tap(out, n, k) - c * Tap(out, n, k)) >= 0
    ensures d == S16(c + sg * Side32(out, n, k)) && Tap(out, n, k) != 0 ==>
      sg * (d * Tap(out, n, k) - c * Tap(out, n, k)) > 0
  {
    var t := Tap(out, n, k);
    assert d * t - c * t == (d - c) * t;
    if d != c || t != 0 {
      assert S16(c + sg * Side32(out, n, k)) == c + sg * Side32(out, n, k);
      assert Side32(out, n, k) == Sign(t);
    }
  }

  /** The adaptation goes the right way: it moves the prediction towards the sample,
      up after a positive residual and down after a negative one, wherever no
      coefficient is at its end and the differences fit 32 bits; and it does move
      it unless the first tap looked at is level with the oldest. */
  lemma AdaptsTowards(coefs: seq<int>, out: seq<int>, r: int, denshift: nat)
    requires |coefs| < |out| && r != 0
    requires forall i :: 0 <= i < |coefs| ==> -0x8000 < coefs[i] < 0x7fff
    requires forall i: nat :: i < |coefs| ==> -0x8000_0000 < Tap(out, |coefs|, i) < 0x8000_0000
    ensures var n := |coefs|; var c := Adapt(coefs, out, n, r, Sign(r), denshift);
      var d := Dot(out, c, n, n) - Dot(out, coefs, n, n);
      && Sign(r) * d >= 0
      && (n > 0 && Tap(out, n, n - 1) != 0 ==> Sign(r) * d > 0)
  {
    hide Nudged, Adapt, Dot;
    AdaptIsNudged(coefs, out, r, denshift);
    NudgesAdd(coefs, out, r, Sign(r), denshift, |coefs|);
  }

  /** The encoder's prediction: none for the first sample and for unpredicted ones;
      the sample before in a delta and while there are too few for the taps. */
  function SendBase(u: Setup, st: State): int
    requires ValidSetup(u) && Ready(u, st.coefs)
  {
    if |st.out| == 0 || u.numactive == 0 then 0
    else if u.numactive == 31 || |st.out| <= u.numactive then st.out[|st.out| - 1]
    else Expected(st.out, st.coefs, u.denshift)
  }

  /** One residual, as the encoder forms it. */
  function ResidueOf(u: Setup, st: State, x: int): int
    requires ValidSetup(u) && Ready(u, st.coefs)
  {
    if |st.out| == 0 || u.numactive == 0 then x else Signed(x - SendBase(u, st), u.chanbits)
  }

  /** The encoder's coefficients after a residual. */
  function SendCoefs(u: Setup, st: State, r: int): (c: seq<int>)
    requires ValidSetup(u) && Ready(u, st.coefs)
    ensures Ready(u, c)
  {
    if u.numactive == 31 || |st.out| <= u.numactive || r == 0 then st.coefs
    else Nudged(st.coefs, st.out, r, if r > 0 then 1 else -1, u.denshift)
  }

  lemma SendsAsDecoded(u: Setup, st: State, r: int)
    requires ValidSetup(u) && Ready(u, st.coefs)
    ensures SendBase(u, st) == Base(u, st) && SendCoefs(u, st, r) == CoefsAfter(u, st, r)
  {
    hide Expected, Prediction, Nudged, Adapt;
    if u.numactive != DELTA && |st.out| > u.numactive {
      ExpectedIsPrediction(st.out, st.coefs, u.denshift);
      if r != 0 { AdaptIsNudged(st.coefs, st.out, r, u.denshift); }
      if u.numactive == 0 { NoTaps(st.coefs, st.out, r, u.denshift); }
    }
  }

  lemma NoTaps(coefs: seq<int>, out: seq<int>, r: int, denshift: nat)
    requires coefs == [] && |out| > 0
    ensures Nudged(coefs, out, r, if r > 0 then 1 else -1, denshift) == []
  {
  }

  /** The encoder after n samples; its coefficients follow its own residuals. */
  function EncoderAfter(u: Setup, coefs: seq<int>, xs: seq<int>, n: nat): (st: State)
    requires ValidSetup(u) && Ready(u, coefs) && n <= |xs|
    ensures |st.out| == n && Ready(u, st.coefs)
  {
    if n == 0 then State([], coefs)
    else
      var st := EncoderAfter(u, coefs, xs, n - 1);
      State(st.out + [xs[n - 1]], SendCoefs(u, st, ResidueOf(u, st, xs[n - 1])))
  }

  function Residues(u: Setup, coefs: seq<int>, xs: seq<int>, n: nat): (r: seq<int>)
    requires ValidSetup(u) && Ready(u, coefs) && n <= |xs|
    ensures |r| == n
  {
    if n == 0 then []
    else
      Residues(u, coefs, xs, n - 1) + [ResidueOf(u, EncoderAfter(u, coefs, xs, n - 1), xs[n - 1])]
  }

  // ---- the inverse -----------------------------------------------------------

  lemma DecodedResidue(u: Setup, st: State, x: int)
    requires ValidSetup(u) && Ready(u, st.coefs) && Fits(x, u.chanbits)
    ensures SampleOf(u, st, ResidueOf(u, st, x)) == x
  {
    hide Base, SendBase, Signed;
    SendsAsDecoded(u, st, 0);
    if !Copied(u, st) { SignedInverse(x, Base(u, st), u.chanbits); }
  }

  lemma {:induction false} DecodePrefix(u: Setup, coefs: seq<int>, pc: seq<int>, qc: seq<int>, n: nat)
    requires ValidSetup(u) && Ready(u, coefs) && n <= |pc| && n <= |qc| && pc[..n] == qc[..n]
    ensures DecoderAfter(u, coefs, pc, n) == DecoderAfter(u, coefs, qc, n)
  {
    if n > 0 {
      assert pc[..n - 1] == pc[..n][..n - 1] && qc[..n - 1] == qc[..n][..n - 1];
      assert pc[n - 1] == pc[..n][n - 1] && qc[n - 1] == qc[..n][n - 1];
      DecodePrefix(u, coefs, pc, qc, n - 1);
    }
  }

  /** At every step the decoder of the residuals is in the encoder's state: the
      same samples and the same coefficients. */
  lemma {:induction false} Lockstep(u: Setup, coefs: seq<int>, xs: seq<int>, n: nat)
    requires ValidSetup(u) && Ready(u, coefs) && n <= |xs|
    requires forall i :: 0 <= i < |xs| ==> Fits(xs[i], u.chanbits)
    ensures DecoderAfter(u, coefs, Residues(u, coefs, xs, n), n) == EncoderAfter(u, coefs, xs, n)
    ensures EncoderAfter(u, coefs, xs, n).out == xs[..n]
  {
    hide SampleOf, ResidueOf, CoefsAfter, SendCoefs, SendBase, Copied, Base, Fits, Signed;
    if n > 0 {
      Lockstep(u, coefs, xs, n - 1);
      var r, r' := Residues(u, coefs, xs, n - 1), Residues(u, coefs, xs, n);
      assert r'[..n - 1] == r[..n - 1];
      DecodePrefix(u, coefs, r', r, n - 1);
      var st := EncoderAfter(u, coefs, xs, n - 1);
      DecodedResidue(u, st, xs[n - 1]);
      SendsAsDecoded(u, st, ResidueOf(u, st, xs[n - 1]));
      assert xs[..n] == xs[..n - 1] + [xs[n - 1]];
    }
  }

  /** Undoing the predictor gives back the samples. */
  lemma PredictorInverse(u: Setup, coefs: seq<int>, xs: seq<int>)
    requires ValidSetup(u) && Ready(u, coefs)
    requires forall i :: 0 <= i < |xs| ==> Fits(xs[i], u.chanbits)
    ensures DecoderAfter(u, coefs, Residues(u, coefs, xs, |xs|), |xs|).out == xs
    ensures DecoderAfter(u, coefs, Residues(u, coefs, xs, |xs|), |xs|).coefs
         == EncoderAfter(u, coefs, xs, |xs|).coefs
  {
    Lockstep(u, coefs, xs, |xs|);
    assert xs[..|xs|] == xs;
  }

  /** Residuals of samples that fit chanbits fit it too, so they can be sent. */
  lemma {:induction false} ResiduesFit(u: Setup, coefs: seq<int>, xs: seq<int>, n: nat)
    requires ValidSetup(u) && Ready(u, coefs) && n <= |xs|
    requires forall i :: 0 <= i < |xs| ==> Fits(xs[i], u.chanbits)
    ensures forall i :: 0 <= i < n ==> Fits(Residues(u, coefs, xs, n)[i], u.chanbits)
  {
    if n > 0 { ResiduesFit(u, coefs, xs, n - 1); }
  }

  /** Every decoded sample fits chanbits, but for the plain copies: the first
      sample, and all of them when no coefficient is active. */
  lemma DecodedRange(u: Setup, coefs: seq<int>, pc: seq<int>, n: nat, j: nat)
    requires ValidSetup(u) && Ready(u, coefs) && j < n <= |pc|
    ensures DecoderAfter(u, coefs, pc, n).out[j]
         == SampleOf(u, DecoderAfter(u, coefs, pc, j), pc[j])
    ensures 1 <= j && u.numactive != 0 ==> Fits(DecoderAfter(u, coefs, pc, n).out[j], u.chanbits)
    decreases n
  {
    if j < n - 1 { DecodedRange(u, coefs, pc, n - 1, j); }
  }

  // ---- the code ----------------------------------------------------------------

  /** `(del << chanshift) >> chanshift` after an int32 addition. */
  method SignExtend(r: int, base: int, chanbits: nat) returns (x: int32)
    requires 1 <= chanbits <= 32
    ensures x == Signed(r + base, chanbits)
  {
    ShiftPairIsSigned(S32(r + base), chanbits);
    SignedOfS32(r + base, chanbits);
    SignedIsInt32(r + base, chanbits);
    x := ShiftPair(S32(r + base), 32 - chanbits);
  }

  lemma SignedIsInt32(x: int, n: nat)
    requires 1 <= n <= 32
    ensures -0x8000_0000 <= Signed(x, n) < 0x8000_0000
  {
    Pow2Monotone(n - 1, 31);
    Pow2Wide();
  }

  /** The inner product, wrapping at every step; it equals one wrap at the end. */
  method WeightedSum(out: array<int32>, coefs: array<int16>, j: nat, numactive: nat)
    returns (sum1: int32)
    requires numactive < j <= out.Length && numactive <= coefs.Length
    ensures sum1 == S32(Dot(out[..j], coefs[..numactive], numactive, numactive))
  {
    ghost var o, c := out[..j], coefs[..numactive];
    var top: int := out[j - 1 - numactive];
    sum1 := 0;
    var k := 0;
    while k < numactive
      invariant 0 <= k <= numactive
      invariant sum1 == S32(Dot(o, c, numactive, k))
    {
      var diff := out[j - 1 - k] as int - top;
      SumStep(Dot(o, c, numactive, k), coefs[k], diff);
      sum1 := S32(sum1 as int + S32(coefs[k] as int * S32(diff)) as int);
      assert Dot(o, c, numactive, k + 1) == Dot(o, c, numactive, k) + c[k] * (o[j - 1 - k] - Top(o, numactive));
      k := k + 1;
    }
  }

  lemma SumStep(a: int, c: int, d: int)
    ensures S32(S32(a) as int + S32(c * S32(d)) as int) == S32(a + c * d)
  {
    S32OfProduct(c, d);
    S32OfSum(a, S32(c * d));
    S32OfSum(a, c * d);
  }

  /** The two loops of the sign switch; sg is 1 in the first and -1 in the second. */
  method AdaptUp(coefs: array<int16>, out: array<int32>, j: nat, numactive: nat, del: int32,
                 denshift: nat)
    requires numactive < j <= out.Length && numactive <= coefs.Length && denshift <= 31
    modifies coefs
    ensures coefs[..numactive] == Adapt(old(coefs[..numactive]), out[..j], numactive, del, 1, denshift)
    ensures coefs[numactive..] == old(coefs[numactive..])
  {
    ghost var o, goal := out[..j], Adapt(coefs[..numactive], out[..j], numactive, del, 1, denshift);
    var top: int := out[j - 1 - numactive];
    var del0: int := del;
    var k := numactive;
    while k > 0
      invariant 0 <= k <= numactive
      invariant goal == Adapt(coefs[..numactive], o, k, del0, 1, denshift)
      invariant coefs[numactive..] == old(coefs[numactive..])
    {
      k := k - 1;
      ghost var before := coefs[..numactive];
      var dd := S32(top - out[j - 1 - k] as int);
      var sgn := SignOfInt(dd);
      coefs[k] := S16(coefs[k] as int - sgn);
      del0 := S32(del0 - S32((numactive - k) * Shr(S32(sgn * dd as int), denshift)) as int);
      assert coefs[..numactive] == before[k := coefs[k]];
      if del0 <= 0 {
        return;
      }
    }
  }

  method AdaptDown(coefs: array<int16>, out: array<int32>, j: nat, numactive: nat, del: int32,
                   denshift: nat)
    requires numactive < j <= out.Length && numactive <= coefs.Length && denshift <= 31
    modifies coefs
    ensures coefs[..numactive] == Adapt(old(coefs[..numactive]), out[..j], numactive, del, -1, denshift)
    ensures coefs[numactive..] == old(coefs[numactive..])
  {
    ghost var o, goal := out[..j], Adapt(coefs[..numactive], out[..j], numactive, del, -1, denshift);
    var top: int := out[j - 1 - numactive];
    var del0: int := del;
    var k := numactive;
    while k > 0
      invariant 0 <= k <= numactive
      invariant goal == Adapt(coefs[..numactive], o, k, del0, -1, denshift)
      invariant coefs[numactive..] == old(coefs[numactive..])
    {
      k := k - 1;
      ghost var before := coefs[..numactive];
      var dd := S32(top - out[j - 1 - k] as int);
      var sgn := SignOfInt(dd);
      coefs[k] := S16(coefs[k] as int + sgn);
      del0 := S32(del0 - S32((numactive - k) * Shr(S32(-sgn * dd as int), denshift)) as int);
      assert coefs[..numactive] == before[k := coefs[k]];
      if del0 >= 0 {
        return;
      }
    }
  }

  /** The coefficients that unpcBlock reads. */
  function Active(coefs: seq<int>, numactive: nat): seq<int>
    requires numactive == DELTA || numactive <= |coefs|
  {
    if numactive == DELTA then [] else coefs[..numactive]
  }

  /** The decoder's state after j samples is laid out in the buffers, and the
      residuals from j on are still to be read. */
  ghost predicate Reached(u: Setup, cs: seq<int>, pc: seq<int>, pc1: array<int32>,
                          out: array<int32>, coefs: array<int16>, j: nat)
    reads pc1, out, coefs
  {
    && ValidSetup(u) && Ready(u, cs) && 1 <= j <= |pc| <= pc1.Length && |pc| <= out.Length
    && (u.numactive == DELTA || u.numactive <= coefs.Length)
    && State(out[..j], Active(coefs[..], u.numactive)) == DecoderAfter(u, cs, pc, j)
    && pc1[j..|pc|] == pc[j..]
  }

  /** unpcBlock. Every loop reads pc1[j] before it writes out[j] and nothing of
      pc1 after it, so pc1 and out may be the same buffer. */
  method UnpcBlock(pc1: array<int32>, out: array<int32>, num: nat, coefs: array<int16>, u: Setup)
    requires 1 <= num <= pc1.Length && num <= out.Length
    requires ValidSetup(u) && (u.numactive == DELTA || u.numactive <= coefs.Length)
    modifies out, coefs
    ensures var st := DecoderAfter(u, old(Active(coefs[..], u.numactive)), old(pc1[..num]), num);
      out[..num] == st.out && Active(coefs[..], u.numactive) == st.coefs
    ensures out[num..] == old(out[num..])
    ensures if u.numactive == DELTA then coefs[..] == old(coefs[..])
            else coefs[u.numactive..] == old(coefs[u.numactive..])
  {
    hide DecoderAfter;
    ghost var pc, cs := pc1[..num], Active(coefs[..], u.numactive);
    out[0] := pc1[0];
    FirstIsCopied(u, cs, pc);
    assert out[..1] == [pc[0]];
    if u.numactive == 0 {
      CopyRest(pc1, out, num, coefs, u, cs, pc);
    } else if u.numactive == DELTA {
      DeltaPass(pc1, out, num, coefs, u, cs, pc);
    } else {
      var j := WarmUp(pc1, out, num, coefs, u, cs, pc);
      PredictRest(pc1, out, j, num, coefs, u, cs, pc);
    }
  }

  /** `copy(out[1:num], pc1[1:num])`. */
  method CopyRest(pc1: array<int32>, out: array<int32>, num: nat, coefs: array<int16>, u: Setup,
                  ghost cs: seq<int>, ghost pc: seq<int>)
    requires |pc| == num && u.numactive == 0 && Reached(u, cs, pc, pc1, out, coefs, 1)
    modifies out
    ensures Reached(u, cs, pc, pc1, out, coefs, num)
    ensures out[num..] == old(out[num..]) && coefs[..] == old(coefs[..])
  {
    hide DecoderAfter;
    var j := 1;
    while j < num
      invariant Reached(u, cs, pc, pc1, out, coefs, j)
      invariant out[num..] == old(out[num..]) && coefs[..] == old(coefs[..])
    {
      CopyStep(u, cs, pc, j);
      ghost var o, left := out[..j], pc1[j + 1..num];
      assert pc1[j] == pc[j..][0];
      assert left == pc1[j..num][1..] == pc[j + 1..];
      out[j] := pc1[j];
      assert pc1[j + 1..num] == left;
      j := j + 1;
      assert out[..j] == o + [pc[j - 1]];
    }
  }

  /** The first-order delta of numactive 31. */
  method DeltaPass(pc1: array<int32>, out: array<int32>, num: nat, coefs: array<int16>, u: Setup,
                   ghost cs: seq<int>, ghost pc: seq<int>)
    requires |pc| == num && u.numactive == DELTA && Reached(u, cs, pc, pc1, out, coefs, 1)
    modifies out
    ensures Reached(u, cs, pc, pc1, out, coefs, num)
    ensures out[num..] == old(out[num..]) && coefs[..] == old(coefs[..])
  {
    hide DecoderAfter, Signed;
    var prev := out[0];
    var j := 1;
    while j < num
      invariant Reached(u, cs, pc, pc1, out, coefs, j) && prev == out[j - 1]
      invariant out[num..] == old(out[num..]) && coefs[..] == old(coefs[..])
    {
      DeltaStep(u, cs, pc, j);
      ghost var o, left := out[..j], pc1[j + 1..num];
      assert pc1[j] == pc[j..][0];
      assert left == pc1[j..num][1..] == pc[j + 1..];
      prev := SignExtend(pc1[j], prev, u.chanbits);
      out[j] := prev;
      assert pc1[j + 1..num] == left;
      j := j + 1;
      assert out[..j] == o + [prev];
    }
  }

  /** The first numactive samples are deltas as well. */
  method WarmUp(pc1: array<int32>, out: array<int32>, num: nat, coefs: array<int16>, u: Setup,
                ghost cs: seq<int>, ghost pc: seq<int>) returns (j: nat)
    requires |pc| == num && 0 < u.numactive < DELTA && Reached(u, cs, pc, pc1, out, coefs, 1)
    modifies out
    ensures Reached(u, cs, pc, pc1, out, coefs, j) && (j == num || j == u.numactive + 1)
    ensures out[num..] == old(out[num..]) && coefs[..] == old(coefs[..])
  {
    hide DecoderAfter, Signed;
    j := 1;
    while j <= u.numactive && j < num
      invariant Reached(u, cs, pc, pc1, out, coefs, j) && j <= u.numactive + 1
      invariant out[num..] == old(out[num..]) && coefs[..] == old(coefs[..])
    {
      DeltaStep(u, cs, pc, j);
      ghost var o, left := out[..j], pc1[j + 1..num];
      assert pc1[j] == pc[j..][0];
      assert left == pc1[j..num][1..] == pc[j + 1..];
      out[j] := SignExtend(pc1[j], out[j - 1], u.chanbits);
      assert pc1[j + 1..num] == left;
      j := j + 1;
      assert out[..j] == o + [out[j - 1]];
    }
  }

  /** The main loop. */
  method PredictRest(pc1: array<int32>, out: array<int32>, start: nat, num: nat,
                     coefs: array<int16>, u: Setup, ghost cs: seq<int>, ghost pc: seq<int>)
    requires |pc| == num && 0 < u.numactive < DELTA && Reached(u, cs, pc, pc1, out, coefs, start)
    requires start == num || start == u.numactive + 1
    modifies out, coefs
    ensures Reached(u, cs, pc, pc1, out, coefs, num)
    ensures out[num..] == old(out[num..])
    ensures coefs[u.numactive..] == old(coefs[u.numactive..])
  {
    hide DecoderAfter, Signed, Prediction, Adapted;
    var j := start;
    while j < num
      invariant Reached(u, cs, pc, pc1, out, coefs, j) && (j == num || j > u.numactive)
      invariant out[num..] == old(out[num..])
      invariant coefs[u.numactive..] == old(coefs[u.numactive..])
    {
      PredictStep(u, cs, pc, j);
      ghost var o, left := out[..j], pc1[j + 1..num];
      assert left == pc1[j..num][1..] == pc[j + 1..];
      PredictOne(pc1, out, j, coefs, u);
      assert pc1[j + 1..num] == left;
      j := j + 1;
      assert out[..j] == o + [out[j - 1]];
    }
  }

  /** The body of the main loop: predict, write the sample, adapt. */
  method PredictOne(pc1: array<int32>, out: array<int32>, j: nat, coefs: array<int16>, u: Setup)
    requires ValidSetup(u) && 0 < u.numactive < DELTA && u.numactive <= coefs.Length
    requires u.numactive < j < pc1.Length && j < out.Length
    modifies out, coefs
    ensures forall i :: 0 <= i < out.Length && i != j ==> out[i] == old(out[i])
    ensures out[j] == Signed(old(pc1[j]) + Prediction(old(out[..j]), old(coefs[..u.numactive]), u.denshift),
                             u.chanbits)
    ensures coefs[..u.numactive] == Adapted(old(coefs[..u.numactive]), old(out[..j]), old(pc1[j]), u.denshift)
    ensures coefs[u.numactive..] == old(coefs[u.numactive..])
  {
    hide Adapt, Dot, Signed;
    var numactive := u.numactive;
    ghost var o := out[..j];
    var top: int := out[j - 1 - numactive];
    var denhalf: int := if u.denshift == 0 then 0 else Pow2(u.denshift - 1);
    var sum1 := WeightedSum(out, coefs, j, numactive);
    SumWraps(Dot(o, coefs[..numactive], numactive, numactive), denhalf);
    var del := pc1[j];
    var sg := SignOfInt(del);
    out[j] := SignExtend(del, top + Shr(S32(sum1 as int + denhalf), u.denshift), u.chanbits);
    assert out[..j] == o;
    if sg > 0 {
      AdaptUp(coefs, out, j, numactive, del, u.denshift);
    } else if sg < 0 {
      AdaptDown(coefs, out, j, numactive, del, u.denshift);
    }
  }

  lemma SumWraps(x: int, y: int)
    ensures S32(S32(x) as int + y) == S32(x + y)
  {
    S32OfSum(x, y);
  }

  lemma FirstIsCopied(u: Setup, cs: seq<int>, pc: seq<int>)
    requires ValidSetup(u) && Ready(u, cs) && |pc| > 0
    ensures DecoderAfter(u, cs, pc, 1) == State([pc[0]], cs)
  {
    assert DecoderAfter(u, cs, pc, 0) == State([], cs);
  }

  lemma CopyStep(u: Setup, cs: seq<int>, pc: seq<int>, j: nat)
    requires ValidSetup(u) && Ready(u, cs) && u.numactive == 0 && j < |pc|
    ensures var st := DecoderAfter(u, cs, pc, j);
      DecoderAfter(u, cs, pc, j + 1) == State(st.out + [pc[j]], st.coefs)
  {
  }

  lemma DeltaStep(u: Setup, cs: seq<int>, pc: seq<int>, j: nat)
    requires ValidSetup(u) && Ready(u, cs) && 1 <= j < |pc|
    requires u.numactive == DELTA || j <= u.numactive
    ensures var st := DecoderAfter(u, cs, pc, j);
      DecoderAfter(u, cs, pc, j + 1) == State(st.out + [Signed(pc[j] + st.out[j - 1], u.chanbits)], st.coefs)
  {
    hide Signed;
  }

  function Adapted(coefs: seq<int>, out: seq<int>, r: int, denshift: nat): seq<int>
    requires |out| > |coefs| && denshift <= 31
  {
    if r == 0 then coefs else Adapt(coefs, out, |coefs|, r, Sign(r), denshift)
  }

  lemma PredictStep(u: Setup, cs: seq<int>, pc: seq<int>, j: nat)
    requires ValidSetup(u) && Ready(u, cs) && 0 < u.numactive < DELTA
    requires u.numactive < j < |pc|
    ensures var st := DecoderAfter(u, cs, pc, j);
      DecoderAfter(u, cs, pc, j + 1)
        == State(st.out + [Signed(pc[j] + Prediction(st.out, st.coefs, u.denshift), u.chanbits)],
                 Adapted(st.coefs, st.out, pc[j], u.denshift))
  {
    hide Signed, Prediction, Adapt;
  }
}
