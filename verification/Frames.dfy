/** What an ALAC frame means: the layout that internal/alac/decoder.go parses, as
    a function of the cookie and the frame alone. */
module Frames {
  import opened Words
  import opened Bits
  import opened Residuals
  import opened Predictor

  /** The fields of the magic cookie that the decoder uses. */
  datatype Config = Config(frameLength: nat, bitDepth: byte, pb: byte, mb: byte, kb: byte)

  /** AirPlay negotiates PB 40 and KB 14. A frame scales PB by pbFactor / 4 with
      pbFactor <= 7, so PB <= 72 keeps every pb within 127. */
  ghost predicate Supported(cfg: Config)
  {
    cfg.pb <= 72 && 8 <= cfg.kb
  }

  const TAG_SCE := 0
  const TAG_CPE := 1
  const TAG_END := 7

  // ---- one channel -----------------------------------------------------------

  /** One channel's predictor description. */
  datatype Channel = Channel(mode: nat, denShift: nat, pbFactor: nat, coefs: seq<int>)

  ghost predicate ValidChannel(c: Channel)
  {
    && c.denShift <= 15 && c.pbFactor <= 7 && |c.coefs| <= 31
    && forall i :: 0 <= i < |c.coefs| ==> -0x8000 <= c.coefs[i] < 0x8000
  }

  function CoefsAt(s: seq<byte>, p: nat, n: nat): (c: seq<int>)
    ensures |c| == n && forall i :: 0 <= i < n ==> c[i] == S16(Slice(s, p + 16 * i, 16))
  {
    seq(n, i requires 0 <= i => S16(Slice(s, p + 16 * i, 16)) as int)
  }

  function ChannelAt(s: seq<byte>, p: nat): (c: Channel)
    ensures ValidChannel(c)
  {
    NibbleBounds(s, p);
    Channel(Slice(s, p, 4), Slice(s, p + 4, 4), Slice(s, p + 8, 3),
            CoefsAt(s, p + 16, Slice(s, p + 11, 5)))
  }

  lemma NibbleBounds(s: seq<byte>, p: nat)
    ensures Slice(s, p, 4) <= 15 && Slice(s, p + 4, 4) <= 15
    ensures Slice(s, p + 8, 3) <= 7 && Slice(s, p + 11, 5) <= 31
  {
    hide Slice;
    SliceBound(s, p, 4);
    SliceBound(s, p + 4, 4);
    SliceBound(s, p + 8, 3);
    SliceBound(s, p + 11, 5);
    Pow2Small();
  }

  /** The bit after a channel's description. */
  function ChannelEnd(s: seq<byte>, p: nat): (q: nat)
    ensures q >= p
  {
    p + 16 + 16 * Slice(s, p + 11, 5)
  }

  function AgParams(cfg: Config, pbFactor: nat): (ag: Params)
    requires Supported(cfg) && pbFactor <= 7
    ensures Legal(ag)
  {
    MulMonotone(pbFactor, 7, cfg.pb);
    MulMonotone(0, pbFactor, cfg.pb);
    Params(cfg.mb, cfg.pb * pbFactor / 4, cfg.kb)
  }

  /** pbFactor scales the cookie's rate in quarters, rounded down; the rest is the
      cookie's. */
  lemma AgParamsScales(cfg: Config, pbFactor: nat)
    requires Supported(cfg) && pbFactor <= 7
    ensures var ag := AgParams(cfg, pbFactor);
      4 * ag.pb <= cfg.pb * pbFactor < 4 * ag.pb + 4 && ag.mb0 == cfg.mb && ag.kb == cfg.kb
  {
    MulMonotone(0, pbFactor, cfg.pb);
  }

  function ChannelSetup(c: Channel, chanBits: nat): (u: Setup)
    requires ValidChannel(c) && 1 <= chanBits <= 32
    ensures ValidSetup(u) && Ready(u, Active(c.coefs, |c.coefs|))
  {
    Setup(|c.coefs|, chanBits, c.denShift)
  }

  const DELTA_COEFS: seq<int> := []

  function DeltaSetup(chanBits: nat): (u: Setup)
    requires 1 <= chanBits <= 32
    ensures ValidSetup(u) && Ready(u, DELTA_COEFS)
  {
    Setup(DELTA, chanBits, 0)
  }

  /** The samples of a channel from its residuals: the predictor, after a delta
      pass when the mode is not 0. */
  function Rebuilt(c: Channel, chanBits: nat, res: seq<int>): (xs: seq<int>)
    requires ValidChannel(c) && 1 <= chanBits <= 32
    ensures |xs| == |res|
  {
    var pc := if c.mode == 0 then res else DecoderAfter(DeltaSetup(chanBits), DELTA_COEFS, res, |res|).out;
    DecoderAfter(ChannelSetup(c, chanBits), Active(c.coefs, |c.coefs|), pc, |res|).out
  }

  /** The Golomb block of a channel of n samples at bit p. */
  function ChannelBlock(cfg: Config, s: seq<byte>, p: nat, n: nat, c: Channel, chanBits: nat)
    : (b: Block)
    requires Supported(cfg) && ValidChannel(c)
    ensures b.end >= p && (b.Block? ==> |b.res| == n)
  {
    Decomp(s, AgParams(cfg, c.pbFactor), chanBits, p, n, cfg.mb, 0)
  }

  // ---- mid/side ----------------------------------------------------------------

  function Left(u: int, v: int, mixBits: nat, mixRes: int): int16
  {
    if mixRes != 0 then S16(S32(S32(u + v) - Shr(S32(mixRes * v), mixBits))) else S16(u)
  }

  function Right(u: int, v: int, mixBits: nat, mixRes: int): int16
  {
    if mixRes != 0 then S16(S32(S32(S32(u + v) - Shr(S32(mixRes * v), mixBits)) - v)) else S16(v)
  }

  /** Interleaved output for two decoded channels. */
  function Unmixed(us: seq<int>, vs: seq<int>, mixBits: nat, mixRes: int): (out: seq<int>)
    requires |us| == |vs|
    ensures |out| == 2 * |us|
  {
    seq(2 * |us|, i requires 0 <= i < 2 * |us| =>
      (if i % 2 == 0 then Left(us[i / 2], vs[i / 2], mixBits, mixRes)
       else Right(us[i / 2], vs[i / 2], mixBits, mixRes)) as int)
  }

  // ---- the element -------------------------------------------------------------

  datatype Element =
    | Pcm(n: nat, out: seq<int>, end: nat)
    | Bad(err: AlacError)
    | Excluded

  /** A stereo element's header, from the bit after its tag. */
  datatype Header = Header(partial: nat, bytesShifted: nat, escape: nat, n: nat, end: nat)

  function HeaderAt(cfg: Config, s: seq<byte>, p: nat): (h: Header)
    ensures h.end >= p + 20 && h.bytesShifted <= 3 && h.partial <= 1 && h.escape <= 1
  {
    HeaderBounds(s, p);
    var partial := Slice(s, p + 16, 1);
    Header(partial, Slice(s, p + 17, 2), Slice(s, p + 19, 1),
           if partial == 0 then cfg.frameLength else Slice(s, p + 20, 32),
           if partial == 0 then p + 20 else p + 52)
  }

  lemma HeaderBounds(s: seq<byte>, p: nat)
    ensures Slice(s, p + 16, 1) <= 1 && Slice(s, p + 17, 2) <= 3 && Slice(s, p + 19, 1) <= 1
  {
    hide Slice;
    SliceBound(s, p + 16, 1);
    SliceBound(s, p + 17, 2);
    SliceBound(s, p + 19, 1);
    Pow2Small();
  }

  /** Raw samples: n pairs of 16-bit words. */
  function RawOut(s: seq<byte>, p: nat, n: nat): (out: seq<int>)
    ensures |out| == 2 * n
    ensures forall i :: 0 <= i < 2 * n ==> out[i] == S16(Slice(s, p + 16 * i, 16))
  {
    CoefsAt(s, p, 2 * n)
  }

  /** The room taken by the shifted-out low bytes of n samples of each channel. */
  function ShiftRoom(bytesShifted: nat, chans: nat, n: nat): nat
  {
    Times(8 * Times(bytesShifted, chans), n)
  }

  /** The compressed body from bit p: the mixing parameters, both channels'
      descriptions, the shifted-out low bits and both blocks of residuals. */
  function Compressed(cfg: Config, s: seq<byte>, p: nat, n: nat, bytesShifted: nat): (e: Element)
    requires Supported(cfg) && bytesShifted <= 2
    ensures e != Excluded
    ensures e.Pcm? ==> |e.out| == 2 * e.n && e.n == n && e.end >= p
  {
    var chanBits := 17 - 8 * bytesShifted;
    var u, pv := ChannelAt(s, p + 16), ChannelEnd(s, p + 16);
    var v, pb := ChannelAt(s, pv), ChannelEnd(s, pv);
    match ChannelBlock(cfg, s, pb + ShiftRoom(bytesShifted, 2, n), n, u, chanBits)
    case Failed(err, _) => Bad(err)
    case Block(resU, endU) =>
      match ChannelBlock(cfg, s, endU, n, v, chanBits)
      case Failed(err, _) => Bad(err)
      case Block(resV, endV) =>
        Pcm(n, Unmixed(Rebuilt(u, chanBits, resU), Rebuilt(v, chanBits, resV),
                       Slice(s, p, 8), S8(Slice(s, p + 8, 8))), endV)
  }

  /** A channel pair element from the bit after its tag. A compressed element of
      no samples is excluded: see the README. */
  function ElementAt(cfg: Config, s: seq<byte>, p: nat): (e: Element)
    requires Supported(cfg)
    ensures e.Pcm? ==> |e.out| == 2 * e.n && e.n <= cfg.frameLength && e.end >= p
  {
    var h := HeaderAt(cfg, s, p);
    if h.bytesShifted == 3 then Bad(BadShift)
    else if h.n > cfg.frameLength then Bad(FrameTooLong)
    else if h.escape == 1 then Pcm(h.n, RawOut(s, h.end, h.n), h.end + 32 * h.n)
    else if h.n == 0 then Excluded
    else Compressed(cfg, s, h.end, h.n, h.bytesShifted)
  }

  /** The error a mono element ends with. None when it would succeed, or when it
      carries no samples or none of their bits. */
  function MonoError(cfg: Config, s: seq<byte>, p: nat): Option<AlacError>
    requires Supported(cfg)
  {
    var h := HeaderAt(cfg, s, p);
    if h.bytesShifted == 3 then Some(BadShift)
    else if h.n > cfg.frameLength then Some(FrameTooLong)
    else if h.escape == 1 || h.n == 0 || h.bytesShifted == 2 then None
    else
      var q := ChannelEnd(s, h.end + 16) + ShiftRoom(h.bytesShifted, 1, h.n);
      match ChannelBlock(cfg, s, q, h.n, ChannelAt(s, h.end + 16), 16 - 8 * h.bytesShifted)
      case Failed(err, _) => Some(err)
      case Block(_, _) => None
  }

  // ---- the frame ---------------------------------------------------------------

  datatype Outcome =
    | Decoded(n: nat, pcm: seq<int>, end: nat)
    | Rejected(err: AlacError)
    | OutOfScope

  /** The whole frame: at most one channel pair element and the end tag. A mono
      element or a second element is in scope only if it ends in an error. */
  function DecodeFrame(cfg: Config, s: seq<byte>): (o: Outcome)
    requires Supported(cfg)
    ensures o.Decoded? ==> |o.pcm| == 2 * o.n && o.n <= cfg.frameLength
  {
    if cfg.bitDepth != 16 then Rejected(BadDepth)
    else
      var tag := Slice(s, 0, 3);
      if tag == TAG_END then Decoded(0, [], 3)
      else if tag != TAG_CPE then Unwanted(cfg, s, 0)
      else
        match ElementAt(cfg, s, 3)
        case Bad(err) => Rejected(err)
        case Excluded => OutOfScope
        case Pcm(n, out, end) =>
          if end > 8 * |s| then Rejected(Truncated)
          else if Slice(s, end, 3) == TAG_END then Decoded(n, out, end + 3)
          else Unwanted(cfg, s, end)
  }

  /** What becomes of a tag at p that AirPlay does not send there. */
  function Unwanted(cfg: Config, s: seq<byte>, p: nat): (o: Outcome)
    requires Supported(cfg)
    ensures !o.Decoded?
  {
    var tag := Slice(s, p, 3);
    if tag == TAG_SCE then
      match MonoError(cfg, s, p + 3)
      case Some(err) => Rejected(err)
      case None => OutOfScope
    else if tag == TAG_CPE then
      match ElementAt(cfg, s, p + 3)
      case Bad(err) => Rejected(err)
      case _ => OutOfScope
    else Rejected(BadElement)
  }

  // ---- truncation --------------------------------------------------------------

  /** A decoded frame ends inside the buffer: the end tag is all ones and zero
      padding cannot supply it. */
  lemma DecodedEndsInside(cfg: Config, s: seq<byte>)
    requires Supported(cfg) && DecodeFrame(cfg, s).Decoded?
    ensures DecodeFrame(cfg, s).end <= 8 * |s|
  {
    hide ElementAt, BitAt, Unwanted;
    var end := DecodeFrame(cfg, s).end;
    OddSliceIsInside(s, end - 3, 3);
  }
}
