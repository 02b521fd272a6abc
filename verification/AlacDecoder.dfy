/** The decoder object of internal/alac/decoder.go: its scratch buffers and
    coefficient arrays are overwritten frame by frame, and what it returns is a
    function of the cookie and the frame alone. */
module AlacDecoder {
  import opened Words
  import opened Bits
  import opened Residuals
  import opened Predictor
  import opened Frames

  class Decoder {
    const cfg: Config
    const predictor: array<int32>
    const mixBufferU: array<int32>
    const mixBufferV: array<int32>
    const shift: array<int>
    const coefsU: array<int16>
    const coefsV: array<int16>

    constructor (c: Config)
      ensures cfg == c && Valid()
      ensures fresh(predictor) && fresh(mixBufferU) && fresh(mixBufferV) && fresh(shift)
      ensures fresh(coefsU) && fresh(coefsV)
    {
      cfg := c;
      predictor := new int32[c.frameLength](_ => 0);
      mixBufferU := new int32[c.frameLength](_ => 0);
      mixBufferV := new int32[c.frameLength](_ => 0);
      shift := new int[2 * c.frameLength](_ => 0);
      coefsU := new int16[32](_ => 0);
      coefsV := new int16[32](_ => 0);
    }

    predicate Valid()
    {
      && predictor.Length == cfg.frameLength && mixBufferU.Length == cfg.frameLength
      && mixBufferV.Length == cfg.frameLength && shift.Length == 2 * cfg.frameLength
      && coefsU.Length == 32 && coefsV.Length == 32
      && predictor != mixBufferU && predictor != mixBufferV && mixBufferU != mixBufferV
      && coefsU != coefsV
    }

    /** readCoefs: one channel's predictor description. Entries of the array
        beyond the ones read keep what an earlier frame left there. */
    method ReadCoefs(bits: BitBuffer, coefs: array<int16>)
      returns (mode: nat, denShift: nat, num: nat, pbFactor: nat)
      requires coefs.Length == 32
      modifies bits`pos, coefs
      ensures bits.pos == ChannelEnd(bits.buf, old(bits.pos)) && num <= 31
      ensures Channel(mode, denShift, pbFactor, coefs[..num]) == ChannelAt(bits.buf, old(bits.pos))
    {
      hide Slice, Pow2;
      var s := bits.buf;
      ghost var p := bits.pos;
      NibbleBounds(s, p);
      var h := bits.Read(8);
      SplitByte(s, p, 4, 4);
      mode := h / 16;
      denShift := h % 16;
      h := bits.Read(8);
      SplitByte(s, p + 8, 3, 5);
      pbFactor := h / 32;
      num := h % 32;
      var i := 0;
      while i < num
        invariant 0 <= i <= num && bits.pos == p + 16 + 16 * i
        invariant forall j :: 0 <= j < i ==> coefs[j] == S16(Slice(s, p + 16 + 16 * j, 16))
      {
        var word := bits.Read(16);
        coefs[i] := S16(word);
        i := i + 1;
      }
      assert coefs[..num] == CoefsAt(s, p + 16, num);
    }

    /** channel: decodes one channel's residuals and runs its predictor. */
    method ChannelPass(bits: BitBuffer, dst: array<int32>, n: nat, chanBits: nat, mode: nat,
                       denShift: nat, num: nat, coefs: array<int16>, pbFactor: nat, ghost c: Channel)
      returns (err: bool, why: AlacError)
      requires Valid() && Supported(cfg) && 1 <= n <= cfg.frameLength && 1 <= chanBits <= 17
      requires dst == mixBufferU || dst == mixBufferV
      requires coefs == coefsU || coefs == coefsV
      requires num <= 31 && ValidChannel(c) && c == Channel(mode, denShift, pbFactor, coefs[..num])
      modifies bits`pos, predictor, dst, coefs
      ensures var b := ChannelBlock(cfg, bits.buf, old(bits.pos), n, c, chanBits);
        && err == b.Failed? && (err ==> why == b.err)
        && (!err ==> bits.pos == b.end && dst[..n] == Rebuilt(c, chanBits, b.res))
    {
      hide Decomp, DecoderAfter;
      var ag := AgParams(cfg, pbFactor);
      var used;
      used, err, why := DynDecomp(ag, bits, predictor, n, chanBits);
      if err {
        return;
      }
      ghost var res := predictor[..n];
      if mode != 0 {
        var nil := new int16[0];
        UnpcBlock(predictor, predictor, n, nil, Setup(DELTA, chanBits, 0));
        assert predictor[..n] == DecoderAfter(DeltaSetup(chanBits), DELTA_COEFS, res, n).out;
      }
      assert Active(coefs[..], num) == Active(c.coefs, num);
      UnpcBlock(predictor, dst, n, coefs, Setup(num, chanBits, denShift));
    }

    /** The uncompressed branch: n pairs of raw 16-bit samples. */
    method ReadRaw(bits: BitBuffer, n: nat)
      requires Valid() && n <= cfg.frameLength
      modifies bits`pos, mixBufferU, mixBufferV
      ensures bits.pos == old(bits.pos) + 32 * n
      ensures RawPairs(bits.buf, old(bits.pos), n, mixBufferU[..n], mixBufferV[..n])
    {
      hide Slice;
      ghost var p := bits.pos;
      var i := 0;
      while i < n
        invariant 0 <= i <= n && bits.pos == p + 32 * i
        invariant forall j :: 0 <= j < i ==>
          mixBufferU[j] == S16(Slice(bits.buf, p + 32 * j, 16))
          && mixBufferV[j] == S16(Slice(bits.buf, p + 32 * j + 16, 16))
      {
        var v := bits.Read(16);
        mixBufferU[i] := SignExtend16(v);
        v := bits.Read(16);
        mixBufferV[i] := SignExtend16(v);
        i := i + 1;
      }
    }

    /** Reads the shifted-out low bits aside; nothing uses them at 16 bits. */
    method ReadShifted(shiftBits: BitBuffer, bytesShifted: nat, n: nat)
      requires Valid() && n <= cfg.frameLength && bytesShifted <= 2
      modifies shiftBits`pos, shift
      ensures forall i :: 0 <= i < 2 * n ==>
        shift[i] == Slice(shiftBits.buf, old(shiftBits.pos) + 8 * bytesShifted * i, 8 * bytesShifted)
    {
      hide Slice;
      ghost var p := shiftBits.pos;
      var i := 0;
      while i < n * 2
        invariant 0 <= i <= n * 2 && shiftBits.pos == p + 8 * bytesShifted * i
        invariant forall j :: 0 <= j < i ==>
          shift[j] == Slice(shiftBits.buf, p + 8 * bytesShifted * j, 8 * bytesShifted)
      {
        shift[i] := shiftBits.Read(8 * bytesShifted);
        assert 8 * bytesShifted * (i + 1) == 8 * bytesShifted * i + 8 * bytesShifted;
        i := i + 1;
      }
    }

    /** decodeElement for one channel or a pair; bits stands after the tag. */
    method DecodeElement(bits: BitBuffer, out: array<int16>, chans: nat)
      returns (n: nat, err: bool, why: AlacError)
      requires Valid() && Supported(cfg) && cfg.bitDepth == 16 && 1 <= chans <= 2
      requires out.Length >= 2 * cfg.frameLength && out != coefsU && out != coefsV
      requires chans == 2 ==> ElementAt(cfg, bits.buf, bits.pos) != Excluded
      requires chans == 1 ==> MonoError(cfg, bits.buf, bits.pos).Some?
      modifies bits`pos, predictor, mixBufferU, mixBufferV, shift, coefsU, coefsV, out
      ensures chans == 1 ==> err && Some(why) == MonoError(cfg, bits.buf, old(bits.pos))
      ensures chans == 2 ==>
        match ElementAt(cfg, bits.buf, old(bits.pos))
        case Bad(e) => err && why == e
        case Pcm(m, pcm, end) => !err && n == m && bits.pos == end && out[..2 * n] == pcm
      ensures !err ==> out[2 * n..] == old(out[2 * n..])
    {
      hide Slice, Compressed, RawOut, Pow2, ChannelBlock, ChannelAt, ChannelEnd, ShiftRoom, HeaderAt;
      var bytesShifted, escapeFlag;
      bytesShifted, escapeFlag, n, err, why := ReadHeader(bits);
      if err {
        return;
      }
      if chans == 1 {
        why := MonoBody(bits, n, bytesShifted);
        return 0, true, why;
      }
      if escapeFlag == 0 {
        err, why := CompressedBody(bits, out, n, bytesShifted);
      } else {
        RawBody(bits, out, n);
      }
    }

    /** The beginning of decodeElement: the header, and the count of a partial
        frame. */
    method ReadHeader(bits: BitBuffer)
      returns (bytesShifted: nat, escapeFlag: nat, n: nat, err: bool, why: AlacError)
      modifies bits`pos
      ensures var h := HeaderAt(cfg, bits.buf, old(bits.pos));
        if h.bytesShifted == 3 then err && why == BadShift
        else if h.n > cfg.frameLength then err && why == FrameTooLong
        else !err && bytesShifted == h.bytesShifted && escapeFlag == h.escape && n == h.n && bits.pos == h.end
    {
      hide Slice, Pow2;
      var s := bits.buf;
      ghost var p := bits.pos;
      n, err, why := 0, false, Truncated;
      var instance := bits.Read(4);
      var unused := bits.Read(12);
      var headerByte := bits.Read(4);
      SplitHeader(s, p + 16);
      HeaderBounds(s, p);
      var partialFrame := headerByte / 8;
      bytesShifted := headerByte / 2 % 4;
      escapeFlag := headerByte % 2;
      if bytesShifted == 3 {
        err, why := true, BadShift;
        return;
      }
      n := cfg.frameLength;
      if partialFrame != 0 {
        var hi := bits.Read(16);
        var lo := bits.Read(16);
        SliceJoin(s, p + 20, 32);
        n := hi * 0x1_0000 + lo;
        if n > cfg.frameLength {
          err, why := true, FrameTooLong;
        }
      }
    }

    /** The escape branch: raw samples, unmixed with no weight. */
    method RawBody(bits: BitBuffer, out: array<int16>, n: nat)
      requires Valid() && n <= cfg.frameLength && out.Length >= 2 * cfg.frameLength
      modifies bits`pos, mixBufferU, mixBufferV, out
      ensures bits.pos == old(bits.pos) + 32 * n && out[..2 * n] == RawOut(bits.buf, old(bits.pos), n)
      ensures out[2 * n..] == old(out[2 * n..])
    {
      hide Slice, RawOut, Unmixed;
      ghost var q := bits.pos;
      ReadRaw(bits, n);
      Unmix16(mixBufferU, mixBufferV, out, n, 0, 0);
      RawUnmixed(bits.buf, q, n, mixBufferU[..n], mixBufferV[..n]);
    }

    /** The compressed branch for one channel, up to the error its residuals end
        with. */
    method MonoBody(bits: BitBuffer, n: nat, bytesShifted: nat) returns (why: AlacError)
      requires Valid() && Supported(cfg) && 1 <= n <= cfg.frameLength && bytesShifted <= 1
      requires ChannelBlock(cfg, bits.buf,
                            ChannelEnd(bits.buf, bits.pos + 16) + ShiftRoom(bytesShifted, 1, n), n,
                            ChannelAt(bits.buf, bits.pos + 16), 16 - 8 * bytesShifted).Failed?
      modifies bits`pos, predictor, mixBufferU, shift, coefsU
      ensures why == ChannelBlock(cfg, bits.buf,
                                  ChannelEnd(bits.buf, old(bits.pos) + 16) + ShiftRoom(bytesShifted, 1, n), n,
                                  ChannelAt(bits.buf, old(bits.pos) + 16), 16 - 8 * bytesShifted).err
    {
      hide Slice, ChannelBlock, ChannelAt, ChannelEnd, Rebuilt, ShiftRoom;
      ghost var p := bits.pos;
      var mixBits := bits.Read(8);
      var mixRes := bits.Read(8);
      var mode, denShift, num, pbFactor := ReadCoefs(bits, coefsU);
      if bytesShifted != 0 {
        bits.Advance(ShiftRoom(bytesShifted, 1, n));
      } else {
        NoShiftRoom(1, n);
      }
      var err;
      err, why := ChannelPass(bits, mixBufferU, n, 16 - 8 * bytesShifted, mode, denShift, num, coefsU,
                              pbFactor, ChannelAt(bits.buf, p + 16));
    }

    /** The compressed branch of decodeElement: two descriptions, then two blocks of
        residuals. */
    method CompressedBody(bits: BitBuffer, out: array<int16>, n: nat, bytesShifted: nat)
      returns (err: bool, why: AlacError)
      requires Valid() && Supported(cfg) && 1 <= n <= cfg.frameLength && bytesShifted <= 2
      requires out.Length >= 2 * cfg.frameLength && out != coefsU && out != coefsV
      modifies bits`pos, predictor, mixBufferU, mixBufferV, shift, coefsU, coefsV, out
      ensures match Compressed(cfg, bits.buf, old(bits.pos), n, bytesShifted)
        case Bad(e) => err && why == e
        case Pcm(m, pcm, end) => !err && bits.pos == end && out[..2 * n] == pcm
      ensures !err ==> out[2 * n..] == old(out[2 * n..])
    {
      hide Slice, ChannelBlock, ChannelAt, ChannelEnd, Rebuilt, Unmixed, ShiftRoom;
      var s := bits.buf;
      ghost var p := bits.pos;
      var mixBits := bits.Read(8);
      var mixRes := bits.Read(8);
      mixRes := S8(mixRes);
      var modeU, denShiftU, numU, pbFactorU := ReadCoefs(bits, coefsU);
      ghost var pv := bits.pos;
      var modeV, denShiftV, numV, pbFactorV := ReadCoefs(bits, coefsV);
      var shiftBits := new BitBuffer(s);
      if bytesShifted != 0 {
        shiftBits.pos := bits.pos;
        bits.Advance(ShiftRoom(bytesShifted, 2, n));
      } else {
        NoShiftRoom(2, n);
      }
      var chanBits := 17 - 8 * bytesShifted;
      ghost var u, v := ChannelAt(s, p + 16), ChannelAt(s, pv);
      err, why := ChannelPass(bits, mixBufferU, n, chanBits, modeU, denShiftU, numU, coefsU, pbFactorU, u);
      if err {
        return;
      }
      err, why := ChannelPass(bits, mixBufferV, n, chanBits, modeV, denShiftV, numV, coefsV, pbFactorV, v);
      if err {
        return;
      }
      if bytesShifted != 0 {
        ReadShifted(shiftBits, bytesShifted, n);
      }
      Unmix16(mixBufferU, mixBufferV, out, n, mixBits, mixRes);
    }

    /** Decode: the element loop. What it returns does not depend on what earlier
        frames left in the buffers. */
    method Decode(frame: seq<byte>, out: array<int16>) returns (n: nat, err: bool, why: AlacError)
      requires Valid() && Supported(cfg)
      requires out.Length >= 2 * cfg.frameLength && out != coefsU && out != coefsV
      requires DecodeFrame(cfg, frame) != OutOfScope
      modifies predictor, mixBufferU, mixBufferV, shift, coefsU, coefsV, out
      ensures match DecodeFrame(cfg, frame)
        case Rejected(e) => err && why == e
        case Decoded(m, pcm, _) => !err && n == m && out[..2 * n] == pcm
      ensures !err ==> out[2 * n..] == old(out[2 * n..])
    {
      hide Slice, ElementAt, MonoError;
      if cfg.bitDepth != 16 {
        return 0, true, BadDepth;
      }
      var bits := new BitBuffer(frame);
      var numSamples: nat := 0;
      ghost var elements := 0;
      while true
        invariant bits.buf == frame
        invariant elements == 0 ==>
          bits.pos == 0 && numSamples == 0 && out[..] == old(out[..])
        invariant elements == 1 ==>
          && Slice(frame, 0, 3) == TAG_CPE && numSamples <= cfg.frameLength
          && ElementAt(cfg, frame, 3) == Pcm(numSamples, out[..2 * numSamples], bits.pos)
          && bits.pos <= 8 * |frame| && out[2 * numSamples..] == old(out[2 * numSamples..])
        invariant elements <= 1
        decreases 1 - elements
      {
        var tag := bits.Read(3);
        if tag == TAG_SCE || tag == TAG_CPE {
          numSamples, err, why := DecodeElement(bits, out, if tag == TAG_CPE then 2 else 1);
          if err {
            return 0, err, why;
          }
          elements := elements + 1;
        } else if tag == TAG_END {
          bits.ByteAlign();
          return numSamples, false, Truncated;
        } else {
          return 0, true, BadElement;
        }
        if bits.Exhausted() {
          return 0, true, Truncated;
        }
      }
    }
  }

  /** Frame independence: two decoders for the same stream, whatever earlier frames
      left in their coefficients and buffers, return the same for a frame. */
  method DecodersAgree(d: Decoder, e: Decoder, frame: seq<byte>, dst: array<int16>, other: array<int16>)
    returns (n: nat, err: bool, why: AlacError, m: nat, fails: bool, because: AlacError)
    requires d.Valid() && e.Valid() && d.cfg == e.cfg && Supported(d.cfg)
    requires DecodeFrame(d.cfg, frame) != OutOfScope
    requires dst.Length >= 2 * d.cfg.frameLength && dst != d.coefsU && dst != d.coefsV
    requires other.Length >= 2 * d.cfg.frameLength && other != e.coefsU && other != e.coefsV
    requires dst != other && dst != e.coefsU && dst != e.coefsV
    modifies d.predictor, d.mixBufferU, d.mixBufferV, d.shift, d.coefsU, d.coefsV, dst
    modifies e.predictor, e.mixBufferU, e.mixBufferV, e.shift, e.coefsU, e.coefsV, other
    ensures err == fails && (err ==> why == because)
    ensures !err ==> n == m && 2 * n <= dst.Length && 2 * n <= other.Length && dst[..2 * n] == other[..2 * n]
  {
    hide DecodeFrame;
    n, err, why := d.Decode(frame, dst);
    m, fails, because := e.Decode(frame, other);
  }

  /** `(v << 16) >> 16` on an int32. */
  method SignExtend16(v: int) returns (x: int32)
    ensures x == S16(v)
  {
    x := SignExtend(v, 0, 16);
    assert Signed(v, 16) == S16(v) by { Pow2Wide(); Pow2Small(); assert Pow2(15) == 0x8000; }
  }

  /** The weighted case of one sample pair, in int32 steps. */
  method UnmixPair(u: int, v: int, mixBits: nat, mixRes: int) returns (left: int16, right: int16)
    requires mixRes != 0
    ensures left == Left(u, v, mixBits, mixRes) && right == Right(u, v, mixBits, mixRes)
  {
    var l := S32(S32(u + v) as int - Shr(S32(mixRes * v), mixBits));
    var r := S32(l as int - v);
    left, right := S16(l), S16(r);
  }

  /** The first j output pairs are the unmixed samples. */
  ghost predicate UnmixedUpTo(u: array<int32>, v: array<int32>, out: array<int16>, j: nat,
                              mixBits: nat, mixRes: int)
    requires j <= u.Length && j <= v.Length && 2 * j <= out.Length
    reads u, v, out
  {
    forall i :: 0 <= i < j ==>
      out[2 * i] == Left(u[i], v[i], mixBits, mixRes) && out[2 * i + 1] == Right(u[i], v[i], mixBits, mixRes)
  }

  /** unmix16: undoes the mid/side transform into interleaved output. */
  method Unmix16(u: array<int32>, v: array<int32>, out: array<int16>, n: nat, mixBits: nat, mixRes: int)
    requires n <= u.Length && n <= v.Length && 2 * n <= out.Length
    modifies out
    ensures out[..2 * n] == Unmixed(u[..n], v[..n], mixBits, mixRes)
    ensures out[2 * n..] == old(out[2 * n..])
  {
    hide Left, Right;
    var j := 0;
    if mixRes != 0 {
      while j < n
        invariant 0 <= j <= n && UnmixedUpTo(u, v, out, j, mixBits, mixRes)
        invariant out[2 * n..] == old(out[2 * n..])
      {
        var l, r := UnmixPair(u[j], v[j], mixBits, mixRes);
        out[j * 2] := l;
        out[j * 2 + 1] := r;
        j := j + 1;
      }
      return;
    }
    while j < n
      invariant 0 <= j <= n && UnmixedUpTo(u, v, out, j, mixBits, mixRes)
      invariant out[2 * n..] == old(out[2 * n..])
    {
      PlainPair(u[j], v[j], mixBits);
      out[j * 2] := S16(u[j]);
      out[j * 2 + 1] := S16(v[j]);
      j := j + 1;
    }
  }

  lemma PlainPair(u: int, v: int, mixBits: nat)
    ensures Left(u, v, mixBits, 0) == S16(u) && Right(u, v, mixBits, 0) == S16(v)
  {
  }

  ghost predicate RawPairs(s: seq<byte>, p: nat, n: nat, us: seq<int>, vs: seq<int>)
  {
    && |us| == |vs| == n
    && forall j :: 0 <= j < n ==>
         us[j] == S16(Slice(s, p + 32 * j, 16)) && vs[j] == S16(Slice(s, p + 32 * j + 16, 16))
  }

  lemma RawUnmixed(s: seq<byte>, p: nat, n: nat, us: seq<int>, vs: seq<int>)
    requires RawPairs(s, p, n, us, vs)
    ensures Unmixed(us, vs, 0, 0) == RawOut(s, p, n)
  {
    hide Slice;
    forall i | 0 <= i < 2 * n ensures Unmixed(us, vs, 0, 0)[i] == RawOut(s, p, n)[i] {
      var j := i / 2;
      assert i % 2 == 0 ==> p + 16 * i == p + 32 * j;
      assert i % 2 == 1 ==> p + 16 * i == p + 32 * j + 16;
    }
  }

  lemma NoShiftRoom(chans: nat, n: nat)
    ensures ShiftRoom(0, chans, n) == 0
  {
  }

  /** The header nibble: a bit, two bits and a bit. */
  lemma SplitHeader(s: seq<byte>, p: nat)
    ensures Slice(s, p, 4) / 8 == Slice(s, p, 1)
    ensures Slice(s, p, 4) / 2 % 4 == Slice(s, p + 1, 2)
    ensures Slice(s, p, 4) % 2 == Slice(s, p + 3, 1)
  {
    hide Slice, Shl;
    SliceSplit(s, p, 1, 3);
    SliceSplit(s, p + 1, 2, 1);
    SliceBound(s, p + 1, 2);
    SliceBound(s, p + 3, 1);
    Pow2Small();
    ShlIsProduct(Slice(s, p, 1), 3);
    ShlIsProduct(Slice(s, p + 1, 2), 1);
    HeaderDigits(Slice(s, p, 1), Slice(s, p + 1, 2), Slice(s, p + 3, 1), Slice(s, p, 4));
  }

  lemma HeaderDigits(a: nat, b: nat, c: nat, h: nat)
    requires b < 4 && c < 2 && h == 8 * a + 2 * b + c
    ensures h / 8 == a && h / 2 % 4 == b && h % 2 == c
  {
    DivModUnique(a, 8, 2 * b + c);
    DivModUnique(4 * a + b, 2, c);
    DivModUnique(a, 4, b);
  }

  lemma SplitByte(s: seq<byte>, p: nat, a: nat, b: nat)
    requires a + b == 8
    ensures Slice(s, p, 8) / Pow2(b) == Slice(s, p, a) && Slice(s, p, 8) % Pow2(b) == Slice(s, p + a, b)
    ensures b == 4 ==> Pow2(b) == 16
    ensures b == 5 ==> Pow2(b) == 32
  {
    SliceSplit(s, p, a, b);
    SliceBound(s, p + a, b);
    ShlIsProduct(Slice(s, p, a), b);
    DivModUnique(Slice(s, p, a), Pow2(b), Slice(s, p + a, b));
    Pow2Small();
  }
}
