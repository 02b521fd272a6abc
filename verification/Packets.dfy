/** The AudioDecoder of internal/raop/rtp.go: resequencer, cipher, ALAC decoder and
    ring put together. Its mutex makes every call below one step. */
module Packets {
  import opened Words
  import opened Bits
  import opened Residuals
  import opened Frames
  import opened AlacDecoder
  import opened Rings
  import opened Cbc
  import opened Sequencing
  import opened Datagrams
  import opened Playout
  import R = Reorder
  import W = WireRuns

  datatype Trouble = ShortPacket | Alac(err: AlacError)

  function Troubled(e: Option<AlacError>): Option<Trouble>
  {
    match e
    case Some(err) => Some(Alac(err))
    case None => None
  }

  class AudioDecoder {
    const block: Cipher
    const iv: CipherBlock
    const dec: Decoder
    const ring: Ring
    const queue: R.Resequencer
    const pcm: array<int16>

    var packets: nat
    var decrypted: nat
    var errors: nat

    /** Everything written to the ring. */
    ghost var heard: seq<int>

    constructor (block: Cipher, iv: CipherBlock, cfg: Config, ring: Ring)
      requires Supported(cfg) && ring.Valid()
      ensures Valid() && this.block == block && this.iv == iv && this.ring == ring && dec.cfg == cfg
      ensures fresh(dec) && fresh(queue) && fresh(pcm) && Scratch() !! {ring.buf as object}
      ensures !queue.abs.started && heard == [] && packets == decrypted == errors == 0
    {
      hide Inv, Open, DecodeFrame, R.Couples;
      this.block, this.iv, this.ring := block, iv, ring;
      dec := new Decoder(cfg);
      queue := new R.Resequencer();
      pcm := new int16[2 * cfg.frameLength](_ => 0);
      packets, decrypted, errors := 0, 0, 0;
      heard := [];
      new;
      BlankState(queue.abs);
    }

    function Announced(): Session
    {
      Session(dec.cfg, block, iv)
    }

    /** What decoding a frame overwrites. */
    ghost function Scratch(): set<object>
    {
      {pcm as object, dec.predictor as object, dec.mixBufferU as object, dec.mixBufferV as object,
       dec.shift as object, dec.coefsU as object, dec.coefsV as object}
    }

    /** The parts fit together and do not overlap. */
    ghost predicate Ready()
      reads ring
    {
      && dec.Valid() && Supported(dec.cfg) && pcm.Length == 2 * dec.cfg.frameLength
      && pcm != dec.coefsU && pcm != dec.coefsV && ring.buf as object !in Scratch() && ring.Valid()
    }

    /** Between calls, what was written to the ring and counted is what the packets
        emitted so far amount to. */
    ghost predicate Valid()
      reads this, ring, queue
    {
      && Ready() && queue.Valid() && AllPlay(Announced(), queue.abs)
      && heard == SoundOf(Announced(), queue.abs)
      && errors == Failures(Announced(), R.Payloads(queue.abs.emitted))
      && decrypted == Ciphered(R.Payloads(queue.abs.emitted))
    }

    /** OnMissing: whether lost packets are asked for. */
    method OnMissing(installed: bool)
      requires Valid()
      modifies queue`hasCallback, queue`abs
      ensures Valid() && queue.abs == old(queue.abs).(callback := installed)
    {
      hide Inv, Plays, Sound, Failures, Ciphered, R.Couples, R.Payloads;
      queue.OnMissing(installed);
    }

    /** decodeOne. */
    method DecodeOne(payload: Packet) returns (err: Option<AlacError>)
      requires Ready() && Plays(Announced(), payload)
      modifies this`decrypted, this`errors, this`heard, ring, ring.buf, Scratch()
      ensures Ready() && err == ErrorOf(Announced(), payload)
      ensures heard == old(heard) + Heard(Announced(), payload)
      ensures ring.Contents() == LastOf(old(ring.Contents()) + Heard(Announced(), payload), ring.buf.Length)
      ensures errors == old(errors) + (if err.Some? then 1 else 0)
      ensures decrypted == old(decrypted) + (if |payload| >= BLOCK then 1 else 0)
    {
      hide Open, DecodeFrame, LastOf;
      var plain, counted := Decrypt(block, iv, payload);
      if counted {
        decrypted := decrypted + 1;
      }
      LastOfAll(ring.Contents(), ring.buf.Length);
      assert ring.Contents() + [] == ring.Contents();
      var n, failed, why := dec.Decode(plain[..], pcm);
      if failed {
        errors := errors + 1;
        return Some(why);
      }
      ring.Write(pcm[..n * 2]);
      heard := heard + pcm[..n * 2];
      err := None;
    }

    /** audio: pushes the payload and decodes whatever comes out of the queue. The
        first error is reported; the packets after it are still decoded. */
    method Audio(pkt: seq<byte>) returns (err: Option<AlacError>)
      requires Valid() && (AudioOf(pkt).Audio? ==> Plays(Announced(), AudioOf(pkt).payload))
      modifies this`decrypted, this`errors, this`heard, queue, ring, ring.buf, Scratch()
      ensures Valid() && old(heard) <= heard
      ensures queue.abs == Taken(old(queue.abs), AudioOf(pkt))
      ensures ring.Contents() == LastOf(old(ring.Contents()) + heard[|old(heard)|..], ring.buf.Length)
      ensures err == FirstError(Announced(), NewPackets(old(queue.abs), queue.abs))
    {
      hide LastOf, Plays, AllPlay, Sound, Failures, Ciphered, FirstError, Inv, AllFrom, Sequencing.Push,
        R.Payloads, R.Couples, R.Wire, R.WireCalls, R.Unwrap;
      if |pkt| <= RTP_HEADER_LEN {
        NothingWritten(ring.Contents(), heard, ring.buf.Length);
        NothingNew(Announced(), queue.abs);
        return None;
      }
      var payload := pkt[RTP_HEADER_LEN..];
      ghost var was := queue.abs;
      TakenPlays(Announced(), was, AudioOf(pkt));
      var ready := queue.Push(SeqNo(pkt), payload);
      ReadyPlays(Announced(), was, queue.abs);
      err := DecodeAll(ready);
    }

    /** audio's loop. */
    method DecodeAll(ready: seq<Packet>) returns (err: Option<AlacError>)
      requires Ready() && forall j :: 0 <= j < |ready| ==> Plays(Announced(), ready[j])
      modifies this`decrypted, this`errors, this`heard, ring, ring.buf, Scratch()
      ensures Ready() && err == FirstError(Announced(), ready)
      ensures heard == old(heard) + Sound(Announced(), ready)
      ensures ring.Contents() == LastOf(old(ring.Contents()) + Sound(Announced(), ready), ring.buf.Length)
      ensures errors == old(errors) + Failures(Announced(), ready)
      ensures decrypted == old(decrypted) + Ciphered(ready)
    {
      hide LastOf, Sound, Failures, Ciphered, FirstError, Plays, Heard, ErrorOf;
      ghost var x := Announced();
      ghost var was := ring.Contents();
      NothingHeard(x);
      LastOfAll(was, ring.buf.Length);
      assert was + [] == was;
      err := None;
      var i := 0;
      while i < |ready|
        invariant 0 <= i <= |ready| && Ready() && err == FirstError(x, ready[..i])
        invariant heard == old(heard) + Sound(x, ready[..i])
        invariant ring.Contents() == LastOf(was + Sound(x, ready[..i]), ring.buf.Length)
        invariant errors == old(errors) + Failures(x, ready[..i])
        invariant decrypted == old(decrypted) + Ciphered(ready[..i])
      {
        SumsStep(x, ready[..i], ready[i]);
        assert ready[..i + 1] == ready[..i] + [ready[i]];
        LastOfTwice(was + Sound(x, ready[..i]), Heard(x, ready[i]), ring.buf.Length);
        assert was + (Sound(x, ready[..i]) + Heard(x, ready[i])) == was + Sound(x, ready[..i]) + Heard(x, ready[i]);
        var e := DecodeOne(ready[i]);
        if e.Some? && err.None? {
          err := e;
        }
        i := i + 1;
      }
      assert ready[..i] == ready;
    }

    /** Packet: a datagram, from either port. */
    method Packet(pkt: seq<byte>) returns (err: Option<Trouble>)
      requires Valid() && (Classify(pkt).Audio? ==> Plays(Announced(), Classify(pkt).payload))
      modifies this, queue, ring, ring.buf, Scratch()
      ensures Valid() && old(heard) <= heard
      ensures queue.abs == Received(old(queue.abs), pkt)
      ensures ring.Contents() == LastOf(old(ring.Contents()) + heard[|old(heard)|..], ring.buf.Length)
      ensures packets == old(packets) + (if |pkt| >= 12 then 1 else 0)
      ensures err == Some(ShortPacket) <==> |pkt| < 12 || (pkt[1] % 128 == 86 && |pkt| < 16)
      ensures err == if Classify(pkt).Short? then Some(ShortPacket)
                     else Troubled(FirstError(Announced(), NewPackets(old(queue.abs), queue.abs)))
    {
      hide LastOf, Plays, AllPlay, Sound, SoundOf, Failures, Ciphered, FirstError, Inv, Taken, R.Payloads, NewPackets,
        R.Couples, DecodeFrame, Slice, Around, SeqNo, Supported;
      NothingWritten(ring.Contents(), heard, ring.buf.Length);
      NothingNew(Announced(), queue.abs);
      TakenIgnores(queue.abs);
      if |pkt| < RTP_HEADER_LEN {
        return Some(ShortPacket);
      }
      packets := packets + 1;
      var pt := pkt[1] % 0x80;
      if pt == PT_RETRANSMIT {
        if |pkt| < RETRANSMIT_OFFSET + RTP_HEADER_LEN {
          return Some(ShortPacket);
        }
        var e := Audio(pkt[RETRANSMIT_OFFSET..]);
        return Troubled(e);
      } else if pt == PT_AUDIO {
        var e := Audio(pkt);
        return Troubled(e);
      }
      err := None;
    }
  }

  datatype Refusal = BadKey | BadIV

  /** The key sizes of AES (section 5 of FIPS 197). */
  predicate IsKey(key: seq<byte>)
  {
    |key| in {16, 24, 32}
  }

  /** NewAudioDecoder: refuses a key that no cipher takes, and then an IV that is
      not one block long. aes gives the block function of a key. */
  method NewAudioDecoder(aes: seq<byte> -> Cipher, key: seq<byte>, iv: seq<byte>, cfg: Config, ring: Ring)
    returns (a: AudioDecoder?, refused: Option<Refusal>)
    requires Supported(cfg) && ring.Valid()
    ensures refused == if |key| != 16 && |key| != 24 && |key| != 32 then Some(BadKey)
                       else if |iv| != 16 then Some(BadIV) else None
    ensures a != null <==> refused.None?
    ensures a != null ==>
      && a.Valid() && a.Announced() == Session(cfg, aes(key), iv) && a.ring == ring
      && !a.queue.abs.started && a.heard == []
  {
    if !IsKey(key) {
      return null, Some(BadKey);
    }
    if |iv| != BLOCK {
      return null, Some(BadIV);
    }
    a := new AudioDecoder(aes(key), iv, cfg, ring);
    refused := None;
  }

  /** A whole session: the object goes through the states of ReceivedAll, and what
      it has written to the ring is their sound. */
  method Listen(a: AudioDecoder, pkts: seq<seq<byte>>)
    requires a.Valid()
    requires forall j :: 0 <= j < |pkts| && Classify(pkts[j]).Audio? ==>
      Plays(a.Announced(), Classify(pkts[j]).payload)
    modifies a, a.queue, a.ring, a.ring.buf, a.Scratch()
    ensures a.Valid() && a.queue.abs == ReceivedAll(old(a.queue.abs), pkts, |pkts|)
    ensures a.heard == SoundOf(a.Announced(), ReceivedAll(old(a.queue.abs), pkts, |pkts|))
    ensures old(a.heard) <= a.heard
    ensures a.ring.Contents()
         == LastOf(old(a.ring.Contents()) + a.heard[|old(a.heard)|..], a.ring.buf.Length)
  {
    hide LastOf, Plays, AllPlay, Sound, SoundOf, Failures, Ciphered, FirstError, Inv, Received, Classify, R.Payloads,
      Supported, Troubled, NewPackets, R.Couples, DecodeFrame, Slice, Around;
    ghost var was, c, cap := a.heard, a.ring.Contents(), a.ring.buf.Length;
    NothingWritten(c, was, cap);
    for j := 0 to |pkts|
      invariant a.Valid() && a.queue.abs == ReceivedAll(old(a.queue.abs), pkts, j)
      invariant was <= a.heard && a.ring.Contents() == LastOf(c + a.heard[|was|..], cap)
    {
      ghost var h := a.heard;
      var err := a.Packet(pkts[j]);
      WrittenOn(c, was, h, a.heard, cap);
    }
  }

  lemma BlankState(st: State)
    requires Inv(st) && !st.started
    ensures st.emitted == [] && st.held == map[]
  {
  }

  lemma NothingHeard(x: Session)
    requires Supported(x.cfg)
    ensures Sound(x, []) == [] && Failures(x, []) == 0 && Ciphered([]) == 0 && FirstError(x, []) == None
  {
  }

  /** The payloads emitted between two states. */
  function NewPackets(was: State, now: State): seq<Packet>
    requires |was.emitted| <= |now.emitted|
  {
    R.Payloads(now.emitted[|was.emitted|..])
  }

  lemma NothingWritten(c: seq<int>, h: seq<int>, cap: nat)
    requires |c| <= cap
    ensures LastOf(c + h[|h|..], cap) == c
  {
    assert c + h[|h|..] == c;
  }

  lemma WrittenOn(c: seq<int>, was: seq<int>, h: seq<int>, now: seq<int>, cap: nat)
    requires was <= h <= now
    ensures LastOf(LastOf(c + h[|was|..], cap) + now[|h|..], cap) == LastOf(c + now[|was|..], cap)
  {
    hide LastOf;
    LastOfTwice(c + h[|was|..], now[|h|..], cap);
    assert c + now[|was|..] == c + h[|was|..] + now[|h|..];
  }

  lemma TakenIgnores(st: State)
    requires Inv(st)
    ensures Taken(st, Short) == st == Taken(st, Ignored)
  {
  }

  lemma NothingNew(x: Session, st: State)
    requires Supported(x.cfg)
    ensures NewPackets(st, st) == [] && FirstError(x, NewPackets(st, st)) == None
  {
    assert NewPackets(st, st) == [];
  }

  lemma TakenPlays(x: Session, st: State, m: Media)
    requires Supported(x.cfg) && Inv(st) && AllPlay(x, st)
    requires m.Audio? ==> Plays(x, m.payload)
    ensures AllPlay(x, Taken(st, m))
  {
    hide Inv, AllPlay, Plays, Sequencing.Push, W.IndexOf, AllFrom;
    if m.Audio? {
      PushKeeps(st, W.IndexOf(st, m.seqNo), m.payload);
      PushPlays(x, st, W.IndexOf(st, m.seqNo), m.payload);
    }
  }

  /** What a step emits is in scope and adds to the sums. */
  lemma ReadyPlays(x: Session, was: State, now: State)
    requires Supported(x.cfg) && AllPlay(x, now) && was.emitted <= now.emitted
    ensures var ready := NewPackets(was, now);
      && (forall j :: 0 <= j < |ready| ==> Plays(x, ready[j]))
      && SoundOf(x, now) == SoundOf(x, was) + Sound(x, ready)
      && Failures(x, R.Payloads(now.emitted))
         == Failures(x, R.Payloads(was.emitted)) + Failures(x, ready)
      && Ciphered(R.Payloads(now.emitted)) == Ciphered(R.Payloads(was.emitted)) + Ciphered(ready)
  {
    hide Plays, Sound, Failures, Ciphered;
    assert R.Payloads(now.emitted) == R.Payloads(was.emitted) + NewPackets(was, now);
    SumsJoin(x, R.Payloads(was.emitted), NewPackets(was, now));
  }
}
