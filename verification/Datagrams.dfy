/** What internal/raop/rtp.go takes a datagram for, and the RTP packets (section
    5.1 of RFC 3550) and resend wrappers that a sender puts on the wire. */
module Datagrams {
  import opened Words
  import opened Sequencing

  const PT_RETRANSMIT := 86
  const PT_AUDIO := 96
  const RTP_HEADER_LEN := 12
  const RETRANSMIT_OFFSET := 4

  /** A datagram is too short, not audio (or audio without a payload), or one
      packet of audio. */
  datatype Media = Short | Ignored | Audio(seqNo: nat, payload: Packet)

  function SeqNo(pkt: seq<byte>): (s: nat)
    ensures s < SEQ_SPACE
  {
    if |pkt| < 4 then 0 else pkt[2] as int * 0x100 + pkt[3] as int
  }

  function AudioOf(pkt: seq<byte>): (m: Media)
    ensures m.Audio? ==> m.seqNo < SEQ_SPACE
  {
    if |pkt| <= RTP_HEADER_LEN then Ignored else Audio(SeqNo(pkt), pkt[RTP_HEADER_LEN..])
  }

  /** `pkt[1] & 0x7f`: the payload type without the marker bit. */
  function PayloadType(pkt: seq<byte>): nat
    requires |pkt| >= 2
  {
    pkt[1] % 0x80
  }

  function Classify(pkt: seq<byte>): (m: Media)
    ensures m.Audio? ==> m.seqNo < SEQ_SPACE && |pkt| > RTP_HEADER_LEN
  {
    if |pkt| < RTP_HEADER_LEN then Short
    else if PayloadType(pkt) == PT_RETRANSMIT then
      if |pkt| < RETRANSMIT_OFFSET + RTP_HEADER_LEN then Short else AudioOf(pkt[RETRANSMIT_OFFSET..])
    else if PayloadType(pkt) == PT_AUDIO then AudioOf(pkt)
    else Ignored
  }

  // ---- the sender ------------------------------------------------------------------

  /** A packet with a header: any first byte, timestamp and source; second holds the
      marker bit and the payload type. */
  function RtpPacket(first: byte, second: byte, s: nat, rest: seq<byte>, payload: Packet): (pkt: seq<byte>)
    requires s < SEQ_SPACE && |rest| == 8
    ensures |pkt| == 12 + |payload|
  {
    [first, second, s / 0x100, s % 0x100] + rest + payload
  }

  ghost predicate IsWrapper(w: seq<byte>)
  {
    |w| == 4 && w[1] % 128 == 86
  }

  /** A packet is taken for what was sent: straight with the audio type, or in a
      wrapper whatever its own type. */
  lemma RtpReads(first: byte, second: byte, s: nat, rest: seq<byte>, payload: Packet, w: seq<byte>)
    requires s < SEQ_SPACE && |rest| == 8 && |payload| > 0 && IsWrapper(w)
    ensures second % 128 == 96 ==> Classify(RtpPacket(first, second, s, rest, payload)) == Audio(s, payload)
    ensures Classify(w + RtpPacket(first, second, s, rest, payload)) == Audio(s, payload)
  {
    var pkt := RtpPacket(first, second, s, rest, payload);
    assert pkt[RTP_HEADER_LEN..] == payload;
    assert (w + pkt)[RETRANSMIT_OFFSET..] == pkt;
  }

  ghost predicate Straight(pkt: seq<byte>, s: nat, payload: Packet)
    requires s < SEQ_SPACE
  {
    exists first: byte, second: byte, rest: seq<byte> ::
      |rest| == 8 && second % 128 == 96 && pkt == RtpPacket(first, second, s, rest, payload)
  }

  ghost predicate Resent(pkt: seq<byte>, s: nat, payload: Packet)
    requires s < SEQ_SPACE
  {
    exists w: seq<byte>, first: byte, second: byte, rest: seq<byte> ::
      IsWrapper(w) && |rest| == 8 && pkt == w + RtpPacket(first, second, s, rest, payload)
  }

  lemma HeaderOf(pkt: seq<byte>)
    requires |pkt| > RTP_HEADER_LEN
    ensures pkt == RtpPacket(pkt[0], pkt[1], SeqNo(pkt), pkt[4..RTP_HEADER_LEN], pkt[RTP_HEADER_LEN..])
  {
    assert SeqNo(pkt) / 0x100 == pkt[2] && SeqNo(pkt) % 0x100 == pkt[3];
  }

  lemma SentIsPlayed(pkt: seq<byte>, s: nat, payload: Packet)
    requires s < SEQ_SPACE && |payload| > 0 && (Straight(pkt, s, payload) || Resent(pkt, s, payload))
    ensures Classify(pkt) == Audio(s, payload)
  {
    if Straight(pkt, s, payload) {
      var first: byte, second: byte, rest: seq<byte> :|
        |rest| == 8 && second % 128 == 96 && pkt == RtpPacket(first, second, s, rest, payload);
      RtpReads(first, second, s, rest, payload, [0, 86, 0, 0]);
    } else {
      var w: seq<byte>, first: byte, second: byte, rest: seq<byte> :|
        IsWrapper(w) && |rest| == 8 && pkt == w + RtpPacket(first, second, s, rest, payload);
      RtpReads(first, second, s, rest, payload, w);
    }
  }

  /** Exactly the audio that a sender forms is played: a number and a non-empty
      payload behind an RTP header, straight or as a resend. */
  lemma PlayedIsSent(pkt: seq<byte>, s: nat, payload: Packet)
    requires s < SEQ_SPACE
    ensures Classify(pkt) == Audio(s, payload)
        <==> |payload| > 0 && (Straight(pkt, s, payload) || Resent(pkt, s, payload))
  {
    if Classify(pkt) == Audio(s, payload) {
      if PayloadType(pkt) == PT_RETRANSMIT {
        var w, inner := pkt[..RETRANSMIT_OFFSET], pkt[RETRANSMIT_OFFSET..];
        HeaderOf(inner);
        assert IsWrapper(w) && pkt == w + inner;
      } else {
        HeaderOf(pkt);
      }
    }
    if |payload| > 0 && (Straight(pkt, s, payload) || Resent(pkt, s, payload)) {
      SentIsPlayed(pkt, s, payload);
    }
  }
}
