/** The sound of a session: what the packet path makes of the datagrams it gets,
    as a function of the key, the cookie and the datagrams. */
module Playout {
  import opened Words
  import opened Bits
  import opened Residuals
  import opened Frames
  import opened FrameRoundTrip
  import opened Cbc
  import opened Sequencing
  import opened Disorder
  import opened Datagrams
  import R = Reorder
  import W = WireRuns

  /** What a session's announcement fixes: the cookie, the block cipher under the
      session key, and the IV. */
  datatype Session = Session(cfg: Config, dec: Cipher, iv: CipherBlock)

  // ---- one packet --------------------------------------------------------------------

  function FrameOf(x: Session, p: Packet): Outcome
    requires Supported(x.cfg)
  {
    DecodeFrame(x.cfg, Open(x.dec, x.iv, p))
  }

  function Heard(x: Session, p: Packet): seq<int>
    requires Supported(x.cfg)
  {
    match FrameOf(x, p)
    case Decoded(_, pcm, _) => pcm
    case _ => []
  }

  function ErrorOf(x: Session, p: Packet): Option<AlacError>
    requires Supported(x.cfg)
  {
    match FrameOf(x, p)
    case Rejected(err) => Some(err)
    case _ => None
  }

  // ---- packets in order --------------------------------------------------------------

  function Sound(x: Session, ps: seq<Packet>): seq<int>
    requires Supported(x.cfg)
  {
    if |ps| == 0 then [] else Sound(x, ps[..|ps| - 1]) + Heard(x, ps[|ps| - 1])
  }

  function Failures(x: Session, ps: seq<Packet>): nat
    requires Supported(x.cfg)
  {
    if |ps| == 0 then 0
    else
      Failures(x, ps[..|ps| - 1])
      + (if ErrorOf(x, ps[|ps| - 1]).Some? then 1 else 0)
  }

  function FirstError(x: Session, ps: seq<Packet>): Option<AlacError>
    requires Supported(x.cfg)
  {
    if |ps| == 0 then None
    else
      var e := FirstError(x, ps[..|ps| - 1]);
      if e.Some? then e else ErrorOf(x, ps[|ps| - 1])
  }

  /** How many packets had a whole block to decrypt. */
  function Ciphered(ps: seq<Packet>): nat
  {
    if |ps| == 0 then 0 else Ciphered(ps[..|ps| - 1]) + (if |ps[|ps| - 1]| >= BLOCK then 1 else 0)
  }

  lemma SumsStep(x: Session, ps: seq<Packet>, p: Packet)
    requires Supported(x.cfg)
    ensures Sound(x, ps + [p]) == Sound(x, ps) + Heard(x, p)
    ensures Failures(x, ps + [p]) == Failures(x, ps) + (if ErrorOf(x, p).Some? then 1 else 0)
    ensures FirstError(x, ps + [p]) == if FirstError(x, ps).Some? then FirstError(x, ps) else ErrorOf(x, p)
    ensures Ciphered(ps + [p]) == Ciphered(ps) + (if |p| >= BLOCK then 1 else 0)
  {
    hide Heard, ErrorOf;
    assert (ps + [p])[..|ps|] == ps;
  }

  lemma {:induction false} SumsJoin(x: Session, ps: seq<Packet>, qs: seq<Packet>)
    requires Supported(x.cfg)
    ensures Sound(x, ps + qs) == Sound(x, ps) + Sound(x, qs)
    ensures Failures(x, ps + qs) == Failures(x, ps) + Failures(x, qs)
    ensures Ciphered(ps + qs) == Ciphered(ps) + Ciphered(qs)
    decreases |qs|
  {
    hide Heard, ErrorOf;
    if |qs| == 0 {
      assert ps + qs == ps;
    } else {
      hide Sound, Failures, Ciphered;
      var front, last := qs[..|qs| - 1], qs[|qs| - 1];
      assert ps + qs == (ps + front) + [last] && qs == front + [last];
      SumsJoin(x, ps, front);
      SumsStep(x, ps + front, last);
      SumsStep(x, front, last);
    }
  }

  /** No packet before the i-th has an error. */
  ghost predicate SoundUpTo(x: Session, ps: seq<Packet>, i: nat)
    requires Supported(x.cfg) && i <= |ps|
  {
    forall j :: 0 <= j < i ==> ErrorOf(x, ps[j]).None?
  }

  ghost predicate FirstAt(x: Session, ps: seq<Packet>, i: nat, e: AlacError)
    requires Supported(x.cfg)
  {
    i < |ps| && ErrorOf(x, ps[i]) == Some(e) && SoundUpTo(x, ps, i)
  }

  lemma NoErrorExactly(x: Session, ps: seq<Packet>)
    requires Supported(x.cfg)
    ensures FirstError(x, ps).None? <==> SoundUpTo(x, ps, |ps|)
    decreases |ps|
  {
    hide ErrorOf;
    if |ps| > 0 {
      var front := ps[..|ps| - 1];
      NoErrorExactly(x, front);
      assert forall j :: 0 <= j < |front| ==> front[j] == ps[j];
    }
  }

  lemma FirstAtFront(x: Session, ps: seq<Packet>, i: nat, e: AlacError)
    requires Supported(x.cfg) && |ps| > 0
    ensures FirstAt(x, ps[..|ps| - 1], i, e) <==> FirstAt(x, ps, i, e) && i < |ps| - 1
  {
    hide ErrorOf;
    assert forall j :: 0 <= j < |ps| - 1 ==> ps[..|ps| - 1][j] == ps[j];
  }

  lemma {:induction false} FirstErrorStands(x: Session, ps: seq<Packet>) returns (i: nat)
    requires Supported(x.cfg) && FirstError(x, ps).Some?
    ensures FirstAt(x, ps, i, FirstError(x, ps).value)
    decreases |ps|
  {
    hide ErrorOf, FirstAt, SoundUpTo;
    var n := |ps| - 1;
    if FirstError(x, ps[..n]).Some? {
      i := FirstErrorStands(x, ps[..n]);
      FirstAtFront(x, ps, i, FirstError(x, ps).value);
    } else {
      i := n;
      LastIsFirst(x, ps);
    }
  }

  lemma LastIsFirst(x: Session, ps: seq<Packet>)
    requires Supported(x.cfg) && |ps| > 0 && FirstError(x, ps[..|ps| - 1]).None?
    ensures SoundUpTo(x, ps, |ps| - 1)
    ensures FirstError(x, ps).Some? ==> FirstAt(x, ps, |ps| - 1, FirstError(x, ps).value)
  {
    hide ErrorOf;
    NoErrorExactly(x, ps[..|ps| - 1]);
    assert forall j :: 0 <= j < |ps| - 1 ==> ps[..|ps| - 1][j] == ps[j];
  }

  lemma {:induction false} FirstIsReported(x: Session, ps: seq<Packet>, i: nat, e: AlacError)
    requires Supported(x.cfg) && FirstAt(x, ps, i, e)
    ensures FirstError(x, ps) == Some(e)
    decreases |ps|
  {
    hide ErrorOf, SoundUpTo;
    if i < |ps| - 1 {
      FirstAtFront(x, ps, i, e);
      FirstIsReported(x, ps[..|ps| - 1], i, e);
    } else {
      NoErrorBefore(x, ps);
    }
  }

  lemma NoErrorBefore(x: Session, ps: seq<Packet>)
    requires Supported(x.cfg) && |ps| > 0 && SoundUpTo(x, ps, |ps| - 1)
    ensures FirstError(x, ps[..|ps| - 1]).None?
  {
    hide ErrorOf;
    assert forall j :: 0 <= j < |ps| - 1 ==> ps[..|ps| - 1][j] == ps[j];
    NoErrorExactly(x, ps[..|ps| - 1]);
  }

  /** The error reported is that of the first packet with one. */
  lemma FirstErrorExactly(x: Session, ps: seq<Packet>, e: AlacError)
    requires Supported(x.cfg)
    ensures FirstError(x, ps) == Some(e) <==> exists i: nat :: FirstAt(x, ps, i, e)
  {
    hide ErrorOf, FirstAt, SoundUpTo, FirstError;
    if FirstError(x, ps) == Some(e) {
      var i := FirstErrorStands(x, ps);
    }
    if i: nat :| FirstAt(x, ps, i, e) {
      FirstIsReported(x, ps, i, e);
    }
  }

  ghost function Failing(x: Session, ps: seq<Packet>): set<nat>
    requires Supported(x.cfg)
  {
    set i: nat | i < |ps| && FrameOf(x, ps[i]).Rejected?
  }

  ghost function Ciphers(ps: seq<Packet>): set<nat>
  {
    set i: nat | i < |ps| && |ps[i]| >= 16
  }

  lemma FailingGrows(x: Session, ps: seq<Packet>, p: Packet)
    requires Supported(x.cfg)
    ensures |Failing(x, ps + [p])| == |Failing(x, ps)| + (if FrameOf(x, p).Rejected? then 1 else 0)
  {
    hide FrameOf;
    var n: nat := |ps|;
    if FrameOf(x, p).Rejected? {
      assert Failing(x, ps + [p]) == Failing(x, ps) + {n};
    } else {
      assert Failing(x, ps + [p]) == Failing(x, ps);
    }
  }

  lemma CiphersGrow(ps: seq<Packet>, p: Packet)
    ensures |Ciphers(ps + [p])| == |Ciphers(ps)| + (if |p| >= 16 then 1 else 0)
  {
    var n: nat := |ps|;
    if |p| >= 16 {
      assert Ciphers(ps + [p]) == Ciphers(ps) + {n};
    } else {
      assert Ciphers(ps + [p]) == Ciphers(ps);
    }
  }

  /** The tallies count packets: those rejected, and those of 16 bytes or more. */
  lemma {:induction false} TalliesCount(x: Session, ps: seq<Packet>)
    requires Supported(x.cfg)
    ensures Failures(x, ps) == |Failing(x, ps)| && Ciphered(ps) == |Ciphers(ps)|
    decreases |ps|
  {
    hide FrameOf, Failing, Ciphers;
    if |ps| > 0 {
      var n := |ps| - 1;
      TalliesCount(x, ps[..n]);
      assert ps == ps[..n] + [ps[n]];
      FailingGrows(x, ps[..n], ps[n]);
      CiphersGrow(ps[..n], ps[n]);
    } else {
      NoneCounted(x);
    }
  }

  lemma NoneCounted(x: Session)
    requires Supported(x.cfg)
    ensures |Failing(x, [])| == 0 && |Ciphers([])| == 0
  {
    assert Failing(x, []) == {} && Ciphers([]) == {};
  }

  /** A rejected packet is silent. */
  lemma FailingIsSilent(x: Session, p: Packet)
    requires Supported(x.cfg)
    ensures ErrorOf(x, p).Some? <==> FrameOf(x, p).Rejected?
    ensures ErrorOf(x, p).Some? ==> Heard(x, p) == []
  {
    hide FrameOf;
  }

  // ---- scope -----------------------------------------------------------------------------

  predicate Plays(x: Session, p: Packet)
    requires Supported(x.cfg)
  {
    FrameOf(x, p) != OutOfScope
  }

  /** Every packet held or emitted is within the model. */
  ghost predicate AllPlay(x: Session, st: State)
    requires Supported(x.cfg)
  {
    && (forall k :: k in st.held ==> Plays(x, st.held[k]))
    && (forall j :: 0 <= j < |st.emitted| ==> Plays(x, st.emitted[j].1))
  }

  lemma {:induction false} DrainPlays(x: Session, st: State)
    requires Supported(x.cfg) && AllPlay(x, st)
    ensures AllPlay(x, Drain(st))
    decreases |st.held|
  {
    hide Plays;
    DrainSteps(st);
    if st.next in st.held {
      ShrinksBy(st.held, st.next);
      assert AllPlay(x, DrainOne(st));
      DrainPlays(x, DrainOne(st));
    }
  }

  lemma PushPlays(x: Session, st: State, i: int, p: Packet)
    requires Supported(x.cfg) && AllPlay(x, st) && Plays(x, p)
    requires (st.started || i >= 0) && AllFrom(st.held, Begin(st, i).next)
    ensures AllPlay(x, Push(st, i, p))
  {
    hide Plays, Drain;
    var b := Begin(st, i);
    if i >= b.next {
      var h := Hold(b, i, p);
      assert AllPlay(x, h) by {
        if i > b.next { AskOnlyAsks(b.(reordered := b.reordered + 1), i); }
      }
      DrainPlays(x, h);
      var d := Drain(h);
      if |d.held| > SEQ_WINDOW { DrainPlays(x, Skip(d)); }
    }
  }

  // ---- datagrams ---------------------------------------------------------------------

  /** The resequencer after one datagram. */
  ghost function Received(st: State, pkt: seq<byte>): (r: State)
    requires Inv(st)
    ensures Inv(r) && st.emitted <= r.emitted
  {
    Taken(st, Classify(pkt))
  }

  ghost function Taken(st: State, m: Media): (r: State)
    requires Inv(st)
    ensures Inv(r) && st.emitted <= r.emitted
  {
    match m
    case Audio(s, p) =>
      PushKeeps(st, W.IndexOf(st, s), p);
      PushEmits(st, W.IndexOf(st, s), p);
      Push(st, W.IndexOf(st, s), p)
    case _ => st
  }

  ghost function ReceivedAll(st: State, pkts: seq<seq<byte>>, t: nat): (r: State)
    requires Inv(st) && t <= |pkts|
    ensures Inv(r)
  {
    if t == 0 then st else Received(ReceivedAll(st, pkts, t - 1), pkts[t - 1])
  }

  /** Everything written to the ring by a session in a state. */
  function SoundOf(x: Session, st: State): seq<int>
    requires Supported(x.cfg)
  {
    Sound(x, R.Payloads(st.emitted))
  }

  /** The sequence numbers and payloads of the audio among the datagrams. */
  function Numbers(pkts: seq<seq<byte>>): (ws: seq<nat>)
  {
    if |pkts| == 0 then []
    else
      Numbers(pkts[..|pkts| - 1])
      + (if Classify(pkts[|pkts| - 1]).Audio? then [Classify(pkts[|pkts| - 1]).seqNo] else [])
  }

  function Bodies(pkts: seq<seq<byte>>): (ps: seq<Packet>)
    ensures |ps| == |Numbers(pkts)|
  {
    if |pkts| == 0 then []
    else
      Bodies(pkts[..|pkts| - 1])
      + (if Classify(pkts[|pkts| - 1]).Audio? then [Classify(pkts[|pkts| - 1]).payload] else [])
  }

  lemma {:induction false} RunWirePrefix(st: State, ws: seq<nat>, pk: seq<Packet>, w: nat, p: Packet, t: nat)
    requires Inv(st) && |ws| == |pk| && t <= |ws|
    ensures W.RunWire(st, ws + [w], pk + [p], t) == W.RunWire(st, ws, pk, t)
  {
    hide Inv, Push, W.IndexOf;
    if t > 0 { RunWirePrefix(st, ws, pk, w, p, t - 1); }
  }

  lemma {:induction false} ReceivedIgnoresLater(st: State, pkts: seq<seq<byte>>, n: nat, t: nat)
    requires Inv(st) && t <= n <= |pkts|
    ensures ReceivedAll(st, pkts[..n], t) == ReceivedAll(st, pkts, t)
    decreases t
  {
    hide Inv, Received;
    if t > 0 { ReceivedIgnoresLater(st, pkts, n, t - 1); }
  }

  /** Only the audio matters, and only its sequence numbers and payloads. */
  lemma {:induction false} OnlyAudioCounts(st: State, pkts: seq<seq<byte>>)
    requires Inv(st)
    ensures ReceivedAll(st, pkts, |pkts|) == W.RunWire(st, Numbers(pkts), Bodies(pkts), |Numbers(pkts)|)
    decreases |pkts|
  {
    hide Inv, Push, Classify, W.IndexOf;
    if |pkts| > 0 {
      var n := |pkts| - 1;
      OnlyAudioCounts(st, pkts[..n]);
      ReceivedIgnoresLater(st, pkts, n, n);
      var m, ws, pk := Classify(pkts[n]), Numbers(pkts[..n]), Bodies(pkts[..n]);
      if m.Audio? {
        RunWirePrefix(st, ws, pk, m.seqNo, m.payload, |ws|);
        assert Numbers(pkts) == ws + [m.seqNo] && Bodies(pkts) == pk + [m.payload];
        var r := W.RunWire(st, ws, pk, |ws|);
        PushKeeps(r, W.IndexOf(r, m.seqNo), m.payload);
      } else {
        assert Numbers(pkts) == ws && Bodies(pkts) == pk;
      }
    }
  }

  /** The audio among the datagrams is the packets pay(a[0]), pay(a[1]), ... under
      their sequence numbers modulo 2^16; wrapped or not, with anything between. */
  ghost predicate Carries(pkts: seq<seq<byte>>, a: seq<int>, pay: int -> Packet)
  {
    Numbers(pkts) == W.Wires(a) && Bodies(pkts) == W.Pays(a, pay)
  }

  /** A stream that the resequencer can follow and put right. */
  ghost predicate Orderly(a: seq<int>)
  {
    |a| > 0 && a[0] >= 0 && BoundedDisorder(a) && W.NearFrontier(a)
  }

  lemma ReceivedIsRun(st: State, pkts: seq<seq<byte>>, a: seq<int>, pay: int -> Packet)
    requires Inv(st) && !st.started && Orderly(a) && Carries(pkts, a, pay)
    ensures ReceivedAll(st, pkts, |pkts|) == Run(st, a, pay, |a|)
  {
    hide Inv, BoundedDisorder, Numbers, Bodies, ReceivedAll, Run, W.NearFrontier, W.InReach, W.RunWire;
    OnlyAudioCounts(st, pkts);
    W.FrontierIsInReach(st, a, pay);
    W.WireRunIsRun(st, a, pay, |a|);
  }

  // ---- the whole packet path ---------------------------------------------------------------

  /** Order insensitivity of the packet path: two sessions with the same first
      packet and the same later packets, in any orderly orders, duplicated,
      resent in wrappers and mixed with other traffic, write the same sound. */
  lemma SoundIsOrderInsensitive(x: Session, st: State, pkts: seq<seq<byte>>, qkts: seq<seq<byte>>,
                                a: seq<int>, b: seq<int>, pay: int -> Packet)
    requires Supported(x.cfg) && Inv(st) && !st.started
    requires Orderly(a) && Orderly(b) && Carries(pkts, a, pay) && Carries(qkts, b, pay)
    requires a[0] == b[0] && Seen(a, |a|) == Seen(b, |b|)
    ensures SoundOf(x, ReceivedAll(st, pkts, |pkts|)) == SoundOf(x, ReceivedAll(st, qkts, |qkts|))
  {
    hide Inv, BoundedDisorder, Carries, Run, Seen, ReceivedAll, W.NearFrontier, R.Payloads, Sound;
    ReceivedIsRun(st, pkts, a, pay);
    ReceivedIsRun(st, qkts, b, pay);
    OrderInsensitive(st, a, b, pay);
  }

  // ---- end to end ----------------------------------------------------------------------------

  /** One frame of a recording and the way the sender chooses to encode it. */
  datatype Take = Take(plan: Plan, ls: seq<int>, rs: seq<int>)

  ghost predicate Sendable(cfg: Config, k: Take)
    requires Supported(cfg)
  {
    && ValidPlan(k.plan) && 1 <= |k.ls| == |k.rs| && FitsFrame(cfg, k.plan, |k.ls|)
    && LowFits(k.plan, 2, |k.ls|) && AreSamples(k.ls) && AreSamples(k.rs)
    && (LegalMix(k.plan) || MixFits(k.ls, k.rs, k.plan.mixBits, k.plan.mixRes, Width(k.plan)))
  }

  /** The frame encoded, packed and encrypted. */
  function Shipped(x: Session, enc: Cipher, k: Take): Packet
    requires Supported(x.cfg) && Sendable(x.cfg, k)
  {
    Seal(enc, x.iv, Pack(FrameBits(x.cfg, k.plan, k.ls, k.rs)))
  }

  lemma ShippedIsHeard(x: Session, enc: Cipher, k: Take)
    requires Supported(x.cfg) && x.cfg.bitDepth == 16 && Sendable(x.cfg, k) && Inverse(enc, x.dec)
    ensures Plays(x, Shipped(x, enc, k))
    ensures Heard(x, Shipped(x, enc, k)) == Interleaved(k.ls, k.rs)
  {
    hide Seal, Open, Pack, FrameBits, DecodeFrame, Interleaved;
    OpenUndoesSeal(enc, x.dec, x.iv, Pack(FrameBits(x.cfg, k.plan, k.ls, k.rs)));
    PackedFrameLossless(x.cfg, k.plan, k.ls, k.rs);
  }

  /** The samples of n frames from first on. */
  function Recording(track: int -> Take, first: int, n: nat): seq<int>
    requires forall k :: first <= k < first + n ==> |track(k).ls| == |track(k).rs|
  {
    if n == 0 then []
    else
      Recording(track, first, n - 1)
      + Interleaved(track(first + (n - 1)).ls, track(first + (n - 1)).rs)
  }

  /** The packets of a track; anything at all where there is no frame. */
  ghost predicate Ships(x: Session, enc: Cipher, track: int -> Take, pay: int -> Packet,
                        first: int, n: nat)
    requires Supported(x.cfg)
  {
    forall k :: first <= k < first + n ==> Sendable(x.cfg, track(k)) && pay(k) == Shipped(x, enc, track(k))
  }

  lemma {:induction false} ConsecutiveSound(x: Session, enc: Cipher, track: int -> Take,
                                            pay: int -> Packet, first: nat, n: nat)
    requires Supported(x.cfg) && x.cfg.bitDepth == 16 && Inverse(enc, x.dec)
    requires Ships(x, enc, track, pay, first, n)
    ensures Sound(x, R.Payloads(Consecutive(first, n, pay))) == Recording(track, first, n)
  {
    hide Heard, Plays, Shipped, Interleaved, Inverse, Sound, Sendable, Ships, Consecutive, R.Payloads, Supported, Slice,
      Recording, FrameOf;
    OneMore(first, n, pay);
    if n > 0 {
      var k := first + (n - 1);
      LastShips(x, enc, track, pay, first, n);
      ConsecutiveSound(x, enc, track, pay, first, n - 1);
      SumsStep(x, R.Payloads(Consecutive(first, n - 1, pay)), pay(k));
      RecordingStep(track, first, n);
    } else {
      NoSound(x, track, first);
    }
  }

  lemma LastShips(x: Session, enc: Cipher, track: int -> Take, pay: int -> Packet, first: int, n: nat)
    requires Supported(x.cfg) && x.cfg.bitDepth == 16 && Inverse(enc, x.dec)
    requires n > 0 && Ships(x, enc, track, pay, first, n)
    ensures Ships(x, enc, track, pay, first, n - 1)
    ensures forall k :: first <= k < first + n ==> |track(k).ls| == |track(k).rs|
    ensures var k := first + (n - 1);
      |track(k).ls| == |track(k).rs| && Heard(x, pay(k)) == Interleaved(track(k).ls, track(k).rs)
  {
    hide Heard, Plays, Shipped, Interleaved, Inverse;
    ShippedIsHeard(x, enc, track(first + (n - 1)));
  }

  lemma RecordingStep(track: int -> Take, first: int, n: nat)
    requires forall k :: first <= k < first + n ==> |track(k).ls| == |track(k).rs|
    ensures n == 0 ==> Recording(track, first, n) == []
    ensures n > 0 ==>
      Recording(track, first, n)
      == Recording(track, first, n - 1)
         + Interleaved(track(first + (n - 1)).ls, track(first + (n - 1)).rs)
  {
  }

  lemma NoSound(x: Session, track: int -> Take, first: int)
    requires Supported(x.cfg)
    ensures Sound(x, []) == [] == Recording(track, first, 0)
  {
  }

  lemma OneMore(first: nat, n: nat, pay: int -> Packet)
    ensures n == 0 ==> R.Payloads(Consecutive(first, n, pay)) == []
    ensures n > 0 ==>
      R.Payloads(Consecutive(first, n, pay))
      == R.Payloads(Consecutive(first, n - 1, pay)) + [pay(first + (n - 1))]
  {
  }

  /** Every packet of the track arrives at least once, and nothing beyond it. */
  ghost predicate Complete(a: seq<int>, n: nat)
    requires |a| > 0 && a[0] >= 0
  {
    forall k: nat :: k in Seen(a, |a|) <==> a[0] <= k < a[0] + n
  }

  /** End to end: a track of 16-bit stereo frames, each encoded with any legal
      choice of parameters, encrypted with any block cipher and sent as RTP, comes
      out of the packet path sample for sample, when every packet arrives in some
      orderly order, any number of times, straight or as a resend. */
  lemma SessionIsLossless(x: Session, enc: Cipher, track: int -> Take, pay: int -> Packet, n: nat,
                          st: State, pkts: seq<seq<byte>>, a: seq<int>)
    requires Supported(x.cfg) && x.cfg.bitDepth == 16 && Inverse(enc, x.dec)
    requires Inv(st) && !st.started && Orderly(a) && Carries(pkts, a, pay)
    requires Complete(a, n) && Ships(x, enc, track, pay, a[0], n)
    ensures SoundOf(x, ReceivedAll(st, pkts, |pkts|)) == Recording(track, a[0], n)
    ensures ReceivedAll(st, pkts, |pkts|).held == map[]
  {
    hide Inv, Inverse, BoundedDisorder, W.NearFrontier, Carries, Run, Seen, Ships, Sound, ReceivedAll, R.Payloads,
      Recording, Sorted, IsFrontier;
    ReceivedIsRun(st, pkts, a, pay);
    RepairDespiteDuplicates(st, a, pay, n);
    ConsecutiveSound(x, enc, track, pay, a[0], n);
  }

  lemma RepairDespiteDuplicates(st: State, a: seq<int>, pay: int -> Packet, n: nat)
    requires Inv(st) && !st.started && Orderly(a) && Complete(a, n)
    ensures Run(st, a, pay, |a|).emitted == Consecutive(a[0], n, pay)
    ensures Run(st, a, pay, |a|).held == map[]
  {
    hide Inv, BoundedDisorder, W.NearFrontier, Run, Seen, Sorted, IsFrontier, Above;
    var r, s := Run(st, a, pay, |a|), Seen(a, |a|);
    EmitsArrivedBelowFrontier(st, a, pay, |a|);
    FrontierOfAll(s, a[0], n, r.next);
    SortedFull(s, a[0], n, pay);
    NothingAbove(s, a[0], n);
  }

  // ---- undisturbed delivery --------------------------------------------------------------------

  function Upwards(first: nat, n: nat): (a: seq<int>)
    ensures |a| == n
  {
    seq(n, i => first + i)
  }

  lemma UpwardsSeen(first: nat, n: nat, t: nat)
    requires t <= n
    ensures forall k: nat :: k in Seen(Upwards(first, n), t) <==> first <= k < first + t
  {
    var a := Upwards(first, n);
    forall k: nat | first <= k < first + t ensures k in Seen(a, t) {
      assert a[k - first] == k;
    }
  }

  /** Consecutive packets in order are orderly and complete. */
  lemma InOrderIsOrderly(first: nat, n: nat)
    requires first < SEQ_SPACE && n > 0
    ensures Orderly(Upwards(first, n)) && Complete(Upwards(first, n), n)
  {
    hide Seen, IsFrontier;
    var a := Upwards(first, n);
    UpwardsSeen(first, n, n);
    forall t | 0 < t < n ensures Overtakers(a, t) == {} {
    }
    forall t, x: nat | 0 < t < n && IsFrontier(Seen(a, t), a[0], x)
      ensures x - HALF_SPACE <= a[t] < x + HALF_SPACE
    {
      UpwardsSeen(first, n, t);
      FrontierOfAll(Seen(a, t), first, t, x);
    }
  }

  /** One packet after another from first on, each straight or in a wrapper. */
  ghost predicate InOrder(pkts: seq<seq<byte>>, first: nat, pay: int -> Packet)
  {
    forall i :: 0 <= i < |pkts| ==> Classify(pkts[i]) == Audio(R.Wire(first + i), pay(first + i))
  }

  lemma {:induction false} InOrderCarries(pkts: seq<seq<byte>>, first: nat, pay: int -> Packet)
    requires InOrder(pkts, first, pay)
    ensures Carries(pkts, Upwards(first, |pkts|), pay)
    decreases |pkts|
  {
    hide Classify, R.Wire;
    if |pkts| > 0 {
      var n := |pkts| - 1;
      InOrderCarries(pkts[..n], first, pay);
      assert Upwards(first, n + 1) == Upwards(first, n) + [first + n];
      assert W.Wires(Upwards(first, n + 1)) == W.Wires(Upwards(first, n)) + [R.Wire(first + n)];
      assert W.Pays(Upwards(first, n + 1), pay) == W.Pays(Upwards(first, n), pay) + [pay(first + n)];
    }
  }

  /** A track of any length sent and received in order, wrapping round the 16-bit
      sequence numbers as often as it may, is heard as it was recorded. */
  lemma UndisturbedIsLossless(x: Session, enc: Cipher, track: int -> Take, pay: int -> Packet, first: nat,
                              st: State, pkts: seq<seq<byte>>)
    requires Supported(x.cfg) && x.cfg.bitDepth == 16 && Inverse(enc, x.dec)
    requires Inv(st) && !st.started && first < SEQ_SPACE && |pkts| > 0
    requires InOrder(pkts, first, pay) && Ships(x, enc, track, pay, first, |pkts|)
    ensures SoundOf(x, ReceivedAll(st, pkts, |pkts|)) == Recording(track, first, |pkts|)
  {
    hide Inv, Inverse, Carries, Orderly, Complete, Ships, ReceivedAll, SoundOf, InOrder, Recording;
    InOrderIsOrderly(first, |pkts|);
    InOrderCarries(pkts, first, pay);
    SessionIsLossless(x, enc, track, pay, |pkts|, st, pkts, Upwards(first, |pkts|));
  }
}
