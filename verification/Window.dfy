/** The reorder window against the reserve: what a gap in the packets does to what
    StreamPCM sends. A packet lasts 352 sample periods, 44100 to the second, and a
    chunk of the writer 4410. */
module Window {
  import opened Words
  import opened Sequencing
  import P = Pacer
  import Q = Rings

  const PACKET := 352
  const CHUNK := 4410
  const CHUNK_LEN := CHUNK * P.CHANNELS
  const RESERVE := P.RESERVE_FRAMES * P.CHANNELS

  /** A chunk's duration in nanoseconds. */
  const CHUNK_NS := CHUNK * P.SECOND / P.SAMPLE_RATE

  /** A packet's duration, in the unit of 1 / 44100 nanoseconds. */
  const PACKET_TICKS := PACKET * P.SECOND

  // ---- the resequencer during a gap ------------------------------------------------

  /** The machine after the packets next .. next + g - 1 are lost and the j packets
      that follow them arrive in order. */
  ghost function AfterGap(st: State, g: nat, pay: int -> Packet, j: nat): (r: State)
    requires Inv(st) && st.started
    ensures Inv(r) && r.started
  {
    if j == 0 then st
    else
      var i := st.next + g + (j - 1);
      PushKeeps(AfterGap(st, g, pay, j - 1), i, pay(i));
      Push(AfterGap(st, g, pay, j - 1), i, pay(i))
  }

  ghost predicate HoldsRun(held: map<nat, Packet>, from: nat, n: nat)
  {
    |held| == n && forall k :: k in held <==> from <= k < from + n
  }

  lemma HoldRun(st: State, from: nat, n: nat, p: Packet)
    requires HoldsRun(st.held, from, n) && st.next <= from + n
    ensures var h := Hold(st, from + n, p);
      HoldsRun(h.held, from, n + 1) && h.next == st.next && h.emitted == st.emitted && h.lost == st.lost
  {
    var h := Hold(st, from + n, p);
    if st.next < from + n { AskOnlyAsks(st.(reordered := st.reordered + 1), from + n); }
    HeldSize(st.held, from + n, p);
  }

  lemma RunShrinks(st: State, n: nat)
    requires HoldsRun(st.held, st.next, n) && n > 0
    ensures st.next in st.held
    ensures var d := DrainOne(st);
      && HoldsRun(d.held, d.next, n - 1) && d.next == st.next + 1 && d.lost == st.lost
      && |d.emitted| == |st.emitted| + 1
  {
    ShrinksBy(st.held, st.next);
  }

  /** Draining a whole run. */
  lemma {:induction false} DrainRun(st: State, n: nat)
    requires HoldsRun(st.held, st.next, n)
    ensures var r := Drain(st);
      r.next == st.next + n && |r.emitted| == |st.emitted| + n && |r.held| == 0 && r.lost == st.lost
    decreases n
  {
    hide Drain, DrainOne;
    DrainSteps(st);
    if n > 0 {
      RunShrinks(st, n);
      DrainRun(DrainOne(st), n - 1);
    }
  }

  lemma PushOnto(r: State, from: nat, n: nat, p: Packet)
    requires Inv(r) && r.started && r.next < from && HoldsRun(r.held, from, n) && n < SEQ_WINDOW
    ensures AllFrom(r.held, r.next)
    ensures var s := Push(r, from + n, p);
      s.next == r.next && s.emitted == r.emitted && s.lost == r.lost && HoldsRun(s.held, from, n + 1)
  {
    hide Hold, Drain;
    var b := r.(pushes := r.pushes + 1);
    HoldRun(b, from, n, p);
    DrainSteps(Hold(b, from + n, p));
  }

  /** While at most 64 packets are held nothing comes out. */
  lemma {:induction false} GapBlocks(st: State, g: nat, pay: int -> Packet, j: nat)
    requires Inv(st) && st.started && |st.held| == 0 && 1 <= g && j <= SEQ_WINDOW
    ensures var r := AfterGap(st, g, pay, j);
      r.next == st.next && r.emitted == st.emitted && r.lost == st.lost && HoldsRun(r.held, st.next + g, j)
  {
    hide Inv, Push, HoldsRun;
    if j == 0 {
      EmptyRun(st, st.next + g);
    } else {
      GapBlocks(st, g, pay, j - 1);
      PushOnto(AfterGap(st, g, pay, j - 1), st.next + g, j - 1, pay(st.next + g + (j - 1)));
    }
  }

  lemma EmptyRun(st: State, from: nat)
    requires |st.held| == 0
    ensures HoldsRun(st.held, from, 0)
  {
  }

  /** The 65th packet after the gap ends the wait: the gap is counted lost and all
      65 come out at once. */
  lemma GapReleases(st: State, g: nat, pay: int -> Packet)
    requires Inv(st) && st.started && |st.held| == 0 && 1 <= g
    ensures var r := AfterGap(st, g, pay, SEQ_WINDOW + 1);
      && r.next == st.next + g + SEQ_WINDOW + 1 && |r.held| == 0
      && |r.emitted| == |st.emitted| + SEQ_WINDOW + 1 && r.lost == st.lost + g
  {
    hide Inv, Push, HoldsRun;
    GapBlocks(st, g, pay, SEQ_WINDOW);
    PushReleases(AfterGap(st, g, pay, SEQ_WINDOW), st.next + g, pay(st.next + g + SEQ_WINDOW));
  }

  lemma PushReleases(r: State, from: nat, p: Packet)
    requires Inv(r) && r.started && r.next < from && HoldsRun(r.held, from, SEQ_WINDOW)
    ensures AllFrom(r.held, r.next)
    ensures var s := Push(r, from + SEQ_WINDOW, p);
      && s.next == from + SEQ_WINDOW + 1 && |s.held| == 0
      && |s.emitted| == |r.emitted| + SEQ_WINDOW + 1 && s.lost == r.lost + (from - r.next)
  {
    hide Hold, Release, HoldsRun;
    var b := r.(pushes := r.pushes + 1);
    HoldRun(b, from, SEQ_WINDOW, p);
    ReleaseRun(Hold(b, from + SEQ_WINDOW, p), from);
  }

  /** An overfull window whose packets are all consecutive empties in one go. */
  lemma ReleaseRun(h: State, from: nat)
    requires h.next < from && HoldsRun(h.held, from, SEQ_WINDOW + 1)
    ensures AllFrom(h.held, h.next)
    ensures var s := Release(h);
      && s.next == from + SEQ_WINDOW + 1 && |s.held| == 0
      && |s.emitted| == |h.emitted| + SEQ_WINDOW + 1 && s.lost == h.lost + (from - h.next)
  {
    hide Drain;
    DrainSteps(h);
    SkipToRun(h, from);
    DrainRun(Skip(h), SEQ_WINDOW + 1);
  }

  lemma SkipToRun(h: State, from: nat)
    requires h.next < from && HoldsRun(h.held, from, SEQ_WINDOW + 1)
    ensures AllFrom(h.held, h.next)
    ensures var s := Skip(h);
      && s.next == from && s.lost == h.lost + (from - h.next) && s.emitted == h.emitted
      && HoldsRun(s.held, from, SEQ_WINDOW + 1)
  {
    assert IsLeast(h.held.Keys, from);
  }

  // ---- what reaches the ring ---------------------------------------------------------

  /** How many packets have arrived dt nanoseconds after the last one before the
      gap, at one packet every 352 sample periods with the first g of them lost. */
  function ArrivedBy(dt: nat, g: nat): nat
  {
    Max(0, dt * P.SAMPLE_RATE / PACKET_TICKS - g)
  }

  /** Less than g + 65 packet intervals have passed. */
  predicate StillWaiting(dt: int, g: nat)
  {
    dt * P.SAMPLE_RATE < (g + 65) * PACKET_TICKS
  }

  /** The samples the resequencer has let through by then. */
  ghost function Supplied(st: State, g: nat, pay: int -> Packet, dt: nat): int
    requires Inv(st) && st.started
  {
    (|AfterGap(st, g, pay, ArrivedBy(dt, g)).emitted| - |st.emitted|) * PACKET * P.CHANNELS
  }

  lemma NothingSupplied(st: State, g: nat, pay: int -> Packet, dt: nat)
    requires Inv(st) && st.started && |st.held| == 0 && 1 <= g && StillWaiting(dt, g)
    ensures Supplied(st, g, pay, dt) == 0
  {
    hide Inv;
    GapBlocks(st, g, pay, ArrivedBy(dt, g));
  }

  /** The release comes exactly g + 65 packet intervals after the gap opened. */
  lemma SuppliedAtRelease(st: State, g: nat, pay: int -> Packet, dt: nat)
    requires Inv(st) && st.started && |st.held| == 0 && 1 <= g
    requires !StillWaiting(dt, g) && dt * P.SAMPLE_RATE < (g + 66) * PACKET_TICKS
    ensures Supplied(st, g, pay, dt) == 65 * PACKET * P.CHANNELS
  {
    hide Inv;
    DivModUnique(g + 65, PACKET_TICKS, dt * P.SAMPLE_RATE - (g + 65) * PACKET_TICKS);
    GapReleases(st, g, pay);
  }

  // ---- the writer meanwhile --------------------------------------------------------------

  /** From chunk m on the writer is prompt: it takes each chunk by its deadline, and
      no write falls a whole chunk behind. */
  ghost predicate Prompt(trace: seq<P.Chunk>, m: nat)
  {
    forall k :: m <= k < |trace| ==>
      trace[k].at <= trace[k].due && trace[k].seen - trace[k].due <= CHUNK_NS
  }

  /** A gap of g packets opens at instant t0, when base samples have been written to
      the ring; from chunk m on, which is taken at or after t0, what has been
      written is what the resequencer let through. */
  ghost predicate Fed(trace: seq<P.Chunk>, m: nat, st: State, g: nat, pay: int -> Packet, t0: int, base: nat)
    requires Inv(st) && st.started
  {
    forall k :: m <= k < |trace| ==>
      trace[k].at >= t0 && trace[k].supplied == base + Supplied(st, g, pay, trace[k].at - t0)
  }

  /** What StreamPCM promises of its trace, for the chunk length in use. */
  ghost predicate IsTrace(trace: seq<P.Chunk>)
  {
    P.Paced(trace, CHUNK_LEN, RESERVE, CHUNK_NS)
  }

  /** A gap as the writer meets it: chunk m is the first one taken after it opens,
      with at least the reserve in the ring. */
  ghost predicate MeetsGap(trace: seq<P.Chunk>, m: nat, st: State, g: nat, pay: int -> Packet,
                           t0: int, base: nat)
  {
    && Inv(st) && st.started && |st.held| == 0
    && m < |trace| && Prompt(trace, m) && Fed(trace, m, st, g, pay, t0, base)
    && P.Level(trace[m]) >= RESERVE
  }

  /** Chunk k is taken before the resequencer gives the gap up. */
  predicate TakenWaiting(trace: seq<P.Chunk>, m: nat, k: nat, t0: int, g: nat)
  {
    m <= k < |trace| && forall i :: m <= i <= k ==> StillWaiting(trace[i].at - t0, g)
  }

  lemma WaitingAt(trace: seq<P.Chunk>, m: nat, k: nat, t0: int, g: nat)
    requires TakenWaiting(trace, m, k, t0, g)
    ensures m <= k < |trace| && StillWaiting(trace[k].at - t0, g)
    ensures m < k ==> TakenWaiting(trace, m, k - 1, t0, g)
  {
  }

  // Between two chunks taken while waiting the ring neither gains nor loses.
  lemma NothingBetween(trace: seq<P.Chunk>, m: nat, st: State, g: nat, pay: int -> Packet,
                       t0: int, base: nat, k: nat)
    requires IsTrace(trace) && MeetsGap(trace, m, st, g, pay, t0, base) && g >= 1
    requires m < k && TakenWaiting(trace, m, k, t0, g)
    ensures P.Level(trace[k]) == P.Left(trace[k - 1]) && trace[k].due == trace[k - 1].due + CHUNK_NS
  {
    hide Inv, Supplied;
    NothingSupplied(st, g, pay, trace[k - 1].at - t0);
    NothingSupplied(st, g, pay, trace[k].at - t0);
    assert P.Follows(trace[k - 1], trace[k], CHUNK_NS);
  }

  /** Whoever starts with the reserve is at most q chunks below it once q chunk
      durations have passed; before the release that is never too little. */
  lemma {:induction false} ReserveLasts(trace: seq<P.Chunk>, m: nat, st: State, g: nat, pay: int -> Packet,
                                        t0: int, base: nat, k: nat) returns (q: nat)
    requires IsTrace(trace) && MeetsGap(trace, m, st, g, pay, t0, base) && 1 <= g <= 22
    requires TakenWaiting(trace, m, k, t0, g)
    ensures trace[k].got == CHUNK_LEN
    ensures q * CHUNK_NS <= trace[k].due - t0 && P.Level(trace[k]) >= RESERVE - q * CHUNK_LEN
    decreases k
  {
    hide Inv, Supplied, MeetsGap, IsTrace, TakenWaiting;
    WaitingAt(trace, m, k, t0, g);
    ChunkFits(trace, m, st, g, pay, t0, base, k);
    if k == m {
      q := 0;
    } else {
      var p := ReserveLasts(trace, m, st, g, pay, t0, base, k - 1);
      ChunkFits(trace, m, st, g, pay, t0, base, k - 1);
      NothingBetween(trace, m, st, g, pay, t0, base, k);
      q := if trace[k - 1].at < trace[k - 1].due then 0 else p + 1;
    }
  }

  lemma ChunkFits(trace: seq<P.Chunk>, m: nat, st: State, g: nat, pay: int -> Packet,
                  t0: int, base: nat, k: nat)
    requires IsTrace(trace) && MeetsGap(trace, m, st, g, pay, t0, base) && m <= k < |trace|
    ensures var c := trace[k];
      && |c.pcm| == CHUNK_LEN && c.got == Min(CHUNK_LEN, P.Level(c))
      && (c.at < c.due ==> P.Level(c) >= CHUNK_LEN + RESERVE)
      && t0 <= c.at <= c.due && P.Level(trace[m]) >= RESERVE
  {
    hide Inv, Supplied;
    assert P.WellSent(trace[k], CHUNK_LEN, RESERVE);
  }

  /** Safety of the constants: with the reserve in the ring when a gap of up to 22
      packets opens, no chunk is padded before the resequencer gives the gap up. */
  lemma NoPadBeforeRelease(trace: seq<P.Chunk>, m: nat, st: State, g: nat, pay: int -> Packet,
                           t0: int, base: nat, k: nat)
    requires IsTrace(trace) && MeetsGap(trace, m, st, g, pay, t0, base) && 1 <= g <= 22
    requires TakenWaiting(trace, m, k, t0, g)
    ensures !P.Padded(trace[k])
  {
    hide Inv, MeetsGap;
    var q := ReserveLasts(trace, m, st, g, pay, t0, base, k);
    ChunkFits(trace, m, st, g, pay, t0, base, k);
  }

  /** Over this trace a gap of g packets never pads while it is waited for. */
  ghost predicate SafeOn(trace: seq<P.Chunk>, g: nat)
  {
    forall st: State, pay: int -> Packet, m: nat, t0: int, base: nat, k: nat ::
      MeetsGap(trace, m, st, g, pay, t0, base) && TakenWaiting(trace, m, k, t0, g) ==> !P.Padded(trace[k])
  }

  lemma SafeMeans(trace: seq<P.Chunk>, g: nat, st: State, pay: int -> Packet, m: nat, t0: int, base: nat, k: nat)
    requires SafeOn(trace, g) && MeetsGap(trace, m, st, g, pay, t0, base) && TakenWaiting(trace, m, k, t0, g)
    ensures !P.Padded(trace[k])
  {
    hide MeetsGap, TakenWaiting;
  }

  lemma SmallGapsAreSafe(trace: seq<P.Chunk>, g: nat)
    requires IsTrace(trace) && 1 <= g <= 22
    ensures SafeOn(trace, g)
  {
    hide MeetsGap, IsTrace;
    forall st: State, pay: int -> Packet, m: nat, t0: int, base: nat, k: nat |
      MeetsGap(trace, m, st, g, pay, t0, base) && TakenWaiting(trace, m, k, t0, g)
      ensures !P.Padded(trace[k])
    {
      NoPadBeforeRelease(trace, m, st, g, pay, t0, base, k);
    }
  }

  /** The same of the writer itself: whatever the environment does, the trace of
      StreamPCM is safe for every gap of up to 22 packets. */
  method StreamIsSafe(w: P.World) returns (ghost trace: seq<P.Chunk>)
    requires w.Valid()
    modifies w, w.ring, w.ring.buf
    ensures w.Valid() && IsTrace(trace) && forall g: nat :: 1 <= g <= 22 ==> SafeOn(trace, g)
  {
    hide P.Paced, P.AllSourced, P.Quiet, Q.Agrees, SafeOn;
    ghost var startup, unsent, start, fillTimes;
    var frames;
    trace, startup, unsent, frames, start, fillTimes := w.StreamPCM(CHUNK);
    assert CHUNK_NS == CHUNK * P.SECOND / P.SAMPLE_RATE;
    forall g: nat | 1 <= g <= 22 ensures SafeOn(trace, g) {
      SmallGapsAreSafe(trace, g);
    }
  }

  // ---- exactly how long a gap the constants cover ----------------------------------------

  /** No trace ever pads while a gap of g packets is waited for. */
  ghost predicate Safe(g: nat)
  {
    forall trace: seq<P.Chunk> :: IsTrace(trace) ==> SafeOn(trace, g)
  }

  /** The first eight chunks after an idle world is left with the reserve: each is
      taken when due, and the eighth finds nothing. */
  ghost predicate Starves(trace: seq<P.Chunk>, start: int)
  {
    && |trace| == 8
    && forall k :: 0 <= k < 8 ==>
         var c := trace[k];
         && c.due == c.at == c.seen == start + (k + 1) * CHUNK_NS && c.supplied == RESERVE
         && c.from == k * CHUNK_LEN
  }

  /** If the last packet came as the first chunk was taken, eight deadlines pass
      within 23 + 65 packet intervals, and the reserve is seven chunks. */
  lemma StarvingPads(trace: seq<P.Chunk>, start: int, st: State, g: nat, pay: int -> Packet)
    requires IsTrace(trace) && Starves(trace, start)
    requires Inv(st) && st.started && |st.held| == 0 && g >= 23
    ensures |trace| == 8 && MeetsGap(trace, 0, st, g, pay, trace[0].at, RESERVE)
    ensures TakenWaiting(trace, 0, 7, trace[0].at, g) && P.Padded(trace[7])
  {
    hide Inv, Supplied;
    var t0 := trace[0].at;
    forall k | 0 <= k < 8
      ensures trace[k].at - t0 == k * CHUNK_NS && StillWaiting(trace[k].at - t0, g)
      ensures trace[k].supplied == RESERVE + Supplied(st, g, pay, trace[k].at - t0)
    {
      NothingSupplied(st, g, pay, k * CHUNK_NS);
    }
    assert P.WellSent(trace[7], CHUNK_LEN, RESERVE);
  }

  lemma StarvingIsUnsafe(trace: seq<P.Chunk>, start: int, g: nat)
    requires IsTrace(trace) && Starves(trace, start) && g >= 23
    ensures !SafeOn(trace, g)
  {
    hide IsTrace, Starves, MeetsGap, TakenWaiting, SafeOn;
    var st := State(true, 0, 0, map[], [], false, false, 0, [], 0, 0, 0, 0, 0);
    var pay := (i: int) => [];
    StarvingPads(trace, start, st, g, pay);
    if SafeOn(trace, g) { SafeMeans(trace, g, st, pay, 0, trace[0].at, RESERVE, 7); }
  }

  /** A trace that starves, sample by sample. */
  function StarvedChunk(k: nat): P.Chunk
  {
    P.Chunk((k + 1) * CHUNK_NS, (k + 1) * CHUNK_NS, (k + 1) * CHUNK_NS, (k + 1) * CHUNK_NS,
            seq(CHUNK_LEN, _ => 0), k * CHUNK_LEN, RESERVE, if k < 7 then CHUNK_LEN else 0)
  }

  lemma StarvedTrace() returns (trace: seq<P.Chunk>)
    ensures IsTrace(trace) && Starves(trace, 0)
  {
    trace := seq(8, k requires 0 <= k < 8 => StarvedChunk(k));
    forall k | 0 <= k < 8 ensures P.WellSent(trace[k], CHUNK_LEN, RESERVE) {
    }
    forall k | 0 < k < 8 ensures P.Follows(trace[k - 1], trace[k], CHUNK_NS) {
    }
  }

  /** The window fits the reserve for gaps of at most 22 packets and no more. */
  lemma SafeExactly(g: nat)
    requires g >= 1
    ensures Safe(g) <==> g <= 22
  {
    hide SafeOn, IsTrace, Starves;
    if g <= 22 {
      forall trace: seq<P.Chunk> | IsTrace(trace) ensures SafeOn(trace, g) { SmallGapsAreSafe(trace, g); }
    } else {
      var trace := StarvedTrace();
      StarvingIsUnsafe(trace, 0, g);
    }
  }

  /** And the writer itself does so: left alone with exactly the reserve, it sends
      a trace that no gap of 23 packets or more is safe on. */
  method StreamStarves(start: int) returns (w: P.World, ghost trace: seq<P.Chunk>)
    ensures w.pace.Idle? && w.Valid() && IsTrace(trace) && Starves(trace, start)
    ensures forall g: nat :: g >= 23 ==> !SafeOn(trace, g)
  {
    hide P.Paced, P.AllSourced, Q.Agrees, SafeOn, Q.LastOf;
    var ring := new Q.Ring(2 * P.SAMPLE_RATE * P.CHANNELS);
    ring.Write(seq(RESERVE, _ => 0));
    HoldsAll(RESERVE, ring.buf.Length);
    w := new P.World(ring, start, 8, P.Idle);
    ghost var o := w.q;
    ghost var startup, unsent, begun, fillTimes;
    var frames;
    trace, startup, unsent, frames, begun, fillTimes := w.StreamPCM(CHUNK);
    assert CHUNK_NS == CHUNK * P.SECOND / P.SAMPLE_RATE;
    QuietStarves(trace, o, begun);
    forall g: nat | g >= 23 ensures !SafeOn(trace, g) {
      StarvingIsUnsafe(trace, start, g);
    }
  }

  lemma HoldsAll(n: nat, cap: nat)
    requires n <= cap
    ensures |Q.LastOf([] + seq(n, _ => 0), cap)| == n
  {
  }

  lemma QuietStarves(trace: seq<P.Chunk>, o: Q.Queue, start: int)
    requires IsTrace(trace) && |trace| == 8 && trace[0].due == start + CHUNK_NS
    requires P.Quiet(trace, o, start, CHUNK_LEN + RESERVE) && |o.written| == RESERVE && o.head == 0
    ensures Starves(trace, start)
  {
    forall k | 0 <= k < 8
      ensures var c := trace[k];
        && c.due == c.at == c.seen == start + (k + 1) * CHUNK_NS && c.supplied == RESERVE
        && c.from == k * CHUNK_LEN
    {
      StarvesAt(trace, o, start, k);
    }
  }

  lemma {:induction false} StarvesAt(trace: seq<P.Chunk>, o: Q.Queue, start: int, k: nat)
    requires IsTrace(trace) && |trace| == 8 && trace[0].due == start + CHUNK_NS && k < 8
    requires P.Quiet(trace, o, start, CHUNK_LEN + RESERVE) && |o.written| == RESERVE && o.head == 0
    ensures var c := trace[k];
      && c.due == c.at == c.seen == start + (k + 1) * CHUNK_NS && c.supplied == RESERVE
      && c.from == k * CHUNK_LEN && c.got == (if k < 7 then CHUNK_LEN else 0)
  {
    assert P.WellSent(trace[k], CHUNK_LEN, RESERVE);
    if k == 0 {
      assert P.QuietChunk(trace[0], start, 0, RESERVE, CHUNK_LEN + RESERVE);
    } else {
      StarvesAt(trace, o, start, k - 1);
      assert P.Follows(trace[k - 1], trace[k], CHUNK_NS);
      assert P.QuietChunk(trace[k], trace[k - 1].at, k * CHUNK_LEN, RESERVE, CHUNK_LEN + RESERVE);
    }
  }
}
