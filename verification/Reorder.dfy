/** The resequencer object of internal/raop/reorder.go. It sees only 16-bit
    sequence numbers, compared as in section 3.2 of RFC 1982, and keeps a ghost
    copy of the unbounded machine that it simulates. */
module Reorder {
  import opened Words
  import opened Sequencing


  // ---- 16-bit positions ----------------------------------------------------------

  function Wire(k: int): (s: nat)
    ensures s < SEQ_SPACE
  {
    k % SEQ_SPACE
  }

  /** ahead: `int16(a - b) >= 0`, so that b is ahead of itself. */
  predicate Ahead(a: nat, b: nat)
  {
    S16(a - b) as int >= 0
  }

  /** The index nearest to nxt with this sequence number. */
  function Unwrap(nxt: nat, s: nat): int
  {
    nxt + S16(s - nxt) as int
  }

  /** Unwrapping picks the one index within half the sequence space. */
  lemma UnwrapWire(nxt: nat, k: int)
    requires nxt - HALF_SPACE <= k < nxt + HALF_SPACE
    ensures Unwrap(nxt, Wire(k)) == k
  {
  }

  lemma WireUnwrap(nxt: nat, s: nat)
    requires s < SEQ_SPACE
    ensures Wire(Unwrap(nxt, s)) == s
    ensures nxt - HALF_SPACE <= Unwrap(nxt, s) < nxt + HALF_SPACE
  {
  }

  /** Within half the space an index is recovered from its 16 bits, and no other is. */
  lemma UnwrapExactly(nxt: nat, k: int)
    ensures Unwrap(nxt, Wire(k)) == k <==> nxt - HALF_SPACE <= k < nxt + HALF_SPACE
  {
    if nxt - HALF_SPACE <= k < nxt + HALF_SPACE {
      UnwrapWire(nxt, k);
    } else {
      WireUnwrap(nxt, Wire(k));
    }
  }

  /** The 16-bit comparison agrees with the unbounded one. */
  lemma AheadMeans(nxt: nat, s: nat)
    ensures Ahead(s, Wire(nxt)) <==> Unwrap(nxt, s) >= nxt
  {
  }

  lemma AheadWithin(nxt: nat, a: nat, b: nat)
    requires a < SEQ_SPACE && b < SEQ_SPACE
    requires nxt <= Unwrap(nxt, a) && nxt <= Unwrap(nxt, b)
    ensures Ahead(a, b) <==> Unwrap(nxt, a) >= Unwrap(nxt, b)
  {
    var x, y := Unwrap(nxt, a), Unwrap(nxt, b);
    var i, j := (a - nxt + HALF_SPACE) / SEQ_SPACE, (b - nxt + HALF_SPACE) / SEQ_SPACE;
    assert x == a - SEQ_SPACE * i && y == b - SEQ_SPACE * j;
    DivModUnique(i - j, SEQ_SPACE, x - y + HALF_SPACE);
  }

  lemma WireNext(nxt: nat)
    ensures Wire(nxt + 1) == (Wire(nxt) + 1) % SEQ_SPACE
  {
  }

  // ---- the held packets ------------------------------------------------------------

  ghost predicate HeldIsPending(pending: map<nat, Packet>, held: map<nat, Packet>, nxt: nat)
  {
    forall k :: k in held ==>
      nxt <= k < nxt + HALF_SPACE && Wire(k) in pending && pending[Wire(k)] == held[k]
  }

  ghost predicate PendingIsHeld(pending: map<nat, Packet>, held: map<nat, Packet>, nxt: nat)
  {
    forall s :: s in pending ==> s < SEQ_SPACE && Unwrap(nxt, s) >= nxt && Unwrap(nxt, s) in held
  }

  /** pending is held seen through 16-bit keys. */
  ghost predicate Couples(pending: map<nat, Packet>, held: map<nat, Packet>, nxt: nat)
  {
    |pending| == |held| && HeldIsPending(pending, held, nxt) && PendingIsHeld(pending, held, nxt)
  }

  lemma CoupleInsert(pending: map<nat, Packet>, held: map<nat, Packet>, nxt: nat, s: nat, p: Packet)
    requires Couples(pending, held, nxt) && s < SEQ_SPACE && Unwrap(nxt, s) >= nxt
    ensures Couples(pending[s := p], held[Unwrap(nxt, s) := p], nxt)
    ensures s in pending <==> Unwrap(nxt, s) in held
  {
    hide Unwrap, Wire;
    var i: nat := Unwrap(nxt, s);
    WireUnwrap(nxt, s);
    SameGrowth(pending, held, s, i, p);
    forall k | k in held ensures Unwrap(nxt, Wire(k)) == k { UnwrapWire(nxt, k); }
    forall t | t in pending ensures Wire(Unwrap(nxt, t)) == t { WireUnwrap(nxt, t); }
  }

  lemma SameGrowth(a: map<nat, Packet>, b: map<nat, Packet>, s: nat, i: nat, p: Packet)
    requires |a| == |b| && (s in a <==> i in b)
    ensures |a[s := p]| == |b[i := p]|
  {
    HeldSize(a, s, p);
    HeldSize(b, i, p);
  }

  lemma CoupleRemove(pending: map<nat, Packet>, held: map<nat, Packet>, nxt: nat)
    requires Couples(pending, held, nxt)
    ensures Wire(nxt) in pending <==> nxt in held
    ensures nxt in held ==> pending[Wire(nxt)] == held[nxt]
    ensures nxt in held ==> Couples(pending - {Wire(nxt)}, held - {nxt}, nxt + 1)
  {
    hide Unwrap, Wire;
    UnwrapWire(nxt, nxt);
    if nxt in held {
      ShrinksBy(pending, Wire(nxt));
      ShrinksBy(held, nxt);
      forall k | k in held ensures Unwrap(nxt, Wire(k)) == k { UnwrapWire(nxt, k); }
      forall t | t in pending
        ensures Wire(Unwrap(nxt, t)) == t
        ensures Unwrap(nxt, t) != nxt ==> Unwrap(nxt + 1, t) == Unwrap(nxt, t)
      {
        WireUnwrap(nxt, t);
        if Unwrap(nxt, t) != nxt { UnwrapWire(nxt + 1, Unwrap(nxt, t)); }
      }
    }
  }

  lemma CoupleAdvance(pending: map<nat, Packet>, held: map<nat, Packet>, nxt: nat, best: nat)
    requires Couples(pending, held, nxt) && AllFrom(held, best) && nxt <= best
    ensures Couples(pending, held, best)
  {
    hide PendingIsHeld, Wire;
    PendingAdvances(pending, held, nxt, best);
  }

  lemma PendingAdvances(pending: map<nat, Packet>, held: map<nat, Packet>, nxt: nat, best: nat)
    requires PendingIsHeld(pending, held, nxt) && AllFrom(held, best) && nxt <= best
    ensures PendingIsHeld(pending, held, best)
  {
    hide Unwrap, Wire;
    forall s | s in pending ensures Unwrap(best, s) == Unwrap(nxt, s) {
      WireUnwrap(nxt, s);
      UnwrapWire(best, Unwrap(nxt, s));
    }
  }

  lemma PendingAhead(pending: map<nat, Packet>, held: map<nat, Packet>, nxt: nat, s: nat)
    requires Couples(pending, held, nxt) && s in pending
    ensures s < SEQ_SPACE && Unwrap(nxt, s) >= nxt && AllFrom(held, nxt) && |held| == |pending|
  {
  }

  /** The held packet with the nearest 16-bit number has the least index. */
  lemma NearestIsLeast(pending: map<nat, Packet>, held: map<nat, Packet>, nxt: nat, best: nat)
    requires Couples(pending, held, nxt) && best in pending
    requires forall s :: s in pending ==> Unwrap(nxt, best) <= Unwrap(nxt, s)
    ensures IsLeast(held.Keys, Unwrap(nxt, best))
    ensures Couples(pending, held, Unwrap(nxt, best))
  {
    hide Unwrap, Wire;
    forall k | k in held ensures Unwrap(nxt, best) <= k { UnwrapWire(nxt, k); }
    CoupleAdvance(pending, held, nxt, Unwrap(nxt, best));
  }

  lemma SkipDistance(nxt: nat, best: nat)
    requires best < SEQ_SPACE && Unwrap(nxt, best) >= nxt
    ensures (best - Wire(nxt)) % SEQ_SPACE == Unwrap(nxt, best) - nxt
    ensures Wire(Unwrap(nxt, best)) == best
  {
    WireUnwrap(nxt, best);
  }

  function Payloads(e: seq<(nat, Packet)>): (r: seq<Packet>)
    ensures |r| == |e|
  {
    seq(|e|, j requires 0 <= j < |e| => e[j].1)
  }

  lemma NoPayloads(e: seq<(nat, Packet)>)
    ensures Payloads(e[|e|..]) == []
  {
  }

  lemma PayloadsGrow(was: seq<(nat, Packet)>, e: seq<(nat, Packet)>, k: nat, p: Packet)
    requires was <= e
    ensures Payloads((e + [(k, p)])[|was|..]) == Payloads(e[|was|..]) + [p]
    ensures was <= e + [(k, p)]
  {
    assert (e + [(k, p)])[|was|..] == e[|was|..] + [(k, p)];
  }

  lemma PayloadsJoin(a: seq<(nat, Packet)>, b: seq<(nat, Packet)>, c: seq<(nat, Packet)>)
    requires a <= b <= c
    ensures Payloads(c[|a|..]) == Payloads(b[|a|..]) + Payloads(c[|b|..])
  {
    assert c[|a|..] == b[|a|..] + c[|b|..];
  }

  /** The machine before a session's first packet. */
  function Blank(callback: bool, haveRequested: bool, requested: SeqNumber): State
  {
    State(false, 0, 0, map[], [], callback, haveRequested, requested, [], 0, 0, 0, 0, 0)
  }

  lemma BlankKeeps(callback: bool, haveRequested: bool, requested: SeqNumber)
    ensures Inv(Blank(callback, haveRequested, requested))
    ensures Couples(map[], map[], 0) && Wire(0) == 0 && WireCalls([]) == []
  {
  }

  /** The callback's arguments: 16-bit first positions. */
  function WireCalls(asked: seq<Request>): seq<(nat, nat)>
  {
    seq(|asked|, k requires 0 <= k < |asked| => (Wire(asked[k].first), asked[k].count))
  }

  lemma WireCallsGrow(asked: seq<Request>, r: Request)
    ensures WireCalls(asked + [r]) == WireCalls(asked) + [(Wire(r.first), r.count)]
  {
  }

  // ---- the object ------------------------------------------------------------------

  class Resequencer {
    var next: nat
    var started: bool
    var pending: map<nat, Packet>
    var requested: SeqNumber
    var haveRequested: bool
    var reordered: nat
    var lost: nat
    var late: nat

    /** Whether onMissing is set, and the calls made to it. */
    var hasCallback: bool
    var calls: seq<(nat, nat)>

    ghost var abs: State

    constructor ()
      ensures Valid() && abs == Blank(false, false, 0) && !hasCallback
    {
      hide Inv, Couples, Wire, WireCalls;
      next, started, pending := 0, false, map[];
      requested, haveRequested, reordered, lost, late := 0, false, 0, 0, 0;
      hasCallback, calls := false, [];
      abs := Blank(false, false, 0);
      BlankKeeps(false, false, 0);
    }

    ghost predicate Coupled()
      reads this
    {
      next == Wire(abs.next) && Couples(pending, abs.held, abs.next) && Shows(abs)
    }

    /** The flags, the counters and the callback's calls are those of st. */
    ghost predicate Shows(st: State)
      reads this
    {
      && started == st.started
      && hasCallback == st.callback && haveRequested == st.haveRequested && requested == st.requested
      && reordered == st.reordered && lost == st.lost && late == st.late
      && calls == WireCalls(st.asked)
    }

    /** The invariant: the simulation, and what the unbounded machine keeps. The
        held packets are 1 to 32767 ahead of next and at most 64. */
    ghost predicate Valid()
      reads this
    {
      Coupled() && Inv(abs)
    }

    lemma NextHeld()
      requires Coupled()
      ensures next in pending <==> abs.next in abs.held
      ensures next in pending ==> pending[next] == abs.held[abs.next]
      ensures |pending| == |abs.held|
    {
      hide Wire;
      CoupleRemove(pending, abs.held, abs.next);
    }

    /** One turn of drain's loop. */
    method TakeNext() returns (pkt: Packet)
      requires Coupled() && next in pending && abs.next in abs.held
      modifies this`pending, this`next, this`abs
      ensures Coupled() && abs == DrainOne(old(abs)) && |pending| == old(|pending|) - 1
      ensures pkt == old(abs).held[old(abs).next]
    {
      hide Couples, Wire, WireCalls, DrainOne;
      ghost var st := abs;
      CoupleRemove(pending, st.held, st.next);
      WireNext(st.next);
      ShrinksBy(pending, next);
      DrainOneFields(st);
      pkt := pending[next];
      pending := pending - {next};
      next := (next + 1) % SEQ_SPACE;
      abs := DrainOne(st);
    }

    /** drain: takes out the run of held packets that begins at next. */
    method DrainReady() returns (ready: seq<Packet>)
      requires Coupled()
      modifies this`pending, this`next, this`abs
      ensures Coupled() && abs == Drain(old(abs))
      ensures old(abs).emitted <= abs.emitted
      ensures ready == Payloads(abs.emitted[|old(abs).emitted|..])
    {
      hide Coupled, Drain, Payloads, DrainOne;
      ready := [];
      NoPayloads(abs.emitted);
      ghost var was := abs;
      while true
        invariant Coupled() && Drain(abs) == Drain(was)
        invariant was.emitted <= abs.emitted
        invariant ready == Payloads(abs.emitted[|was.emitted|..])
        decreases |pending|
      {
        NextHeld();
        DrainSteps(abs);
        if next !in pending {
          return;
        }
        DrainOneFields(abs);
        PayloadsGrow(was.emitted, abs.emitted, abs.next, abs.held[abs.next]);
        var pkt := TakeNext();
        ready := ready + [pkt];
      }
    }

    /** The loop of skipToNextPending: the key nearest to next, in whatever order the
        map yields them. */
    method Nearest() returns (best: nat)
      requires Coupled() && |pending| > 0
      ensures best in pending
      ensures forall s :: s in pending ==> Unwrap(abs.next, best) <= Unwrap(abs.next, s)
    {
      hide Unwrap, Wire, Ahead, Couples, WireCalls;
      best := 0;
      var first := true;
      var keys := pending.Keys;
      assert |keys| == |pending|;
      while keys != {}
        invariant keys <= pending.Keys && (first ==> keys == pending.Keys)
        invariant !first ==> best in pending
        invariant !first ==> forall s :: s in pending && s !in keys ==>
          Unwrap(abs.next, best) <= Unwrap(abs.next, s)
        decreases |keys|
      {
        var seqno :| seqno in keys;
        keys := keys - {seqno};
        AheadMeans(abs.next, seqno);
        PendingAhead(pending, abs.held, abs.next, seqno);
        if !Ahead(seqno, next) {
          assert false;
        }
        if !first {
          PendingAhead(pending, abs.held, abs.next, best);
          AheadWithin(abs.next, seqno, best);
        }
        if first || !Ahead(seqno, best) {
          best, first := seqno, false;
        }
      }
    }

    /** skipToNextPending. */
    method SkipToNextPending()
      requires Coupled() && |pending| > 0
      modifies this`lost, this`next, this`abs
      ensures AllFrom(old(abs).held, old(abs).next)
      ensures Coupled() && abs == Skip(old(abs)) && abs.emitted == old(abs).emitted
    {
      hide Unwrap, Wire, Ahead, Couples, WireCalls;
      var best := Nearest();
      ghost var st := abs;
      PendingAhead(pending, st.held, st.next, best);
      NearestIsLeast(pending, st.held, st.next, best);
      SkipDistance(st.next, best);
      lost := lost + (best - next) % SEQ_SPACE;
      next := best;
      SkipFields(st, Unwrap(st.next, best));
      abs := Skip(st);
    }

    /** requestMissing: one call for the positions from next up to seqno, unless the
        last call started there. */
    method RequestMissing(seqno: nat, ghost i: nat)
      requires Coupled() && i > abs.next && i < abs.next + HALF_SPACE && seqno == Wire(i)
      modifies this`requested, this`haveRequested, this`calls, this`abs
      ensures Coupled() && abs == Ask(old(abs), i)
    {
      hide Couples, WireCalls, Wire;
      GapCount(abs.next, i);
      ghost var asked := Ask(abs, i);
      if !hasCallback {
        return;
      }
      if haveRequested && requested == next {
        return;
      }
      var count := (seqno - next) % SEQ_SPACE;
      if count == 0 || count > SEQ_WINDOW {
        return;
      }
      WireCallsGrow(abs.asked, Request(abs.next, count));
      requested, haveRequested := next, true;
      calls := calls + [(next, count)];
      abs := asked;
    }

    /** push for a packet that is not the next one: counts it and asks for the gap. */
    method NoteGap(seqno: nat, ghost i: nat)
      requires Coupled() && abs.next < i < abs.next + HALF_SPACE && seqno == Wire(i)
      modifies this`reordered, this`requested, this`haveRequested, this`calls, this`abs
      ensures Coupled() && abs == Ask(old(abs).(reordered := old(abs).reordered + 1), i)
    {
      hide Couples, Wire, WireCalls, Ask;
      reordered := reordered + 1;
      abs := abs.(reordered := abs.reordered + 1);
      RequestMissing(seqno, i);
    }

    /** push's bookkeeping for a packet that is not late, up to the drain. */
    method HoldPacket(seqno: nat, pkt: Packet, ghost i: nat)
      requires Coupled() && abs.next <= i < abs.next + HALF_SPACE && seqno == Wire(i)
      modifies this`reordered, this`requested, this`haveRequested, this`calls, this`pending, this`abs
      ensures Coupled() && abs == Hold(old(abs), i, pkt)
    {
      hide Couples, Wire, Unwrap, WireCalls, Ask, AllFrom;
      UnwrapWire(abs.next, i);
      UnwrapWire(abs.next, abs.next);
      if seqno != next {
        AskOnlyAsks(abs.(reordered := abs.reordered + 1), i);
        NoteGap(seqno, i);
      }
      ghost var st := abs;
      SeqInRange(i);
      CoupleInsert(pending, st.held, st.next, seqno, pkt);
      pending := pending[seqno := pkt];
      abs := st.(held := st.held[i := pkt],
                 overwritten := if i in st.held then st.overwritten + 1 else st.overwritten);
    }

    /** The end of push: drain, and skip once when still blocked past the window. */
    method ReleaseReady() returns (ready: seq<Packet>)
      requires Coupled() && AllFrom(abs.held, abs.next)
      modifies this`pending, this`next, this`lost, this`abs
      ensures Coupled() && abs == Release(old(abs)) && old(abs).emitted <= abs.emitted
      ensures ready == Payloads(abs.emitted[|old(abs).emitted|..])
    {
      hide Coupled, Drain, Payloads, Skip;
      ghost var was := abs;
      ready := DrainReady();
      ghost var drained := abs;
      NextHeld();
      if |pending| > SEQ_WINDOW {
        SkipToNextPending();
        var more := DrainReady();
        PayloadsJoin(was.emitted, drained.emitted, abs.emitted);
        ready := ready + more;
      }
    }

    /** push: one arrival; what it returns is what the machine emitted for it. */
    method Push(seqno: nat, pkt: Packet) returns (ready: seq<Packet>)
      requires Valid() && seqno < SEQ_SPACE
      modifies this
      ensures Valid() && hasCallback == old(hasCallback)
      ensures var i := if old(started) then Unwrap(old(abs).next, seqno) else seqno;
        && AllFrom(old(abs).held, Begin(old(abs), i).next)
        && abs == Sequencing.Push(old(abs), i, pkt)
      ensures old(abs).emitted <= abs.emitted
      ensures ready == Payloads(abs.emitted[|old(abs).emitted|..])
    {
      hide Couples, Wire, Unwrap, Ahead, Release, Hold, Payloads, Inv, WireCalls;
      ghost var i := if started then Unwrap(abs.next, seqno) else seqno;
      ghost var was := abs;
      PushKeeps(was, i, pkt);
      if !started {
        StartsCoupled(pending, was, seqno);
        started := true;
        next := seqno;
      }
      abs := Begin(was, i);
      AheadMeans(abs.next, seqno);
      WireUnwrap(abs.next, seqno);
      if !Ahead(seqno, next) {
        late := late + 1;
        abs := abs.(late := abs.late + 1);
        NoPayloads(abs.emitted);
        return [];
      }
      HoldPacket(seqno, pkt, i);
      HoldEmitsNothing(Begin(was, i), i, pkt);
      ready := ReleaseReady();
    }

    /** Setting onMissing, or clearing it. Nothing else changes. */
    method OnMissing(installed: bool)
      requires Valid()
      modifies this`hasCallback, this`abs
      ensures Valid() && hasCallback == installed && abs == old(abs).(callback := installed)
    {
      hide Couples, Wire, WireCalls, AllFrom, EmittedWithin, Conserves;
      CallbackKeeps(abs, installed);
      hasCallback := installed;
      abs := abs.(callback := installed);
    }

    /** reset: between sessions. What was last asked about is not forgotten. */
    method Reset()
      requires Valid()
      modifies this
      ensures Valid() && abs == Blank(old(hasCallback), old(haveRequested), old(requested))
      ensures hasCallback == old(hasCallback) && calls == [] && reordered == lost == late == 0
    {
      hide Inv, Couples, Wire, WireCalls;
      started, next, pending := false, 0, map[];
      reordered, lost, late := 0, 0, 0;
      calls := [];
      abs := Blank(hasCallback, haveRequested, requested);
      BlankKeeps(hasCallback, haveRequested, requested);
    }
  }

  lemma CallbackKeeps(st: State, installed: bool)
    requires Inv(st)
    ensures Inv(st.(callback := installed))
  {
  }

  lemma SkipFields(st: State, best: nat)
    requires AllFrom(st.held, st.next) && |st.held| > 0 && IsLeast(st.held.Keys, best)
    ensures Skip(st) == st.(lost := st.lost + (best - st.next), next := best)
  {
  }

  lemma GapCount(nxt: nat, i: nat)
    requires nxt < i < nxt + HALF_SPACE
    ensures (Wire(i) - Wire(nxt)) % SEQ_SPACE == i - nxt && Wire(nxt) == nxt % SEQ_SPACE
  {
  }

  lemma SeqInRange(i: nat)
    ensures Wire(i) < SEQ_SPACE
  {
  }

  lemma HoldEmitsNothing(st: State, i: nat, p: Packet)
    requires st.next <= i
    ensures Hold(st, i, p).emitted == st.emitted && Hold(st, i, p).next == st.next
    ensures AllFrom(st.held, st.next) ==> AllFrom(Hold(st, i, p).held, st.next)
    ensures Hold(st, i, p).callback == st.callback
  {
  }

  lemma StartsCoupled(pending: map<nat, Packet>, st: State, seqno: nat)
    requires Inv(st) && !st.started && Couples(pending, st.held, st.next) && seqno < SEQ_SPACE
    ensures Couples(pending, st.held, seqno)
    ensures Wire(seqno) == seqno && Unwrap(seqno, seqno) == seqno
  {
  }
}
