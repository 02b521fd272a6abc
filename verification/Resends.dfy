/** What a resend request asks for. */
module Resends {
  import opened Sequencing
  import opened Disorder
  import R = Reorder

  /** Every packet of a request is still missing. */
  ghost predicate OnlyMissing(st: State, r: Request)
  {
    forall k :: k in st.held ==> !(r.first <= k < r.first + r.count)
  }

  /** Whether a push of index i asks for something. */
  ghost predicate Asks(st: State, i: int, p: Packet)
    requires Inv(st) && st.started
  {
    PushKeeps(st, i, p);
    |Push(st, i, p).asked| > |st.asked|
  }

  ghost function Asked(st: State, i: int, p: Packet): Request
    requires Inv(st) && st.started && Asks(st, i, p)
  {
    PushKeeps(st, i, p);
    Push(st, i, p).asked[|st.asked|]
  }

  /** A push asks exactly when it leaves a gap of at most 64 whose 16-bit start was
      not the last one asked about; a request covers missing packets only exactly
      when the arriving packet is nearer than every one held. */
  lemma RequestsExactly(st: State, i: int, p: Packet)
    requires Inv(st) && st.started
    ensures Asks(st, i, p) <==>
      && st.callback && st.next < i <= st.next + SEQ_WINDOW
      && !(st.haveRequested && st.requested == st.next % SEQ_SPACE)
    ensures Asks(st, i, p) ==>
      && Asked(st, i, p) == Request(st.next, i - st.next)
      && (OnlyMissing(st, Asked(st, i, p)) <==> st.held == map[] || i <= Least(st.held.Keys))
  {
    hide Kept, Release;
    PushKeeps(st, i, p);
    if i >= st.next {
      var b := Begin(st, i);
      ReleaseAsksNothing(Hold(b, i, p));
      if i > st.next { HeldBeyond(st, i); }
    }
  }

  lemma HeldBeyond(st: State, i: nat)
    requires Inv(st) && st.next < i
    ensures OnlyMissing(st, Request(st.next, i - st.next)) <==> st.held == map[] || i <= Least(st.held.Keys)
  {
    if st.held != map[] {
      var best := Least(st.held.Keys);
      assert best in st.held && st.next <= best;
    }
  }

  const STRAGGLERS: seq<int> := [9, 12, 11, 15, 10, 20]

  /** A request may cover a packet already held: after 9, 12, 11, 15, 10 the
      arrival of 20 asks for 13 to 19 while 15 is held. */
  lemma RequestMayCoverHeld(pay: int -> Packet)
    ensures Inv(R.Blank(true, false, 0))
    ensures var st := Run(R.Blank(true, false, 0), STRAGGLERS, pay, 5);
      && st.started && Asks(st, 20, pay(20)) && Asked(st, 20, pay(20)) == Request(13, 7)
      && 15 in st.held && !OnlyMissing(st, Asked(st, 20, pay(20)))
  {
    hide Kept, Release, Asks, Asked;
    R.BlankKeeps(true, false, 0);
    var st := Stragglers(pay);
    RequestsExactly(st, 20, pay(20));
    assert 15 in st.held;
    assert !OnlyMissing(st, Request(13, 7));
  }

  lemma Stragglers(pay: int -> Packet) returns (st: State)
    requires Inv(R.Blank(true, false, 0))
    ensures st == Run(R.Blank(true, false, 0), STRAGGLERS, pay, 5)
    ensures st.started && st.next == 13 && st.held.Keys == {15} && st.callback && st.requested == 10
  {
    hide Inv, Push;
    var s0 := R.Blank(true, false, 0);
    var s1 := Run(s0, STRAGGLERS, pay, 1);
    RunStep(s0, STRAGGLERS, pay, 0);
    PushFirst(s0, 9, pay(9));
    var s2 := Run(s0, STRAGGLERS, pay, 2);
    RunStep(s0, STRAGGLERS, pay, 1);
    PushAhead(s1, 12, pay(12));
    var s3 := Run(s0, STRAGGLERS, pay, 3);
    RunStep(s0, STRAGGLERS, pay, 2);
    PushAhead(s2, 11, pay(11));
    var s4 := Run(s0, STRAGGLERS, pay, 4);
    RunStep(s0, STRAGGLERS, pay, 3);
    PushAhead(s3, 15, pay(15));
    st := Run(s0, STRAGGLERS, pay, 5);
    RunStep(s0, STRAGGLERS, pay, 4);
    PushTen(s4, pay(10));
  }

  /** A first packet goes straight through. */
  lemma PushFirst(st: State, i: nat, p: Packet)
    requires Inv(st) && !st.started
    ensures AllFrom(st.held, Begin(st, i).next)
    ensures var r := Push(st, i, p);
      && r.next == i + 1 && r.held == map[] && r.started
      && r.callback == st.callback && r.haveRequested == st.haveRequested && r.requested == st.requested
  {
    hide Drain;
    PushKeeps(st, i, p);
    var h := Hold(Begin(st, i), i, p);
    DrainSteps(h);
    DrainSteps(DrainOne(h));
    assert h.held - {i} == map[];
  }

  /** A packet beyond a gap is held. */
  lemma PushAhead(st: State, i: nat, p: Packet)
    requires Inv(st) && st.started && st.next < i && |st.held| < SEQ_WINDOW
    ensures AllFrom(st.held, Begin(st, i).next)
    ensures var r := Push(st, i, p);
      && r.next == st.next && r.held == st.held[i := p] && r.started && r.callback == st.callback
      && (st.callback && !st.haveRequested && i - st.next <= SEQ_WINDOW ==>
            r.haveRequested && r.requested == st.next % SEQ_SPACE)
      && (st.haveRequested && st.requested == st.next % SEQ_SPACE ==>
            r.haveRequested && r.requested == st.requested)
      && (i - st.next > SEQ_WINDOW ==>
            r.haveRequested == st.haveRequested && r.requested == st.requested)
  {
    hide Drain;
    PushKeeps(st, i, p);
    HeldSize(st.held, i, p);
    DrainSteps(Hold(Begin(st, i), i, p));
  }

  lemma HoldPlain(st: State, i: nat, p: Packet)
    requires st.next == i
    ensures var h := Hold(st, i, p);
      && h.held == st.held[i := p] && h.next == i && h.started == st.started && h.callback == st.callback
      && h.haveRequested == st.haveRequested && h.requested == st.requested
  {
  }

  /** A turn of the drain, seen through the keys. */
  lemma DrainTakes(st: State)
    ensures st.next !in st.held ==> Drain(st) == st
    ensures st.next in st.held ==>
      var d := DrainOne(st);
      && Drain(st) == Drain(d) && d.next == st.next + 1 && d.held.Keys == st.held.Keys - {st.next}
      && d.started == st.started && d.callback == st.callback
      && d.haveRequested == st.haveRequested && d.requested == st.requested
  {
    hide Drain;
    DrainSteps(st);
  }

  /** 10 fills the hole below 11 and 12; 15 stays. */
  lemma PushTen(st: State, p: Packet)
    requires Inv(st) && st.started && st.next == 10 && st.held.Keys == {11, 12, 15}
    ensures AllFrom(st.held, Begin(st, 10).next)
    ensures var r := Push(st, 10, p);
      && r.next == 13 && r.held.Keys == {15} && r.started && r.callback == st.callback
      && r.haveRequested == st.haveRequested && r.requested == st.requested
  {
    hide Drain, DrainOne, Inv, Hold, Skip, AllFrom;
    PushKeeps(st, 10, p);
    HoldPlain(Begin(st, 10), 10, p);
    var h := Hold(Begin(st, 10), 10, p);
    assert h.held.Keys == {10, 11, 12, 15};
    DrainTakes(h);
    assert h.held.Keys - {10} == {11, 12, 15};
    DrainTakes(DrainOne(h));
    assert {11, 12, 15} - {11} == {12, 15};
    DrainTakes(DrainOne(DrainOne(h)));
    assert {12, 15} - {12} == {15};
    DrainTakes(DrainOne(DrainOne(DrainOne(h))));
    assert |Drain(h).held.Keys| == |Drain(h).held|;
  }

  // ---- gaps that go unasked ----------------------------------------------------------

  /** A push more than 64 ahead asks for nothing; the gap is asked about when a
      nearer packet arrives. After 9, the arrival of 100 asks nothing and that of
      50 asks for 10 to 49. */
  lemma WideGapUnasked(pay: int -> Packet)
    ensures Inv(R.Blank(true, false, 0))
    ensures var st := Run(R.Blank(true, false, 0), [9, 100, 50], pay, 1);
      st.started && st.next == 10 && !Asks(st, 100, pay(100))
    ensures var st := Run(R.Blank(true, false, 0), [9, 100, 50], pay, 2);
      st.started && Asks(st, 50, pay(50)) && Asked(st, 50, pay(50)) == Request(10, 40)
  {
    hide Inv, Push, Asks, Asked;
    R.BlankKeeps(true, false, 0);
    var s0, a := R.Blank(true, false, 0), [9, 100, 50];
    RunStep(s0, a, pay, 0);
    PushFirst(s0, 9, pay(9));
    var s1 := Run(s0, a, pay, 1);
    RequestsExactly(s1, 100, pay(100));
    RunStep(s0, a, pay, 1);
    PushAhead(s1, 100, pay(100));
    RequestsExactly(Run(s0, a, pay, 2), 50, pay(50));
  }

  const LAP := SEQ_SPACE + 1

  /** 9, 11, 10, and then every packet from 12 on but one, 65536 places after 10. */
  function LapAround(): (a: seq<int>)
    ensures |a| == LAP + 1
  {
    seq(LAP + 1, t => if t == 0 then 9 else if t == 1 then 11 else if t == 2 then 10
                      else if t < LAP then t + 9 else t + 10)
  }

  lemma {:induction false} LapState(pay: int -> Packet, t: nat)
    requires Inv(R.Blank(true, false, 0)) && 3 <= t <= LAP
    ensures var st := Run(R.Blank(true, false, 0), LapAround(), pay, t);
      && st.started && st.next == t + 9 && st.held == map[]
      && st.callback && st.haveRequested && st.requested == 10
    decreases t
  {
    hide Inv, Push;
    var s0, a := R.Blank(true, false, 0), LapAround();
    if t > 3 {
      LapState(pay, t - 1);
      RunStep(s0, a, pay, t - 1);
      PushNext(Run(s0, a, pay, t - 1), pay(t + 8));
    } else {
      RunStep(s0, a, pay, 0);
      PushFirst(s0, 9, pay(9));
      RunStep(s0, a, pay, 1);
      PushAhead(Run(s0, a, pay, 1), 11, pay(11));
      RunStep(s0, a, pay, 2);
      PushFills(Run(s0, a, pay, 2), pay(10));
    }
  }

  /** A gap that opens on the 16-bit start of the last request is not asked about:
      here 10 was, and one lap later 10 + 65536 is missing. */
  lemma RememberedGapUnasked(pay: int -> Packet)
    ensures Inv(R.Blank(true, false, 0))
    ensures var st := Run(R.Blank(true, false, 0), LapAround(), pay, LAP);
      && st.started && st.callback && st.held == map[] && st.next == 10 + SEQ_SPACE
      && LapAround()[LAP] == st.next + 1 && !Asks(st, st.next + 1, pay(st.next + 1))
  {
    hide Inv, Push, Asks;
    R.BlankKeeps(true, false, 0);
    LapState(pay, LAP);
    var st := Run(R.Blank(true, false, 0), LapAround(), pay, LAP);
    RequestsExactly(st, st.next + 1, pay(st.next + 1));
  }

  /** The packet waited for, with nothing held. */
  lemma PushNext(st: State, p: Packet)
    requires Inv(st) && st.started && st.held == map[]
    ensures AllFrom(st.held, Begin(st, st.next).next)
    ensures var r := Push(st, st.next, p);
      && r.next == st.next + 1 && r.held == map[] && r.started && r.callback == st.callback
      && r.haveRequested == st.haveRequested && r.requested == st.requested
  {
    hide Drain, Inv;
    PushKeeps(st, st.next, p);
    var h := Hold(Begin(st, st.next), st.next, p);
    DrainSteps(h);
    DrainSteps(DrainOne(h));
    assert h.held - {st.next} == map[];
  }

  /** 10 fills the hole below 11. */
  lemma PushFills(st: State, p: Packet)
    requires Inv(st) && st.started && st.next == 10 && st.held.Keys == {11}
    ensures AllFrom(st.held, Begin(st, 10).next)
    ensures var r := Push(st, 10, p);
      && r.next == 12 && r.held == map[] && r.started && r.callback == st.callback
      && r.haveRequested == st.haveRequested && r.requested == st.requested
  {
    hide Drain, DrainOne, Inv, Hold, Skip, AllFrom;
    PushKeeps(st, 10, p);
    HoldPlain(Begin(st, 10), 10, p);
    var h := Hold(Begin(st, 10), 10, p);
    assert h.held.Keys == {10, 11};
    DrainTakes(h);
    assert h.held.Keys - {10} == {11};
    DrainTakes(DrainOne(h));
    assert {11} - {11} == {};
    DrainTakes(DrainOne(DrainOne(h)));
    assert Drain(h).held.Keys == {};
    assert Drain(h).held == map[];
  }
}
