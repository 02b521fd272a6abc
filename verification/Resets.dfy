/** What a resequencer remembers across a reset: only what it last asked about. */
module Resets {
  import opened Sequencing
  import opened Disorder
  import opened Resends
  import R = Reorder
  import W = WireRuns

  // ---- machines that differ in their memory --------------------------------------------

  /** The state without the memory of the last request. */
  function Forget(st: State): State
  {
    st.(haveRequested := false, requested := 0)
  }

  /** Equal but for a memory that neither consults: a callback may consult it, and
      may be there later when `later` says so. */
  ghost predicate Alike(x: State, y: State, later: bool)
  {
    && Forget(x) == Forget(y)
    && (later || x.callback ==> x.haveRequested == y.haveRequested && (x.haveRequested ==> x.requested == y.requested))
  }

  lemma {:induction false} DrainForgets(st: State)
    ensures Drain(Forget(st)) == Forget(Drain(st))
    ensures Drain(st).haveRequested == st.haveRequested && Drain(st).requested == st.requested
    ensures Drain(st).callback == st.callback
    decreases |st.held|
  {
    hide Drain;
    DrainSteps(st);
    DrainSteps(Forget(st));
    if st.next in st.held {
      ShrinksBy(st.held, st.next);
      assert DrainOne(Forget(st)) == Forget(DrainOne(st));
      DrainForgets(DrainOne(st));
    }
  }

  lemma DrainAlike(x: State, y: State, later: bool)
    requires Alike(x, y, later)
    ensures Alike(Drain(x), Drain(y), later)
  {
    hide Drain;
    DrainForgets(x);
    DrainForgets(y);
  }

  lemma SkipAlike(x: State, y: State, later: bool)
    requires Alike(x, y, later) && AllFrom(x.held, x.next) && |x.held| > 0
    ensures AllFrom(y.held, y.next) && |y.held| > 0 && Alike(Skip(x), Skip(y), later)
  {
    SameShape(x, y, later);
  }

  lemma SameShape(x: State, y: State, later: bool)
    requires Alike(x, y, later)
    ensures x.held == y.held && x.next == y.next && x.started == y.started && x.first == y.first
    ensures x.emitted == y.emitted && x.asked == y.asked && x.pushes == y.pushes
    ensures x.callback == y.callback && x.reordered == y.reordered && x.lost == y.lost
    ensures x.late == y.late && x.overwritten == y.overwritten
  {
    assert Forget(x).held == Forget(y).held && Forget(x).next == Forget(y).next;
  }

  lemma HoldAlike(x: State, y: State, later: bool, i: nat, p: Packet)
    requires Alike(x, y, later) && x.next <= i
    ensures y.next <= i && Alike(Hold(x, i, p), Hold(y, i, p), later)
  {
    SameShape(x, y, later);
  }

  lemma PushAlike(x: State, y: State, later: bool, i: int, p: Packet)
    requires Alike(x, y, later) && (x.started || i >= 0) && AllFrom(x.held, Begin(x, i).next)
    ensures (y.started || i >= 0) && AllFrom(y.held, Begin(y, i).next)
    ensures Alike(Push(x, i, p), Push(y, i, p), later)
  {
    hide Drain, Skip, Hold;
    SameShape(x, y, later);
    var b, c := Begin(x, i), Begin(y, i);
    assert Alike(b, c, later);
    if i >= b.next {
      HoldAlike(b, c, later, i, p);
      var g, h := Hold(b, i, p), Hold(c, i, p);
      R.HoldEmitsNothing(b, i, p);
      DrainAlike(g, h, later);
      SameShape(Drain(g), Drain(h), later);
      if |Drain(g).held| > SEQ_WINDOW {
        SkipAlike(Drain(g), Drain(h), later);
        DrainAlike(Skip(Drain(g)), Skip(Drain(h)), later);
      }
    }
  }

  lemma {:induction false} RunAlike(x: State, y: State, a: seq<int>, pay: int -> Packet, t: nat)
    requires Inv(x) && Inv(y) && !x.started && !y.started && Alike(x, y, false)
    requires t <= |a| && (|a| > 0 ==> a[0] >= 0)
    ensures Alike(Run(x, a, pay, t), Run(y, a, pay, t), false)
  {
    hide Inv, Push, Alike;
    if t > 0 {
      RunAlike(x, y, a, pay, t - 1);
      RunStep(x, a, pay, t - 1);
      RunStep(y, a, pay, t - 1);
      PushAlike(Run(x, a, pay, t - 1), Run(y, a, pay, t - 1), false, a[t - 1], pay(a[t - 1]));
    }
  }

  // ---- a reset machine against a fresh one -----------------------------------------------

  /** On every run the two emit, hold, count and ask the same. */
  ghost predicate ActsAs(x: State, y: State)
    requires Inv(x) && Inv(y) && !x.started && !y.started
  {
    forall a: seq<int>, pay: int -> Packet, t: nat | t <= |a| && (|a| > 0 ==> a[0] >= 0) ::
      Forget(Run(x, a, pay, t)) == Forget(Run(y, a, pay, t))
  }

  /** The first index after 0 with this sequence number. */
  function At(r: SeqNumber): (i: nat)
    ensures 1 <= i <= SEQ_SPACE && i % SEQ_SPACE == r
  {
    if r == 0 then SEQ_SPACE else r
  }

  /** A first packet, and the next but one. */
  function GapAfter(r: SeqNumber): seq<int>
  {
    [At(r) - 1, At(r) + 1]
  }

  /** After a reset, the first gap goes unasked if it opens on the remembered
      16-bit start; a fresh object asks. */
  lemma FirstGapUnasked(r: SeqNumber, pay: int -> Packet)
    ensures Inv(R.Blank(true, true, r)) && Inv(R.Blank(true, false, 0))
    ensures Run(R.Blank(true, true, r), GapAfter(r), pay, 2).asked == []
    ensures Run(R.Blank(true, false, 0), GapAfter(r), pay, 2).asked == [Request(At(r), 1)]
  {
    hide Inv, Push;
    R.BlankKeeps(true, true, r);
    R.BlankKeeps(true, false, 0);
    var i := At(r) + 1;
    AfterFirst(R.Blank(true, true, r), r, pay);
    AfterFirst(R.Blank(true, false, 0), r, pay);
    var x, y := Run(R.Blank(true, true, r), GapAfter(r), pay, 1), Run(R.Blank(true, false, 0), GapAfter(r), pay, 1);
    AskDiscipline(x, i, pay(i));
    AskDiscipline(y, i, pay(i));
    RequestsExactly(x, i, pay(i));
    RequestsExactly(y, i, pay(i));
  }

  lemma AfterFirst(st: State, r: SeqNumber, pay: int -> Packet)
    requires Inv(st) && !st.started && st.asked == []
    ensures var s := Run(st, GapAfter(r), pay, 1);
      && s.started && s.next == At(r) && s.asked == [] && s.callback == st.callback
      && s.haveRequested == st.haveRequested && s.requested == st.requested
      && AllFrom(s.held, Begin(s, At(r) + 1).next)
      && Run(st, GapAfter(r), pay, 2) == Push(s, At(r) + 1, pay(At(r) + 1))
  {
    hide Inv, Push;
    var a := GapAfter(r);
    RunStep(st, a, pay, 0);
    RunStep(st, a, pay, 1);
    PushFirst(st, a[0], pay(a[0]));
    AskDiscipline(st, a[0], pay(a[0]));
    FirstAsksNothing(st, a[0], pay(a[0]));
  }

  lemma FirstAsksNothing(st: State, i: nat, p: Packet)
    requires Inv(st) && !st.started
    ensures AllFrom(st.held, Begin(st, i).next) && Push(st, i, p).asked == st.asked
  {
    hide Release;
    var b := Begin(st, i);
    ReleaseAsksNothing(Hold(b, i, p));
  }

  /** Exactly when a reset object acts as a fresh one with the same callback, which
      then stays as it is: when none is set, or nothing had been asked for. */
  lemma ResetIsFreshExactly(callback: bool, haveRequested: bool, requested: SeqNumber)
    ensures Inv(R.Blank(callback, haveRequested, requested)) && Inv(R.Blank(callback, false, 0))
    ensures ActsAs(R.Blank(callback, haveRequested, requested), R.Blank(callback, false, 0))
        <==> !callback || !haveRequested
  {
    hide Inv;
    R.BlankKeeps(callback, haveRequested, requested);
    R.BlankKeeps(callback, false, 0);
    var x, y := R.Blank(callback, haveRequested, requested), R.Blank(callback, false, 0);
    if !callback || !haveRequested {
      forall a: seq<int>, pay: int -> Packet, t: nat | t <= |a| && (|a| > 0 ==> a[0] >= 0)
        ensures Forget(Run(x, a, pay, t)) == Forget(Run(y, a, pay, t))
      {
        RunAlike(x, y, a, pay, t);
      }
    } else {
      var pay := (i: int) => [];
      FirstGapUnasked(requested, pay);
      var a := GapAfter(requested);
      assert Forget(Run(x, a, pay, 2)).asked != Forget(Run(y, a, pay, 2)).asked;
    }
  }

  // ---- runs in which the callback changes ---------------------------------------------------

  /** What can be done to the object: a push, or OnMissing. */
  datatype Event = Arrival(s: SeqNumber, p: Packet) | Callback(installed: bool)

  ghost function Happens(st: State, e: Event): (r: State)
    requires Inv(st)
    ensures Inv(r)
  {
    match e
    case Arrival(s, p) =>
      PushKeeps(st, W.IndexOf(st, s), p);
      Push(st, W.IndexOf(st, s), p)
    case Callback(installed) =>
      R.CallbackKeeps(st, installed);
      st.(callback := installed)
  }

  ghost function Session(st: State, es: seq<Event>, n: nat): (r: State)
    requires Inv(st) && n <= |es|
    ensures Inv(r)
  {
    if n == 0 then st else Happens(Session(st, es, n - 1), es[n - 1])
  }

  lemma {:induction false} SessionAlike(x: State, y: State, es: seq<Event>, n: nat)
    requires Inv(x) && Inv(y) && Alike(x, y, true) && n <= |es|
    ensures Alike(Session(x, es, n), Session(y, es, n), true)
  {
    hide Inv, Push, Alike, W.IndexOf;
    if n > 0 {
      SessionAlike(x, y, es, n - 1);
      HappenAlike(Session(x, es, n - 1), Session(y, es, n - 1), es[n - 1]);
    }
  }

  lemma HappenAlike(x: State, y: State, e: Event)
    requires Inv(x) && Inv(y) && Alike(x, y, true)
    ensures Alike(Happens(x, e), Happens(y, e), true)
  {
    hide Inv, Push;
    SameShape(x, y, true);
    if e.Arrival? {
      PushKeeps(x, W.IndexOf(x, e.s), e.p);
      PushAlike(x, y, true, W.IndexOf(x, e.s), e.p);
    }
  }

  /** Over every session, callbacks installed and removed as may be, the two emit,
      hold, count and ask the same. */
  ghost predicate ActsAsThroughout(x: State, y: State)
    requires Inv(x) && Inv(y)
  {
    forall es: seq<Event>, n: nat | n <= |es| :: Forget(Session(x, es, n)) == Forget(Session(y, es, n))
  }

  /** A callback, a first packet, and the next but one. */
  function LateCallback(r: SeqNumber): seq<Event>
  {
    [Callback(true), Arrival(At(r) - 1, []), Arrival(R.Wire(At(r) + 1), [])]
  }

  lemma LateCallbackRuns(callback: bool, haveRequested: bool, requested: SeqNumber, r: SeqNumber)
    ensures Inv(R.Blank(callback, haveRequested, requested)) && Inv(R.Blank(true, haveRequested, requested))
    ensures Session(R.Blank(callback, haveRequested, requested), LateCallback(r), 3)
         == Run(R.Blank(true, haveRequested, requested), GapAfter(r), i => [], 2)
  {
    hide Inv, Push, R.Wire, R.Unwrap;
    R.BlankKeeps(callback, haveRequested, requested);
    R.BlankKeeps(true, haveRequested, requested);
    var x, y := R.Blank(callback, haveRequested, requested), R.Blank(true, haveRequested, requested);
    var es := LateCallback(r);
    var pay := (i: int) => [];
    assert Session(x, es, 0) == x && Session(x, es, 1) == y;
    AfterFirst(y, r, pay);
    RunStep(y, GapAfter(r), pay, 0);
    assert Session(x, es, 2) == Run(y, GapAfter(r), pay, 1);
    R.UnwrapWire(At(r), At(r) + 1);
  }

  /** If OnMissing may be called after the reset, a reset object acts as a fresh one
      if and only if nothing had been asked for. */
  lemma ResetIsFreshThroughout(callback: bool, haveRequested: bool, requested: SeqNumber)
    ensures Inv(R.Blank(callback, haveRequested, requested)) && Inv(R.Blank(callback, false, 0))
    ensures ActsAsThroughout(R.Blank(callback, haveRequested, requested), R.Blank(callback, false, 0))
        <==> !haveRequested
  {
    hide Inv, Session, Run;
    R.BlankKeeps(callback, haveRequested, requested);
    R.BlankKeeps(callback, false, 0);
    var x, y := R.Blank(callback, haveRequested, requested), R.Blank(callback, false, 0);
    if !haveRequested {
      forall es: seq<Event>, n: nat | n <= |es|
        ensures Forget(Session(x, es, n)) == Forget(Session(y, es, n))
      {
        SessionAlike(x, y, es, n);
      }
    } else {
      LateCallbackRuns(callback, true, requested, requested);
      LateCallbackRuns(callback, false, 0, requested);
      FirstGapUnasked(requested, i => []);
      var es := LateCallback(requested);
      assert Forget(Session(x, es, 3)).asked != Forget(Session(y, es, 3)).asked;
    }
  }
}
