/** The laws of the resequencer as the 16-bit machine keeps them: exactly when it
    follows the unbounded machine, what then holds of it, and exactly when it puts
    a disordered stream right. */
module WireLaws {
  import opened Sequencing
  import opened Disorder
  import opened Reorder
  import opened WireRuns

  /** The 16-bit machine after t arrivals of which it sees the numbers only. */
  ghost function OnWire(st: State, a: seq<int>, pay: int -> Packet, t: nat): (r: State)
    requires Inv(st) && t <= |a|
    ensures Inv(r)
  {
    RunWire(st, Wires(a), Pays(a, pay), t)
  }

  lemma OnWireStep(st: State, a: seq<int>, pay: int -> Packet, t: nat)
    requires Inv(st) && t < |a|
    ensures var r := OnWire(st, a, pay, t); var j := IndexOf(r, Wire(a[t]));
      && AllFrom(r.held, Begin(r, j).next) && OnWire(st, a, pay, t + 1) == Push(r, j, pay(a[t]))
  {
    hide Inv, Push, IndexOf, Wire;
    var r := OnWire(st, a, pay, t);
    PushKeeps(r, IndexOf(r, Wire(a[t])), pay(a[t]));
  }

  lemma {:induction false} WireStarted(st: State, a: seq<int>, pay: int -> Packet, t: nat)
    requires Inv(st) && !st.started && 0 < t <= |a|
    ensures OnWire(st, a, pay, t).started
  {
    hide Push, IndexOf, Inv;
    OnWireStep(st, a, pay, t - 1);
    var r := OnWire(st, a, pay, t - 1);
    PushKeeps(r, IndexOf(r, Wire(a[t - 1])), pay(a[t - 1]));
  }

  // ---- what a push stores -------------------------------------------------------------

  /** Packet p is in its place k: held there, or emitted as k. */
  ghost predicate Stored(st: State, k: nat, p: Packet)
  {
    (k in st.held && st.held[k] == p) || (k, p) in st.emitted
  }

  lemma DrainOneStores(st: State, k: nat, p: Packet)
    requires st.next in st.held
    ensures Stored(DrainOne(st), k, p) <==> Stored(st, k, p)
  {
    var e := (st.next, st.held[st.next]);
    assert forall x: (nat, Packet) :: x in st.emitted + [e] <==> x in st.emitted || x == e;
  }

  lemma {:induction false} DrainStores(st: State, k: nat, p: Packet)
    ensures Stored(Drain(st), k, p) <==> Stored(st, k, p)
    ensures Drain(st).overwritten == st.overwritten
    decreases |st.held|
  {
    hide Drain, Stored;
    DrainSteps(st);
    if st.next in st.held {
      DrainOneShrinks(st);
      DrainOneStores(st, k, p);
      DrainStores(DrainOne(st), k, p);
    }
  }

  lemma ReleaseStores(st: State, k: nat, p: Packet)
    requires AllFrom(st.held, st.next)
    ensures Stored(Release(st), k, p) <==> Stored(st, k, p)
    ensures Release(st).overwritten == st.overwritten
  {
    hide Drain;
    DrainStores(st, k, p);
    var d := Drain(st);
    if |d.held| > SEQ_WINDOW { DrainStores(Skip(d), k, p); }
  }

  /** A push in time stores its own packet in its own place, in the stead of one
      held there, and nothing else. */
  lemma PushStores(st: State, i: int, p: Packet, k: nat, q: Packet)
    requires Inv(st) && st.started && i >= st.next
    ensures AllFrom(st.held, Begin(st, i).next)
    ensures Stored(Push(st, i, p), k, q) <==> if k == i then q == p else Stored(st, k, q)
    ensures Push(st, i, p).overwritten == st.overwritten + (if i in st.held then 1 else 0)
  {
    hide Release;
    var b := Begin(st, i);
    HoldFields(b, i, p);
    HoldOverwrites(b, i, p);
    ReleaseStores(Hold(b, i, p), k, q);
    if k == i { NotEmittedFrom(st, i, q); }
  }

  lemma HoldOverwrites(st: State, i: nat, p: Packet)
    requires st.next <= i
    ensures Hold(st, i, p).overwritten == st.overwritten + (if i in st.held then 1 else 0)
  {
  }

  lemma NotEmittedFrom(st: State, k: nat, p: Packet)
    requires Inv(st) && k >= st.next
    ensures (k, p) !in st.emitted
  {
  }

  // ---- held packets are near ------------------------------------------------------------

  ghost predicate HeldNear(st: State)
  {
    forall k :: k in st.held ==> k < st.next + HALF_SPACE
  }

  lemma PushNear(st: State, i: int, p: Packet)
    requires Inv(st) && st.started && HeldNear(st) && i < st.next + HALF_SPACE
    ensures AllFrom(st.held, Begin(st, i).next) && HeldNear(Push(st, i, p))
  {
    hide Push;
    PushKeeps(st, i, p);
    PushAdvances(st, i, p);
    var r := Push(st, i, p);
    if i >= st.next {
      forall k | k in r.held ensures k < r.next + HALF_SPACE {
        PushStores(st, i, p, k, r.held[k]);
        if k != i && k !in st.held { EmittedBehind(st, k, r.held[k], r); }
      }
    } else {
      PushLate(st, i, p);
    }
  }

  lemma EmittedBehind(st: State, k: nat, p: Packet, r: State)
    requires Inv(st) && (k, p) in st.emitted && st.next <= r.next
    ensures k < r.next
  {
  }

  lemma PushLate(st: State, i: int, p: Packet)
    requires st.started && i < st.next && AllFrom(st.held, Begin(st, i).next)
    ensures Push(st, i, p) == st.(pushes := st.pushes + 1, late := st.late + 1)
  {
  }

  lemma FirstNear(st: State, i: nat, p: Packet)
    requires Inv(st) && !st.started
    ensures AllFrom(st.held, Begin(st, i).next) && HeldNear(Push(st, i, p))
  {
    hide Release, Hold;
    FirstSettles(st, i, x => p);
    SettledFrom(Push(st, i, p), {i}, i, x => p);
  }

  lemma {:induction false} WireIsNear(st: State, a: seq<int>, pay: int -> Packet, t: nat)
    requires Inv(st) && !st.started && t <= |a|
    ensures t > 0 ==> HeldNear(OnWire(st, a, pay, t))
  {
    hide Push, Inv, HeldNear, Unwrap, Wire;
    if t > 0 {
      var r := OnWire(st, a, pay, t - 1);
      OnWireStep(st, a, pay, t - 1);
      if t == 1 {
        FirstNear(st, IndexOf(st, Wire(a[0])), pay(a[0]));
      } else {
        WireIsNear(st, a, pay, t - 1);
        WireStarted(st, a, pay, t - 1);
        WireUnwrap(r.next, Wire(a[t - 1]));
        PushNear(r, IndexOf(r, Wire(a[t - 1])), pay(a[t - 1]));
      }
    }
  }

  // ---- exactly when the two machines agree ------------------------------------------------

  /** The 16 bits of i lead to i, or both to i and to where they do lead it is too
      late. */
  predicate Tracks(nxt: nat, i: int)
  {
    Unwrap(nxt, Wire(i)) == i || (Unwrap(nxt, Wire(i)) < nxt && i < nxt)
  }

  /** Two pushes onto one state part unless they are the same push or both late. */
  lemma PushesPart(r: State, i: int, p: Packet)
    requires Inv(r) && r.started && HeldNear(r)
    ensures AllFrom(r.held, Begin(r, i).next) && AllFrom(r.held, Begin(r, Unwrap(r.next, Wire(i))).next)
    ensures Push(r, Unwrap(r.next, Wire(i)), p) == Push(r, i, p) <==> Tracks(r.next, i)
  {
    hide Push, Inv, Unwrap, Wire, HeldNear;
    var j := Unwrap(r.next, Wire(i));
    PushKeeps(r, i, p);
    PushKeeps(r, j, p);
    PushAdvances(r, i, p);
    PushAdvances(r, j, p);
    if i < r.next && j < r.next {
      PushLate(r, i, p);
      PushLate(r, j, p);
    } else if i >= r.next && j >= r.next && i != j {
      PushStores(r, i, p, i, p);
      PushStores(r, j, p, i, p);
      PushStores(r, i, p, j, p);
      PushStores(r, j, p, j, p);
      NotEmittedFrom(r, i, p);
      NotEmittedFrom(r, j, p);
      if i in r.held {
        NearOnes(r, i);
        UnwrapWire(r.next, i);
      }
    }
  }

  lemma NearOnes(r: State, i: nat)
    requires Inv(r) && HeldNear(r) && i in r.held
    ensures r.next <= i < r.next + HALF_SPACE
  {
  }

  /** From equal states, the next states are equal exactly when the arrival tracks. */
  lemma PartsExactly(st: State, a: seq<int>, pay: int -> Packet, t: nat)
    requires Inv(st) && !st.started && t < |a| && a[0] >= 0
    requires OnWire(st, a, pay, t) == Run(st, a, pay, t)
    ensures OnWire(st, a, pay, t + 1) == Run(st, a, pay, t + 1)
        <==> if t == 0 then a[0] < SEQ_SPACE else Tracks(Run(st, a, pay, t).next, a[t])
  {
    hide Push, Inv, Unwrap, HeldNear;
    var r := Run(st, a, pay, t);
    OnWireStep(st, a, pay, t);
    RunStep(st, a, pay, t);
    if t == 0 {
      PushCounts(st, a[0], pay(a[0]));
      PushCounts(st, Wire(a[0]), pay(a[0]));
    } else {
      WireIsNear(st, a, pay, t);
      PushesPart(r, a[t], pay(a[t]));
    }
  }

  ghost predicate Tracked(st: State, a: seq<int>, pay: int -> Packet)
    requires Inv(st) && !st.started && (|a| > 0 ==> a[0] >= 0)
  {
    (|a| > 0 ==> a[0] < SEQ_SPACE) && forall t :: 0 < t < |a| ==> Tracks(Run(st, a, pay, t).next, a[t])
  }

  lemma {:induction false} TrackedIsRun(st: State, a: seq<int>, pay: int -> Packet, t: nat)
    requires Inv(st) && !st.started && (|a| > 0 ==> a[0] >= 0) && Tracked(st, a, pay) && t <= |a|
    ensures OnWire(st, a, pay, t) == Run(st, a, pay, t)
  {
    hide Inv, Push, Tracks;
    if t > 0 {
      TrackedIsRun(st, a, pay, t - 1);
      PartsExactly(st, a, pay, t - 1);
    }
  }

  /** The 16-bit machine goes through the unbounded one's states if and only if
      every arrival tracks. */
  lemma SimulatesExactly(st: State, a: seq<int>, pay: int -> Packet)
    requires Inv(st) && !st.started && (|a| > 0 ==> a[0] >= 0)
    ensures (forall t: nat :: t <= |a| ==> OnWire(st, a, pay, t) == Run(st, a, pay, t)) <==> Tracked(st, a, pay)
  {
    hide Inv, OnWire, Run, Tracks;
    if Tracked(st, a, pay) {
      forall t: nat | t <= |a| ensures OnWire(st, a, pay, t) == Run(st, a, pay, t) { TrackedIsRun(st, a, pay, t); }
    }
    if forall t: nat :: t <= |a| ==> OnWire(st, a, pay, t) == Run(st, a, pay, t) {
      forall t: nat | t < |a|
        ensures if t == 0 then a[0] < SEQ_SPACE else Tracks(Run(st, a, pay, t).next, a[t])
      {
        PartsExactly(st, a, pay, t);
      }
    }
  }

  /** Within reach every arrival tracks. */
  lemma ReachTracks(st: State, a: seq<int>, pay: int -> Packet)
    requires Inv(st) && !st.started && (|a| > 0 ==> a[0] >= 0) && InReach(st, a, pay)
    ensures Tracked(st, a, pay)
  {
    hide Inv, Run, Unwrap, Wire;
    forall t | 0 < t < |a| ensures Tracks(Run(st, a, pay, t).next, a[t]) {
      UnwrapExactly(Run(st, a, pay, t).next, a[t]);
    }
  }

  // ---- the laws, on the wire -----------------------------------------------------------------

  /** The arrival is late by its 16-bit number. */
  ghost predicate Misses(r: State, s: nat)
    requires r.started
  {
    IndexOf(r, s) < r.next
  }

  /** Lateness exactly: a packet from the first on that arrives for the first time
      is late if and only if more than 64 others have overtaken it. */
  lemma LateOnWire(st: State, a: seq<int>, pay: int -> Packet, t: nat)
    requires Inv(st) && !st.started && 0 < t < |a| && a[0] >= 0 && Tracked(st, a, pay)
    requires a[t] >= a[0] && a[t] !in Seen(a, t)
    ensures var r := OnWire(st, a, pay, t);
      r.started && (Misses(r, Wire(a[t])) <==> |Overtakers(a, t)| > SEQ_WINDOW)
  {
    hide Inv, Run, OnWire, Unwrap, Wire, Overtakers, Seen;
    TrackedIsRun(st, a, pay, t);
    WireStarted(st, a, pay, t);
    LateExactly(st, a, pay, t);
  }

  /** What has been emitted is the accepted packets in order, up to the first hole
      that no more than 64 have overtaken; what is held is the rest. */
  lemma AcceptsOnWire(st: State, a: seq<int>, pay: int -> Packet, t: nat)
    requires Inv(st) && !st.started && 0 < t <= |a| && a[0] >= 0 && Tracked(st, a, pay)
    ensures Settled(OnWire(st, a, pay, t), Accepted(st, a, pay, t), a[0], pay)
  {
    hide Inv, Run, OnWire, Settled, Accepted, Tracked;
    TrackedIsRun(st, a, pay, t);
    RunAccepts(st, a, pay, t);
  }

  /** A packet that came in time is held until it is emitted. */
  lemma KeptOnWire(st: State, a: seq<int>, pay: int -> Packet, u: nat, t: nat)
    requires Inv(st) && !st.started && u < t <= |a| && a[0] >= 0 && Tracked(st, a, pay)
    requires u > 0 ==> OnWire(st, a, pay, u).started && !Misses(OnWire(st, a, pay, u), Wire(a[u]))
    ensures a[u] >= 0 && Stored(OnWire(st, a, pay, t), a[u], pay(a[u]))
  {
    hide Inv, Run, OnWire, Unwrap, Wire;
    TrackedIsRun(st, a, pay, u);
    TrackedIsRun(st, a, pay, t);
    InTimeIsKept(st, a, pay, u, t);
    HeldIsStored(st, a, pay, u, t);
  }

  lemma HeldIsStored(st: State, a: seq<int>, pay: int -> Packet, u: nat, t: nat)
    requires Inv(st) && !st.started && u < t <= |a| && a[0] >= 0
    requires var r := Run(st, a, pay, t);
      if a[u] < r.next then a[0] <= a[u] && (a[u] as nat, pay(a[u])) in r.emitted else a[u] in r.held
    ensures a[u] >= 0 && Stored(Run(st, a, pay, t), a[u], pay(a[u]))
  {
    hide Inv, Run, Accepted;
    RunAccepts(st, a, pay, t);
  }

  /** reordered counts the arrivals ahead of the packet waited for. */
  lemma ReorderedOnWire(st: State, a: seq<int>, pay: int -> Packet, t: nat)
    requires Inv(st) && !st.started && t <= |a| && (|a| > 0 ==> a[0] >= 0) && Tracked(st, a, pay)
    ensures OnWire(st, a, pay, t).reordered == st.reordered + |Early(st, a, pay, t)|
  {
    hide Inv, Run, OnWire, Early, Tracked;
    TrackedIsRun(st, a, pay, t);
    ReorderedCounts(st, a, pay, t);
  }

  // ---- repair, exactly ------------------------------------------------------------------------

  ghost predicate Repaired(r: State, first: nat, n: nat, pay: int -> Packet)
  {
    r.emitted == Consecutive(first, n, pay) && r.held == map[] && r.lost == 0 && r.late == 0
  }

  /** A packet that tells its index. */
  function Tell(i: int): Packet
  {
    [if i < 0 then 1 else 0] + seq(if i < 0 then -i else i, _ => 0)
  }

  lemma TellsApart(i: int, j: int)
    ensures Tell(i) == Tell(j) <==> i == j
  {
    if Tell(i) == Tell(j) {
      assert Tell(i)[0] == Tell(j)[0] && |Tell(i)| == |Tell(j)|;
    }
  }

  lemma {:induction false} WireCounts(st: State, a: seq<int>, pay: int -> Packet, t: nat)
    requires Inv(st) && !st.started && t <= |a|
    ensures OnWire(st, a, pay, t).pushes == t
  {
    hide Push, Kept, IndexOf;
    if t > 0 {
      WireCounts(st, a, pay, t - 1);
      OnWireStep(st, a, pay, t - 1);
      var r := OnWire(st, a, pay, t - 1);
      PushCounts(r, IndexOf(r, Wire(a[t - 1])), pay(a[t - 1]));
    }
  }

  /** Lateness and overwriting are never undone; a stored packet stays unless it is
      overwritten. */
  lemma PushStays(st: State, i: int, p: Packet, k: nat, q: Packet)
    requires Inv(st) && st.started
    ensures AllFrom(st.held, Begin(st, i).next)
    ensures var r := Push(st, i, p);
      && r.late >= st.late && r.overwritten >= st.overwritten
      && (Stored(st, k, q) ==> Stored(r, k, q) || r.overwritten > st.overwritten)
  {
    hide Push, Inv;
    PushKeeps(st, i, p);
    PushAdvances(st, i, p);
    if i >= st.next {
      PushStores(st, i, p, k, q);
      if k == i { NotEmittedFrom(st, k, q); }
    } else {
      PushLate(st, i, p);
    }
  }

  lemma {:induction false} WireStays(st: State, a: seq<int>, pay: int -> Packet, u: nat, t: nat, k: nat, q: Packet)
    requires Inv(st) && !st.started && 0 < u <= t <= |a|
    ensures var x, y := OnWire(st, a, pay, u), OnWire(st, a, pay, t);
      && y.late >= x.late && y.overwritten >= x.overwritten
      && (Stored(x, k, q) ==> Stored(y, k, q) || y.overwritten > 0)
    decreases t
  {
    hide Push, Inv, IndexOf, Stored, OnWire;
    if u < t {
      WireStays(st, a, pay, u, t - 1, k, q);
      OnWireStep(st, a, pay, t - 1);
      WireStarted(st, a, pay, t - 1);
      var r := OnWire(st, a, pay, t - 1);
      PushStays(r, IndexOf(r, Wire(a[t - 1])), pay(a[t - 1]), k, q);
    }
  }

  lemma NothingOverwritten(st: State, a: seq<int>, pay: int -> Packet, n: nat)
    requires Inv(st) && !st.started && |a| == n > 0 && a[0] >= 0
    requires Repaired(OnWire(st, a, pay, n), a[0], n, pay)
    ensures OnWire(st, a, pay, n).overwritten == 0
  {
    hide OnWire;
    WireCounts(st, a, pay, n);
  }

  lemma RepairedMeans(r: State, first: nat, n: nat, j: nat, p: Packet)
    requires Repaired(r, first, n, Tell) && Stored(r, j, p)
    ensures p == Tell(j)
  {
  }

  /** A repaired stream of packets that tell their indices was read right. */
  lemma {:induction false} RepairedIsRead(st: State, a: seq<int>, n: nat, t: nat)
    requires Inv(st) && !st.started && |a| == n > 0 && 0 <= a[0] < SEQ_SPACE && t <= n
    requires Repaired(OnWire(st, a, Tell, n), a[0], n, Tell)
    ensures OnWire(st, a, Tell, t) == Run(st, a, Tell, t)
    ensures forall u :: 0 < u < t ==> Unwrap(Run(st, a, Tell, u).next, Wire(a[u])) == a[u]
  {
    hide Push, Inv, Unwrap, Wire, OnWire, Run, Repaired, Stored, Tell;
    if t > 0 {
      RepairedIsRead(st, a, n, t - 1);
      PartsExactly(st, a, Tell, t - 1);
      if t > 1 { ReadRight(st, a, n, t - 1); }
    } else {
      OnWireStarts(st, a, Tell);
    }
  }

  lemma OnWireStarts(st: State, a: seq<int>, pay: int -> Packet)
    requires Inv(st) && !st.started && (|a| > 0 ==> a[0] >= 0)
    ensures OnWire(st, a, pay, 0) == Run(st, a, pay, 0) == st
  {
  }

  lemma ReadRight(st: State, a: seq<int>, n: nat, t: nat)
    requires Inv(st) && !st.started && |a| == n && 0 < t < n && 0 <= a[0] < SEQ_SPACE
    requires Repaired(OnWire(st, a, Tell, n), a[0], n, Tell)
    requires OnWire(st, a, Tell, t) == Run(st, a, Tell, t)
    ensures Unwrap(Run(st, a, Tell, t).next, Wire(a[t])) == a[t]
  {
    hide Push, Inv, Unwrap, Wire, OnWire, Run, Stored, Tell, Consecutive;
    var r := OnWire(st, a, Tell, t);
    WireStarted(st, a, Tell, t);
    var j, p := IndexOf(r, Wire(a[t])), Tell(a[t]);
    OnWireStep(st, a, Tell, t);
    PushAdvances(r, j, p);
    WireStays(st, a, Tell, t + 1, n, if j >= 0 then j else 0, p);
    if j >= r.next {
      PushStores(r, j, p, j, p);
      NothingOverwritten(st, a, Tell, n);
      RepairedMeans(OnWire(st, a, Tell, n), a[0], n, j, p);
      TellsApart(a[t], j);
    }
  }

  /** Repair on the wire, exactly: arrivals that permute consecutive indices starting
      at the first come out sorted with nothing lost or late, whatever they carry,
      if and only if none is overtaken by more than 64 others and none is out of
      reach. */
  lemma RepairOnWire(st: State, a: seq<int>, n: nat)
    requires Inv(st) && !st.started && |a| == n > 0 && 0 <= a[0] < SEQ_SPACE
    requires forall k: nat :: k in Seen(a, n) <==> a[0] <= k < a[0] + n
    ensures (forall pay: int -> Packet :: Repaired(OnWire(st, a, pay, n), a[0], n, pay))
        <==> BoundedDisorder(a) && NearFrontier(a)
  {
    hide Inv, Run, OnWire, Seen, BoundedDisorder, NearFrontier, Consecutive;
    if BoundedDisorder(a) && NearFrontier(a) {
      forall pay: int -> Packet ensures Repaired(OnWire(st, a, pay, n), a[0], n, pay) {
        FrontierIsInReach(st, a, pay);
        ReachTracks(st, a, pay);
        TrackedIsRun(st, a, pay, n);
        FullRepair(st, a, pay, n);
      }
    }
    if forall pay: int -> Packet :: Repaired(OnWire(st, a, pay, n), a[0], n, pay) {
      assert Repaired(OnWire(st, a, Tell, n), a[0], n, Tell);
      RepairedIsRead(st, a, n, n);
      FullRepair(st, a, Tell, n);
      ReadIsNear(st, a, Tell);
    }
  }

  lemma ReadIsNear(st: State, a: seq<int>, pay: int -> Packet)
    requires Inv(st) && !st.started && BoundedDisorder(a) && |a| > 0 && 0 <= a[0] < SEQ_SPACE
    requires forall u :: 0 < u < |a| ==> Unwrap(Run(st, a, pay, u).next, Wire(a[u])) == a[u]
    ensures NearFrontier(a)
  {
    hide Inv, Run, Seen, BoundedDisorder, IsFrontier, Unwrap, Wire, Sorted, Above;
    forall t, x: nat | 0 < t < |a| && IsFrontier(Seen(a, t), a[0], x)
      ensures x - HALF_SPACE <= a[t] < x + HALF_SPACE
    {
      EmitsArrivedBelowFrontier(st, a, pay, t);
      FrontierUnique(Seen(a, t), a[0], x, Run(st, a, pay, t).next);
      UnwrapExactly(x, a[t]);
    }
  }

  /** Out of reach the laws fail: nothing has overtaken 40000 when it follows 0, and
      the 16-bit machine counts it late. */
  lemma FarIsLate(st: State, pay: int -> Packet)
    requires Inv(st) && !st.started
    ensures BoundedDisorder([0, 40000]) && Overtakers([0, 40000], 1) == {}
    ensures Run(st, [0, 40000], pay, 2).late == st.late
    ensures OnWire(st, [0, 40000], pay, 2).late == st.late + 1
  {
    hide Inv, Push;
    var a := [0, 40000];
    OnWireStep(st, a, pay, 0);
    RunStep(st, a, pay, 0);
    RunStep(st, a, pay, 1);
    OnWireStep(st, a, pay, 1);
    var r := Run(st, a, pay, 1);
    FirstAdvances(st, pay(0));
    PushAdvances(r, 40000, pay(40000));
    PushAdvances(r, Unwrap(1, Wire(40000)), pay(40000));
  }

  lemma FirstAdvances(st: State, p: Packet)
    requires Inv(st) && !st.started
    ensures AllFrom(st.held, Begin(st, 0).next)
    ensures var r := Push(st, 0, p); r.started && r.next == 1 && r.late == st.late
  {
    hide Drain;
    var h := Hold(Begin(st, 0), 0, p);
    DrainSteps(h);
    DrainSteps(DrainOne(h));
    assert h.held - {0} == map[];
  }
}
