/** What the resequencer does to a disordered stream. As long as no packet is
    overtaken by more than 64 distinct others, what has been emitted is a function
    of which packets have arrived, whatever their order, gaps and duplicates. */
module Disorder {
  import opened Sequencing

  /** The machine after the first t arrivals; pay gives the packet of an index. */
  ghost function Run(st: State, a: seq<int>, pay: int -> Packet, t: nat): (r: State)
    requires Inv(st) && !st.started && t <= |a| && (|a| > 0 ==> a[0] >= 0)
    ensures Inv(r) && (t > 0 ==> r.started)
  {
    if t == 0 then st
    else
      PushKeeps(Run(st, a, pay, t - 1), a[t - 1], pay(a[t - 1]));
      Push(Run(st, a, pay, t - 1), a[t - 1], pay(a[t - 1]))
  }

  /** The indices among the first t arrivals, from the first packet's on. */
  ghost function Seen(a: seq<int>, t: nat): set<nat>
    requires t <= |a| && (|a| > 0 ==> a[0] >= 0)
  {
    set u | 0 <= u < t && a[u] >= a[0] :: a[u] as nat
  }

  /** The distinct later packets that arrived before arrival t. */
  ghost function Overtakers(a: seq<int>, t: nat): set<nat>
    requires t < |a|
  {
    set u | 0 <= u < t && 0 <= a[u] && a[u] > a[t] :: a[u] as nat
  }

  /** No packet, when it first arrives, has been overtaken by more than 64 others. */
  ghost predicate BoundedDisorder(a: seq<int>)
  {
    && (|a| > 0 ==> a[0] >= 0)
    && forall t :: 0 < t < |a| && a[t] >= a[0] && a[t] !in Seen(a, t) ==> |Overtakers(a, t)| <= SEQ_WINDOW
  }

  ghost function Above(s: set<nat>, x: int): set<nat>
  {
    set k | k in s && k > x
  }

  /** The first position that has neither arrived nor fallen behind more than 64
      later packets. */
  ghost predicate IsFrontier(s: set<nat>, first: nat, x: nat)
  {
    && first <= x && x !in s && |Above(s, x)| <= SEQ_WINDOW
    && forall y: nat :: first <= y < x && y !in s ==> |Above(s, y)| > SEQ_WINDOW
  }

  lemma FrontierUnique(s: set<nat>, first: nat, x: nat, y: nat)
    requires IsFrontier(s, first, x) && IsFrontier(s, first, y)
    ensures x == y
  {
  }

  /** The arrived packets from first up to n, in order. */
  ghost function Sorted(s: set<nat>, first: nat, n: nat, pay: int -> Packet): seq<(nat, Packet)>
    requires first <= n
    decreases n - first
  {
    if n == first then []
    else Sorted(s, first, n - 1, pay) + (if n - 1 in s then [((n - 1) as nat, pay(n - 1))] else [])
  }

  lemma {:induction false} SortedGap(s: set<nat>, first: nat, n: nat, m: nat, pay: int -> Packet)
    requires first <= n <= m && forall y: nat :: n <= y < m ==> y !in s
    ensures Sorted(s, first, m, pay) == Sorted(s, first, n, pay)
    decreases m
  {
    if n < m { SortedGap(s, first, n, m - 1, pay); }
  }

  lemma {:induction false} SortedIgnoresLater(s: set<nat>, first: nat, n: nat, i: nat, pay: int -> Packet)
    requires first <= n <= i
    ensures Sorted(s + {i}, first, n, pay) == Sorted(s, first, n, pay)
    decreases n
  {
    if first < n { SortedIgnoresLater(s, first, n - 1, i, pay); }
  }

  // ---- the machine's state as a function of what arrived ---------------------------

  /** Emitted and held packets are exactly the arrived ones below and from next. */
  ghost predicate Mirrors(st: State, s: set<nat>, first: nat, pay: int -> Packet)
  {
    && st.started && st.first == first <= st.next
    && (forall k :: k in s ==> first <= k)
    && (forall k :: k in st.held <==> k in s && st.next <= k)
    && (forall k :: k in st.held ==> st.held[k] == pay(k))
    && st.emitted == Sorted(s, first, st.next, pay)
  }

  /** Every hole that was passed has more than 64 arrivals above it. */
  ghost predicate HolesJustified(s: set<nat>, first: nat, n: nat)
  {
    forall y: nat :: first <= y < n && y !in s ==> |Above(s, y)| > SEQ_WINDOW
  }

  ghost predicate Settled(st: State, s: set<nat>, first: nat, pay: int -> Packet)
  {
    && Mirrors(st, s, first, pay) && st.next !in s && |st.held| <= SEQ_WINDOW
    && HolesJustified(s, first, st.next)
  }

  lemma SubsetSize(a: set<nat>, b: set<nat>)
    requires a <= b
    ensures |a| <= |b|
  {
    assert b == a + (b - a);
  }

  lemma DrainOneMirrors(st: State, s: set<nat>, first: nat, pay: int -> Packet)
    requires Mirrors(st, s, first, pay) && st.next in st.held
    ensures st.next in s && Mirrors(DrainOne(st), s, first, pay)
  {
    var r := DrainOne(st);
    assert forall k :: k in r.held <==> k in st.held && k != st.next;
  }

  lemma DrainOneShrinks(st: State)
    requires st.next in st.held
    ensures DrainOne(st).next == st.next + 1 && |DrainOne(st).held| < |st.held|
  {
    ShrinksBy(st.held, st.next);
  }

  lemma {:induction false} DrainMirrors(st: State, s: set<nat>, first: nat, pay: int -> Packet)
    requires Mirrors(st, s, first, pay)
    ensures Mirrors(Drain(st), s, first, pay) && Drain(st).next !in s
    ensures HolesJustified(s, first, st.next) ==> HolesJustified(s, first, Drain(st).next)
    decreases |st.held|
  {
    hide Mirrors, HolesJustified, Drain, DrainOne;
    DrainSteps(st);
    if st.next in st.held {
      DrainOneShrinks(st);
      DrainOneMirrors(st, s, first, pay);
      HolesJustifiedNext(s, first, st.next);
      DrainMirrors(DrainOne(st), s, first, pay);
    } else {
      NotHeldNotSeen(st, s, first, pay);
    }
  }

  lemma HolesJustifiedNext(s: set<nat>, first: nat, n: nat)
    requires n in s
    ensures HolesJustified(s, first, n) ==> HolesJustified(s, first, n + 1)
  {
  }

  lemma NotHeldNotSeen(st: State, s: set<nat>, first: nat, pay: int -> Packet)
    requires Mirrors(st, s, first, pay) && st.next !in st.held
    ensures st.next !in s
  {
  }

  /** Skipping passes only holes, each with the whole window above it. */
  lemma SkipMirrors(st: State, s: set<nat>, first: nat, pay: int -> Packet)
    requires Mirrors(st, s, first, pay) && |st.held| > SEQ_WINDOW && st.next !in s
    requires HolesJustified(s, first, st.next)
    ensures AllFrom(st.held, st.next) && Mirrors(Skip(st), s, first, pay)
    ensures HolesJustified(s, first, Skip(st).next)
  {
    var best := Skip(st).next;
    SortedGap(s, first, st.next, best, pay);
    forall y: nat | first <= y < best && y !in s ensures |Above(s, y)| > SEQ_WINDOW {
      if y >= st.next {
        assert |st.held.Keys| == |st.held|;
        SubsetSize(st.held.Keys, Above(s, y));
      }
    }
  }

  lemma ReleaseSettles(st: State, s: set<nat>, first: nat, pay: int -> Packet)
    requires Mirrors(st, s, first, pay) && HolesJustified(s, first, st.next)
    requires |st.held| <= SEQ_WINDOW + 1
    ensures AllFrom(st.held, st.next) && Settled(Release(st), s, first, pay)
  {
    hide Mirrors, HolesJustified, Drain;
    MirrorsFrom(st, s, first, pay);
    DrainMirrors(st, s, first, pay);
    var d := Drain(st);
    if |d.held| > SEQ_WINDOW {
      SkipMirrors(d, s, first, pay);
      DrainMirrors(Skip(d), s, first, pay);
    }
  }

  lemma MirrorsFrom(st: State, s: set<nat>, first: nat, pay: int -> Packet)
    requires Mirrors(st, s, first, pay)
    ensures AllFrom(st.held, st.next)
  {
  }

  lemma MoreAbove(s: set<nat>, i: nat, first: nat, n: nat)
    requires HolesJustified(s, first, n)
    ensures HolesJustified(s + {i}, first, n)
  {
    forall y: nat | first <= y < n && y !in s + {i} ensures |Above(s + {i}, y)| > SEQ_WINDOW {
      SubsetSize(Above(s, y), Above(s + {i}, y));
    }
  }

  lemma HoldMirrors(st: State, s: set<nat>, first: nat, pay: int -> Packet, i: nat)
    requires Settled(st, s, first, pay) && st.next <= i
    ensures var h := Hold(st, i, pay(i));
      Mirrors(h, s + {i}, first, pay) && |h.held| <= SEQ_WINDOW + 1 && h.next == st.next
  {
    hide Hold, HolesJustified, Sorted;
    HoldFields(st, i, pay(i));
    SortedIgnoresLater(s, first, st.next, i, pay);
    HeldSize(st.held, i, pay(i));
  }

  lemma HoldFields(st: State, i: nat, p: Packet)
    requires st.next <= i
    ensures var h := Hold(st, i, p);
      && h.held == st.held[i := p] && h.emitted == st.emitted && h.next == st.next
      && h.first == st.first && h.started == st.started
  {
  }

  /** One push keeps the state a function of what it accepted: a packet behind
      next changes nothing. */
  lemma PushAccepts(st: State, s: set<nat>, first: nat, pay: int -> Packet, i: int)
    requires Inv(st) && Settled(st, s, first, pay)
    ensures AllFrom(st.held, Begin(st, i).next)
    ensures Settled(Push(st, i, pay(i)), if i >= st.next then s + {i as nat} else s, first, pay)
  {
    hide Release, Hold;
    var b := Begin(st, i);
    if i >= st.next {
      assert Settled(b, s, first, pay);
      HoldMirrors(b, s, first, pay, i);
      MoreAbove(s, i, first, st.next);
      ReleaseSettles(Hold(b, i, pay(i)), s + {i as nat}, first, pay);
    }
  }

  // ---- whole runs ---------------------------------------------------------------

  lemma SeenGrows(a: seq<int>, t: nat)
    requires 0 < t < |a| && a[0] >= 0
    ensures Seen(a, t + 1) == if a[t] >= a[0] then Seen(a, t) + {a[t] as nat} else Seen(a, t)
  {
    assert Seen(a, t) <= Seen(a, t + 1);
  }

  lemma FirstSettles(st: State, i: nat, pay: int -> Packet)
    requires Inv(st) && !st.started
    ensures AllFrom(st.held, Begin(st, i).next)
    ensures Settled(Push(st, i, pay(i)), {i}, i, pay)
  {
    hide Release, Hold;
    var b := Begin(st, i);
    var h := Hold(b, i, pay(i));
    assert h.held == map[i := pay(i)] && h.emitted == [] && h.next == i && h.first == i && h.started by {
      PlainHold(b, i, pay(i));
    }
    assert Sorted({i}, i, i, pay) == [];
    assert |h.held| == 1;
    ReleaseSettles(h, {i}, i, pay);
  }

  lemma PlainHold(st: State, i: nat, p: Packet)
    requires st.next == i && st.held == map[]
    ensures Hold(st, i, p).held == map[i := p] && Hold(st, i, p).emitted == st.emitted
    ensures Hold(st, i, p).next == i && Hold(st, i, p).first == st.first
    ensures Hold(st, i, p).started == st.started
  {
  }

  /** The indices that were not late among the first t arrivals. */
  ghost function Accepted(st: State, a: seq<int>, pay: int -> Packet, t: nat): set<nat>
    requires Inv(st) && !st.started && t <= |a| && (|a| > 0 ==> a[0] >= 0)
  {
    set u | 0 <= u < t && (u == 0 || a[u] >= Run(st, a, pay, u).next) :: a[u] as nat
  }

  lemma AcceptedGrows(st: State, a: seq<int>, pay: int -> Packet, t: nat)
    requires Inv(st) && !st.started && 0 < t < |a| && a[0] >= 0
    ensures Accepted(st, a, pay, t + 1)
         == if a[t] >= Run(st, a, pay, t).next then Accepted(st, a, pay, t) + {a[t] as nat}
            else Accepted(st, a, pay, t)
  {
    hide Run;
    assert Accepted(st, a, pay, t) <= Accepted(st, a, pay, t + 1);
  }

  /** After every arrival of any run whatever, the emitted packets are the accepted
      ones before next, in order, the held ones are those after it, and next is
      where it is because every hole behind it was overtaken. */
  lemma {:induction false} RunAccepts(st: State, a: seq<int>, pay: int -> Packet, t: nat)
    requires Inv(st) && !st.started && 0 < t <= |a| && a[0] >= 0
    ensures Settled(Run(st, a, pay, t), Accepted(st, a, pay, t), a[0], pay)
  {
    hide Settled, Push, Accepted, Inv;
    if t == 1 {
      FirstAccepted(st, a, pay);
      FirstSettles(st, a[0], pay);
      RunStep(st, a, pay, 0);
    } else {
      RunAccepts(st, a, pay, t - 1);
      PushAccepts(Run(st, a, pay, t - 1), Accepted(st, a, pay, t - 1), a[0], pay, a[t - 1]);
      AcceptedGrows(st, a, pay, t - 1);
      RunStep(st, a, pay, t - 1);
    }
  }

  lemma FirstAccepted(st: State, a: seq<int>, pay: int -> Packet)
    requires Inv(st) && !st.started && |a| > 0 && a[0] >= 0
    ensures Accepted(st, a, pay, 1) == {a[0] as nat} && Run(st, a, pay, 0) == st
  {
  }

  lemma {:induction false} NextGrows(st: State, a: seq<int>, pay: int -> Packet, u: nat, t: nat)
    requires Inv(st) && !st.started && 0 < u <= t <= |a| && a[0] >= 0
    ensures a[0] <= Run(st, a, pay, u).next <= Run(st, a, pay, t).next
    ensures Run(st, a, pay, u).late <= Run(st, a, pay, t).late
    decreases t
  {
    hide Push, Settled, Accepted, Inv;
    if u < t {
      NextGrows(st, a, pay, u, t - 1);
      RunStep(st, a, pay, t - 1);
      PushAdvances(Run(st, a, pay, t - 1), a[t - 1], pay(a[t - 1]));
    } else {
      RunAccepts(st, a, pay, u);
      SettledFrom(Run(st, a, pay, u), Accepted(st, a, pay, u), a[0], pay);
    }
  }

  lemma SettledFrom(st: State, s: set<nat>, first: nat, pay: int -> Packet)
    requires Settled(st, s, first, pay)
    ensures first <= st.next
    ensures forall k :: k in st.held <==> k in s && st.next <= k
  {
  }

  lemma PushAdvances(st: State, i: int, p: Packet)
    requires st.started && AllFrom(st.held, Begin(st, i).next)
    ensures var r := Push(st, i, p);
      r.next >= st.next && r.late == st.late + (if i < st.next then 1 else 0)
  {
    hide Drain;
    if i >= st.next {
      var h := Hold(Begin(st, i), i, p);
      HoldFields(Begin(st, i), i, p);
      DrainLate(h);
      var d := Drain(h);
      if |d.held| > SEQ_WINDOW { DrainLate(Skip(d)); }
    }
  }

  lemma {:induction false} DrainLate(st: State)
    ensures Drain(st).late == st.late && Drain(st).reordered == st.reordered
    decreases |st.held|
  {
    if st.next in st.held {
      ShrinksBy(st.held, st.next);
      DrainLate(DrainOne(st));
    }
  }

  /** Whatever arrived at or after next is held: an arrival that next has not
      passed since was not late. */
  lemma ArrivedAheadIsHeld(st: State, a: seq<int>, pay: int -> Packet, u: nat, t: nat)
    requires Inv(st) && !st.started && u < t <= |a| && a[0] >= 0
    requires a[u] >= Run(st, a, pay, t).next
    ensures a[u] in Run(st, a, pay, t).held
  {
    hide Settled, Run, Inv;
    RunAccepts(st, a, pay, t);
    SettledFrom(Run(st, a, pay, t), Accepted(st, a, pay, t), a[0], pay);
    if u > 0 { NextGrows(st, a, pay, u, t); }
    assert a[u] in Accepted(st, a, pay, t);
  }

  /** Lateness exactly, over any run: a packet from first on, arriving for the
      first time, is late if and only if more than 64 others have overtaken it. */
  lemma LateExactly(st: State, a: seq<int>, pay: int -> Packet, t: nat)
    requires Inv(st) && !st.started && 0 < t < |a| && a[0] >= 0
    requires a[t] >= a[0] && a[t] !in Seen(a, t)
    ensures a[t] < Run(st, a, pay, t).next <==> |Overtakers(a, t)| > SEQ_WINDOW
  {
    hide Run, Settled, Inv;
    var r, s := Run(st, a, pay, t), Accepted(st, a, pay, t);
    RunAccepts(st, a, pay, t);
    if a[t] < r.next {
      PassedIsOvertaken(r, s, a[0], pay, a[t]);
      assert Above(s, a[t]) <= Overtakers(a, t);
      SubsetSize(Above(s, a[t]), Overtakers(a, t));
    } else {
      forall k | k in Overtakers(a, t) ensures k in r.held {
        var u :| 0 <= u < t && 0 <= a[u] && a[u] > a[t] && k == a[u];
        ArrivedAheadIsHeld(st, a, pay, u, t);
      }
      WindowHolds(r, s, a[0], pay);
      SubsetSize(Overtakers(a, t), r.held.Keys);
    }
  }

  lemma PassedIsOvertaken(st: State, s: set<nat>, first: nat, pay: int -> Packet, x: nat)
    requires Settled(st, s, first, pay) && first <= x < st.next && x !in s
    ensures |Above(s, x)| > SEQ_WINDOW
  {
  }

  lemma WindowHolds(st: State, s: set<nat>, first: nat, pay: int -> Packet)
    requires Settled(st, s, first, pay)
    ensures |st.held.Keys| <= SEQ_WINDOW
  {
    assert |st.held.Keys| == |st.held|;
  }

  lemma BoundedMeans(a: seq<int>, t: nat)
    requires BoundedDisorder(a) && 0 < t <= |a|
    ensures a[0] >= 0 && Seen(a, 1) == {a[0] as nat}
    ensures t > 1 && a[t - 1] >= a[0] && a[t - 1] !in Seen(a, t - 1) ==> |Overtakers(a, t - 1)| <= SEQ_WINDOW
    ensures t > 1 && a[t - 1] in Seen(a, t - 1) ==> a[t - 1] >= a[0]
  {
  }

  /** In a boundedly disordered stream no first arrival from first on is late, so
      what was accepted is all that was seen. */
  lemma {:induction false} SeenIsAccepted(st: State, a: seq<int>, pay: int -> Packet, t: nat)
    requires Inv(st) && !st.started && BoundedDisorder(a) && 0 < t <= |a|
    ensures Seen(a, t) == Accepted(st, a, pay, t)
  {
    hide Run, Inv, Overtakers, Seen, Accepted, BoundedDisorder;
    BoundedMeans(a, t);
    if t == 1 {
      FirstAccepted(st, a, pay);
    } else {
      SeenIsAccepted(st, a, pay, t - 1);
      SeenGrows(a, t - 1);
      AcceptedGrows(st, a, pay, t - 1);
      NextGrows(st, a, pay, t - 1, t - 1);
      if a[t - 1] >= a[0] && a[t - 1] !in Seen(a, t - 1) { LateExactly(st, a, pay, t - 1); }
    }
  }

  /** So the emitted and held packets are those that arrived. */
  lemma RunSettles(st: State, a: seq<int>, pay: int -> Packet, t: nat)
    requires Inv(st) && !st.started && BoundedDisorder(a) && 0 < t <= |a|
    ensures Settled(Run(st, a, pay, t), Seen(a, t), a[0], pay)
  {
    SeenIsAccepted(st, a, pay, t);
    RunAccepts(st, a, pay, t);
  }

  lemma RunStep(st: State, a: seq<int>, pay: int -> Packet, t: nat)
    requires Inv(st) && !st.started && t < |a| && a[0] >= 0
    ensures AllFrom(Run(st, a, pay, t).held, Begin(Run(st, a, pay, t), a[t]).next)
    ensures Run(st, a, pay, t + 1) == Push(Run(st, a, pay, t), a[t], pay(a[t]))
  {
    PushKeeps(Run(st, a, pay, t), a[t], pay(a[t]));
  }

  lemma SettledAtFrontier(st: State, s: set<nat>, first: nat, pay: int -> Packet)
    requires Settled(st, s, first, pay)
    ensures IsFrontier(s, first, st.next)
  {
    assert Above(s, st.next) == st.held.Keys;
    assert |st.held.Keys| == |st.held|;
  }

  /** What has been emitted after t arrivals: a function of the set of indices
      that arrived, gaps included. */
  lemma EmitsArrivedBelowFrontier(st: State, a: seq<int>, pay: int -> Packet, t: nat)
    requires Inv(st) && !st.started && BoundedDisorder(a) && 0 < t <= |a|
    ensures var r := Run(st, a, pay, t);
      && a[0] <= r.next && IsFrontier(Seen(a, t), a[0], r.next)
      && r.emitted == Sorted(Seen(a, t), a[0], r.next, pay)
      && forall k :: k in r.held <==> k in Above(Seen(a, t), r.next)
  {
    hide Run, Seen, IsFrontier, BoundedDisorder, Sorted;
    RunSettles(st, a, pay, t);
    SettledAtFrontier(Run(st, a, pay, t), Seen(a, t), a[0], pay);
  }

  /** Order insensitivity: the same first packet and the same later packets, in
      any two orders of bounded disorder and with any duplicates, are emitted
      alike, and the same packets are still held. */
  lemma OrderInsensitive(st: State, a: seq<int>, b: seq<int>, pay: int -> Packet)
    requires Inv(st) && !st.started && BoundedDisorder(a) && BoundedDisorder(b)
    requires |a| > 0 && |b| > 0 && a[0] == b[0] && Seen(a, |a|) == Seen(b, |b|)
    ensures Run(st, a, pay, |a|).emitted == Run(st, b, pay, |b|).emitted
    ensures Run(st, a, pay, |a|).next == Run(st, b, pay, |b|).next
    ensures Run(st, a, pay, |a|).held.Keys == Run(st, b, pay, |b|).held.Keys
  {
    hide Run, Sorted, IsFrontier;
    EmitsArrivedBelowFrontier(st, a, pay, |a|);
    EmitsArrivedBelowFrontier(st, b, pay, |b|);
    FrontierUnique(Seen(a, |a|), a[0], Run(st, a, pay, |a|).next, Run(st, b, pay, |b|).next);
  }

  // ---- complete repair -----------------------------------------------------------

  ghost function Consecutive(first: nat, n: nat, pay: int -> Packet): (r: seq<(nat, Packet)>)
    ensures |r| == n
  {
    seq(n, j => (first + j, pay(first + j)))
  }

  lemma {:induction false} SortedFull(s: set<nat>, first: nat, n: nat, pay: int -> Packet)
    requires forall k: nat :: first <= k < first + n ==> k in s
    ensures Sorted(s, first, first + n, pay) == Consecutive(first, n, pay)
    decreases n
  {
    if n > 0 {
      SortedFull(s, first, n - 1, pay);
      assert Consecutive(first, n, pay) == Consecutive(first, n - 1, pay) + [(first + n - 1, pay(first + n - 1))];
    }
  }

  /** Repair, exactly: arrivals that permute consecutive indices starting at the
      first come out as the sorted sequence with nothing lost or late if and only
      if none was overtaken by more than 64 others. */
  lemma FullRepair(st: State, a: seq<int>, pay: int -> Packet, n: nat)
    requires Inv(st) && !st.started && |a| == n > 0 && a[0] >= 0
    requires forall k: nat :: k in Seen(a, n) <==> a[0] <= k < a[0] + n
    ensures var r := Run(st, a, pay, n);
      BoundedDisorder(a) <==>
        r.emitted == Consecutive(a[0], n, pay) && r.held == map[] && r.lost == 0 && r.late == 0
  {
    hide Run, Seen;
    if BoundedDisorder(a) {
      BoundedIsRepaired(st, a, pay, n);
    } else {
      var t :| 0 < t < |a| && a[t] >= a[0] && a[t] !in Seen(a, t) && |Overtakers(a, t)| > SEQ_WINDOW;
      LateExactly(st, a, pay, t);
      LateIsCounted(st, a, pay, t);
      NextGrows(st, a, pay, t + 1, n);
    }
  }

  lemma LateIsCounted(st: State, a: seq<int>, pay: int -> Packet, t: nat)
    requires Inv(st) && !st.started && 0 < t < |a| && a[0] >= 0 && a[t] < Run(st, a, pay, t).next
    ensures Run(st, a, pay, t + 1).late > 0
  {
    hide Push, Inv;
    RunStep(st, a, pay, t);
    PushAdvances(Run(st, a, pay, t), a[t], pay(a[t]));
  }

  lemma BoundedIsRepaired(st: State, a: seq<int>, pay: int -> Packet, n: nat)
    requires Inv(st) && !st.started && BoundedDisorder(a) && |a| == n > 0
    requires forall k: nat :: k in Seen(a, n) <==> a[0] <= k < a[0] + n
    ensures var r := Run(st, a, pay, n);
      && r.emitted == Consecutive(a[0], n, pay)
      && r.held == map[] && r.lost == 0 && r.late == 0
  {
    hide Run, Seen, IsFrontier, Above;
    var r, s := Run(st, a, pay, n), Seen(a, n);
    EmitsArrivedBelowFrontier(st, a, pay, n);
    FrontierOfAll(s, a[0], n, r.next);
    SortedFull(s, a[0], n, pay);
    CountsPushes(st, a, pay, n);
    NothingAbove(s, a[0], n);
    assert r.held == map[];
  }

  lemma NothingAbove(s: set<nat>, first: nat, n: nat)
    requires forall k: nat :: k in s <==> first <= k < first + n
    ensures Above(s, first + n) == {}
  {
  }

  lemma FrontierOfAll(s: set<nat>, first: nat, n: nat, x: nat)
    requires (forall k: nat :: k in s <==> first <= k < first + n) && IsFrontier(s, first, x)
    ensures x == first + n
  {
    NothingAbove(s, first, n);
    assert IsFrontier(s, first, first + n);
    FrontierUnique(s, first, x, first + n);
  }

  lemma {:induction false} CountsPushes(st: State, a: seq<int>, pay: int -> Packet, t: nat)
    requires Inv(st) && !st.started && t <= |a| && (|a| > 0 ==> a[0] >= 0)
    ensures Run(st, a, pay, t).pushes == t && (t > 0 ==> Run(st, a, pay, t).first == a[0])
  {
    hide Push, Kept;
    if t > 0 {
      CountsPushes(st, a, pay, t - 1);
      RunStep(st, a, pay, t - 1);
      PushCounts(Run(st, a, pay, t - 1), a[t - 1], pay(a[t - 1]));
    }
  }

  lemma PushCounts(st: State, i: int, p: Packet)
    requires (st.started || i >= 0) && AllFrom(st.held, Begin(st, i).next)
    ensures Push(st, i, p).pushes == st.pushes + 1
    ensures Push(st, i, p).first == if st.started then st.first else i
  {
    hide Drain;
    var b := Begin(st, i);
    if i >= b.next {
      var h := Hold(b, i, p);
      DrainCounts(h);
      var d := Drain(h);
      if |d.held| > SEQ_WINDOW { DrainCounts(Skip(d)); }
    }
  }

  lemma {:induction false} DrainCounts(st: State)
    ensures Drain(st).pushes == st.pushes && Drain(st).first == st.first
    decreases |st.held|
  {
    if st.next in st.held {
      ShrinksBy(st.held, st.next);
      DrainCounts(DrainOne(st));
    }
  }

  // ---- what Reordered counts -------------------------------------------------------

  /** The arrivals that came ahead of the packet waited for. */
  ghost function Early(st: State, a: seq<int>, pay: int -> Packet, t: nat): set<nat>
    requires Inv(st) && !st.started && t <= |a| && (|a| > 0 ==> a[0] >= 0)
  {
    set u: nat | 0 < u < t && a[u] > Run(st, a, pay, u).next
  }

  lemma EarlyGrows(st: State, a: seq<int>, pay: int -> Packet, t: nat)
    requires Inv(st) && !st.started && t < |a| && a[0] >= 0
    ensures |Early(st, a, pay, t + 1)|
         == |Early(st, a, pay, t)| + (if 0 < t && a[t] > Run(st, a, pay, t).next then 1 else 0)
  {
    hide Run, Inv;
    if 0 < t && a[t] > Run(st, a, pay, t).next {
      assert Early(st, a, pay, t + 1) == Early(st, a, pay, t) + {t};
    } else {
      assert Early(st, a, pay, t + 1) == Early(st, a, pay, t);
    }
  }

  /** Over any run Reordered counts exactly the arrivals ahead of next. */
  lemma {:induction false} ReorderedCounts(st: State, a: seq<int>, pay: int -> Packet, t: nat)
    requires Inv(st) && !st.started && t <= |a| && (|a| > 0 ==> a[0] >= 0)
    ensures Run(st, a, pay, t).reordered == st.reordered + |Early(st, a, pay, t)|
  {
    hide Push, Inv, Early;
    if t == 0 {
      NoneEarly(st, a, pay);
    } else {
      ReorderedCounts(st, a, pay, t - 1);
      EarlyGrows(st, a, pay, t - 1);
      RunStep(st, a, pay, t - 1);
      PushReorders(Run(st, a, pay, t - 1), a[t - 1], pay(a[t - 1]));
    }
  }

  lemma NoneEarly(st: State, a: seq<int>, pay: int -> Packet)
    requires Inv(st) && !st.started && (|a| > 0 ==> a[0] >= 0)
    ensures |Early(st, a, pay, 0)| == 0
  {
    hide Run, Inv;
    assert Early(st, a, pay, 0) == {};
  }

  lemma PushReorders(st: State, i: int, p: Packet)
    requires (st.started || i >= 0) && AllFrom(st.held, Begin(st, i).next)
    ensures Push(st, i, p).reordered
         == st.reordered + (if st.started && i > st.next then 1 else 0)
  {
    hide Drain;
    var b := Begin(st, i);
    if i >= b.next {
      var h := Hold(b, i, p);
      DrainLate(h);
      var d := Drain(h);
      if |d.held| > SEQ_WINDOW { DrainLate(Skip(d)); }
    }
  }

  /** A packet that arrives in time had been overtaken exactly when something held
      lies beyond it; so a counted packet was out of order exactly then. */
  lemma OvertakenExactly(st: State, a: seq<int>, pay: int -> Packet, t: nat)
    requires Inv(st) && !st.started && 0 < t < |a| && a[0] >= 0 && a[t] >= Run(st, a, pay, t).next
    ensures Overtakers(a, t) != {} <==> exists k :: k in Run(st, a, pay, t).held && k > a[t]
  {
    hide Run, Settled, Inv;
    var r, s := Run(st, a, pay, t), Accepted(st, a, pay, t);
    NextGrows(st, a, pay, t, t);
    RunAccepts(st, a, pay, t);
    SettledFrom(r, s, a[0], pay);
    if Overtakers(a, t) != {} {
      var k :| k in Overtakers(a, t);
      var u :| 0 <= u < t && 0 <= a[u] && a[u] > a[t] && k == a[u];
      ArrivedAheadIsHeld(st, a, pay, u, t);
    }
    if k :| k in r.held && k > a[t] {
      assert k in s;
      assert k in Overtakers(a, t);
    }
  }

  lemma {:induction false} SortedHas(s: set<nat>, first: nat, n: nat, pay: int -> Packet, k: nat)
    requires first <= k < n && k in s
    ensures (k, pay(k)) in Sorted(s, first, n, pay)
    decreases n
  {
    if k < n - 1 { SortedHas(s, first, n - 1, pay, k); }
  }

  /** No packet that came in time is lost: it is held until it is emitted. In
      particular every counted one is put in its place, or still waits for it. */
  lemma InTimeIsKept(st: State, a: seq<int>, pay: int -> Packet, u: nat, t: nat)
    requires Inv(st) && !st.started && u < t <= |a| && a[0] >= 0
    requires u == 0 || a[u] >= Run(st, a, pay, u).next
    ensures var r := Run(st, a, pay, t);
      if a[u] < r.next then a[0] <= a[u] && (a[u] as nat, pay(a[u])) in r.emitted else a[u] in r.held
  {
    hide Run, Settled, Inv, Sorted;
    var r, s := Run(st, a, pay, t), Accepted(st, a, pay, t);
    RunAccepts(st, a, pay, t);
    NextGrows(st, a, pay, t, t);
    SettledSorted(r, s, a[0], pay);
    if u > 0 { NextGrows(st, a, pay, u, u); }
    assert a[u] in s;
    if a[u] < r.next {
      SortedHas(s, a[0], r.next, pay, a[u]);
    } else {
      ArrivedAheadIsHeld(st, a, pay, u, t);
    }
  }

  lemma SettledSorted(st: State, s: set<nat>, first: nat, pay: int -> Packet)
    requires Settled(st, s, first, pay)
    ensures first <= st.next && st.emitted == Sorted(s, first, st.next, pay)
  {
  }

  /** The first packet and one that skips a place: Reordered is 1 and nothing has
      been put back. */
  lemma ReorderedWithoutRepair(st: State, pay: int -> Packet)
    requires Inv(st) && !st.started
    ensures var r := Run(st, [0, 2], pay, 2);
      && r.reordered == st.reordered + 1 && r.emitted == [(0, pay(0))] && r.held.Keys == {2}
      && Overtakers([0, 2], 1) == {}
  {
    hide Run, Settled, Inv;
    var a := [0, 2];
    var r1, r2 := Run(st, a, pay, 1), Run(st, a, pay, 2);
    assert BoundedDisorder(a);
    assert Seen(a, 1) == {0} && Seen(a, 2) == {0, 2};
    OneThenGap(st, a, pay);
    ReorderedCounts(st, a, pay, 2);
    assert Early(st, a, pay, 2) == {1};
  }

  lemma OneThenGap(st: State, a: seq<int>, pay: int -> Packet)
    requires Inv(st) && !st.started && BoundedDisorder(a) && a == [0, 2]
    requires Seen(a, 1) == {0} && Seen(a, 2) == {0, 2}
    ensures Run(st, a, pay, 1).next == 1
    ensures Run(st, a, pay, 2).emitted == [(0, pay(0))] && Run(st, a, pay, 2).held.Keys == {2}
  {
    hide Run, Inv, Seen;
    EmitsArrivedBelowFrontier(st, a, pay, 1);
    EmitsArrivedBelowFrontier(st, a, pay, 2);
    assert Above({0}, 1) == {} && Above({0, 2}, 1) == {2};
    assert IsFrontier({0}, 0, 1) && IsFrontier({0, 2}, 0, 1);
    FrontierUnique({0}, 0, 1, Run(st, a, pay, 1).next);
    FrontierUnique({0, 2}, 0, 1, Run(st, a, pay, 2).next);
    assert Sorted({0, 2}, 0, 1, pay) == [(0, pay(0))] by { assert Sorted({0, 2}, 0, 0, pay) == []; }
  }
}
