/** Runs of the 16-bit machine: fed only sequence numbers modulo 2^16, it goes
    through the unbounded machine's states. */
module WireRuns {
  import opened Sequencing
  import opened Disorder
  import opened Reorder

  /** The index that the object gives to a sequence number. */
  function IndexOf(st: State, s: nat): (i: int)
    ensures !st.started ==> i >= 0
  {
    if st.started then Unwrap(st.next, s) else s
  }

  /** The simulated machine after t packets given by sequence number. */
  ghost function RunWire(st: State, ws: seq<nat>, pk: seq<Packet>, t: nat): (r: State)
    requires Inv(st) && t <= |ws| == |pk|
    ensures Inv(r)
  {
    if t == 0 then st
    else
      var r := RunWire(st, ws, pk, t - 1);
      PushKeeps(r, IndexOf(r, ws[t - 1]), pk[t - 1]);
      Push(r, IndexOf(r, ws[t - 1]), pk[t - 1])
  }

  function Wires(a: seq<int>): (ws: seq<nat>)
    ensures |ws| == |a|
  {
    seq(|a|, u requires 0 <= u < |a| => Wire(a[u]))
  }

  function Pays(a: seq<int>, pay: int -> Packet): (pk: seq<Packet>)
    ensures |pk| == |a|
  {
    seq(|a|, u requires 0 <= u < |a| => pay(a[u]))
  }

  /** No packet jumps more than 32767 ahead of the position waited for when it
      arrives, nor trails it by more than 32768. */
  ghost predicate InReach(st: State, a: seq<int>, pay: int -> Packet)
    requires Inv(st) && !st.started && (|a| > 0 ==> a[0] >= 0)
  {
    && (|a| > 0 ==> a[0] < SEQ_SPACE)
    && forall t :: 0 < t < |a| ==>
         var nxt := Run(st, a, pay, t).next; nxt - HALF_SPACE <= a[t] < nxt + HALF_SPACE
  }

  /** On such a run, late packets and skipped holes included, the 16-bit machine is
      the unbounded one, step by step. */
  lemma {:induction false} WireRunIsRun(st: State, a: seq<int>, pay: int -> Packet, t: nat)
    requires Inv(st) && !st.started && t <= |a| && (|a| > 0 ==> a[0] >= 0) && InReach(st, a, pay)
    ensures RunWire(st, Wires(a), Pays(a, pay), t) == Run(st, a, pay, t)
  {
    hide Unwrap, Wire, Inv, Push;
    if t > 0 {
      WireRunIsRun(st, a, pay, t - 1);
      if t > 1 { UnwrapExactly(Run(st, a, pay, t - 1).next, a[t - 1]); } else { SmallWire(a[0]); }
      RunStep(st, a, pay, t - 1);
    }
  }

  /** The first packet out of reach, and no other, is given another index. */
  lemma OutOfReachIsMisread(st: State, a: seq<int>, pay: int -> Packet, t: nat)
    requires Inv(st) && !st.started && t < |a| && a[0] >= 0
    requires RunWire(st, Wires(a), Pays(a, pay), t) == Run(st, a, pay, t)
    ensures var r := Run(st, a, pay, t);
      IndexOf(r, Wires(a)[t]) == a[t] <==>
        if t == 0 then a[0] < SEQ_SPACE else r.next - HALF_SPACE <= a[t] < r.next + HALF_SPACE
  {
    hide Unwrap, Inv, Push;
    UnwrapExactly(Run(st, a, pay, t).next, a[t]);
  }

  lemma SmallWire(i: int)
    requires 0 <= i < SEQ_SPACE
    ensures Wire(i) == i
  {
  }

  /** The same reach measured from the arrivals alone. */
  ghost predicate NearFrontier(a: seq<int>)
  {
    && (|a| > 0 ==> 0 <= a[0] < SEQ_SPACE)
    && forall t, x: nat :: 0 < t < |a| && IsFrontier(Seen(a, t), a[0], x) ==>
         x - HALF_SPACE <= a[t] < x + HALF_SPACE
  }

  /** In bounded disorder the position waited for is the frontier. */
  lemma FrontierIsInReach(st: State, a: seq<int>, pay: int -> Packet)
    requires Inv(st) && !st.started && BoundedDisorder(a) && NearFrontier(a)
    ensures InReach(st, a, pay)
  {
    hide Run, Inv, Seen, IsFrontier, Sorted, Above, BoundedDisorder;
    forall t | 0 < t < |a|
      ensures var nxt := Run(st, a, pay, t).next; nxt - HALF_SPACE <= a[t] < nxt + HALF_SPACE
    {
      EmitsArrivedBelowFrontier(st, a, pay, t);
    }
  }
}
