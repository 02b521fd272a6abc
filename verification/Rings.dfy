/** The circular sample buffer of internal/audio/ring.go, and the bounded
    drop-oldest queue that any run of it agrees with. */
module Rings {
  import opened Words

  // ---- the queue ---------------------------------------------------------------

  /** The last cap elements. */
  function LastOf(s: seq<int>, cap: nat): (r: seq<int>)
    ensures |r| == Min(|s|, cap)
  {
    if |s| <= cap then s else s[|s| - cap..]
  }

  /** Writing one element at a time or all at once leaves the same queue. */
  lemma LastOfStep(s: seq<int>, x: int, cap: nat)
    requires cap > 0
    ensures LastOf(s + [x], cap) == (if |s| < cap then LastOf(s, cap) else LastOf(s, cap)[1..]) + [x]
  {
  }

  lemma LastOfAll(s: seq<int>, cap: nat)
    requires |s| <= cap
    ensures LastOf(s, cap) == s
  {
  }

  lemma LastOfTwice(s: seq<int>, xs: seq<int>, cap: nat)
    ensures LastOf(LastOf(s, cap) + xs, cap) == LastOf(s + xs, cap)
  {
    if |s| > cap {
      assert s + xs == s[..|s| - cap] + (LastOf(s, cap) + xs);
    }
  }

  // ---- the object --------------------------------------------------------------

  /** The position i places after r in a circle of cap places. */
  function Around(r: nat, i: nat, cap: nat): (p: nat)
    requires r < cap && i <= cap
    ensures p < cap
  {
    if r + i < cap then r + i else r + i - cap
  }

  lemma AroundIsMod(r: nat, i: nat, cap: nat)
    requires r < cap && i <= cap
    ensures (r + i) % cap == Around(r, i, cap)
  {
    if r + i < cap {
      DivModUnique(0, cap, r + i);
    } else {
      DivModUnique(1, cap, r + i - cap);
    }
  }

  lemma AroundNext(r: nat, i: nat, cap: nat)
    requires r < cap && 0 < i <= cap
    ensures Around(Around(r, 1, cap), i - 1, cap) == Around(r, i, cap)
  {
  }

  class Ring {
    const buf: array<int16>
    var r: nat
    var w: nat
    var n: nat

    /** The one-slot wake channel: whether it holds a token. */
    var wake: bool

    var underrun: nat
    var dropped: nat

    constructor (capacity: nat)
      requires capacity > 0
      ensures Valid() && fresh(buf) && buf.Length == capacity && Contents() == []
      ensures underrun == 0 && dropped == 0 && !wake
    {
      buf := new int16[capacity](_ => 0);
      r, w, n := 0, 0, 0;
      wake := false;
      underrun, dropped := 0, 0;
    }

    ghost predicate Valid()
      reads this
    {
      buf.Length > 0 && r < buf.Length && n <= buf.Length && w == Around(r, n, buf.Length)
    }

    ghost function Contents(): (s: seq<int>)
      requires Valid()
      reads this, buf
      ensures |s| == n
    {
      seq(n, i requires 0 <= i < n && Valid() reads this, buf => buf[Around(r, i, buf.Length)] as int)
    }

    /** The write index is the read index plus the count, modulo the capacity. */
    lemma WriteIndex()
      requires Valid()
      ensures (r + n) % buf.Length == w
    {
      AroundIsMod(r, n, buf.Length);
    }

    /** One turn of Write's loop. */
    method WriteOne(s: int16)
      requires Valid()
      modifies this`r, this`w, this`n, this`dropped, buf
      ensures Valid() && Contents() == LastOf(old(Contents()) + [s], buf.Length)
      ensures dropped == old(dropped) + (if old(n) == buf.Length then 1 else 0)
    {
      ghost var was, cap := Contents(), buf.Length;
      LastOfStep(was, s, cap);
      AroundIsMod(r, 1, cap);
      AroundIsMod(w, 1, cap);
      if n == buf.Length {
        r := (r + 1) % buf.Length;
        n := n - 1;
        dropped := dropped + 1;
        assert Contents() == was[1..] by { ShiftedContents(was); }
      }
      ghost var kept := Contents();
      buf[w] := s;
      w := (w + 1) % buf.Length;
      n := n + 1;
      assert Contents() == kept + [s];
    }

    /** After dropping the oldest, what remains is the tail. */
    twostate lemma ShiftedContents(was: seq<int>)
      requires old(Valid()) && Valid() && was == old(Contents()) && old(n) > 0
      requires n == old(n) - 1 && r == Around(old(r), 1, buf.Length)
      requires forall i :: 0 <= i < buf.Length ==> buf[i] == old(buf[i])
      ensures Contents() == was[1..]
    {
      forall i | 0 <= i < n ensures Contents()[i] == was[1..][i] {
        AroundNext(old(r), i + 1, buf.Length);
      }
    }

    /** Write: each sample in turn takes the place of the oldest once the ring is
        full; then a token is posted unless one is pending. */
    method Write(samples: seq<int16>)
      requires Valid()
      modifies this`r, this`w, this`n, this`dropped, this`wake, buf
      ensures Valid() && wake
      ensures Contents() == LastOf(old(Contents()) + samples, buf.Length)
      ensures dropped == old(dropped) + Max(0, old(n) + |samples| - buf.Length)
    {
      hide LastOf, Around;
      ghost var was := Contents();
      var i := 0;
      LastOfAll(was, buf.Length);
      assert was + samples[..0] == was;
      while i < |samples|
        invariant 0 <= i <= |samples| && Valid()
        invariant Contents() == LastOf(was + samples[..i], buf.Length)
        invariant dropped == old(dropped) + Max(0, |was| + i - buf.Length)
      {
        LastOfTwice(was + samples[..i], [samples[i]], buf.Length);
        assert was + samples[..i + 1] == was + samples[..i] + [samples[i]];
        WriteOne(samples[i]);
        i := i + 1;
      }
      assert samples[..i] == samples;
      wake := true;
    }

    /** take: moves up to dst.Length - lo samples out, into dst from lo on. */
    method Take(dst: array<int16>, lo: nat) returns (got: nat)
      requires Valid() && lo <= dst.Length && dst != buf
      modifies this`r, this`n, dst
      ensures Valid() && got == Min(dst.Length - lo, old(n))
      ensures dst[lo..lo + got] == old(Contents())[..got] && Contents() == old(Contents())[got..]
      ensures dst[..lo] == old(dst[..lo]) && dst[lo + got..] == old(dst[lo + got..])
    {
      ghost var was := Contents();
      got := 0;
      while lo + got < dst.Length && n > 0
        invariant lo + got <= dst.Length && got <= |was| && n == |was| - got && Valid()
        invariant Contents() == was[got..] && dst[lo..lo + got] == was[..got]
        invariant dst[..lo] == old(dst[..lo]) && dst[lo + got..] == old(dst[lo + got..])
        decreases n
      {
        label Before:
        ghost var here := Contents();
        dst[lo + got] := buf[r];
        AroundIsMod(r, 1, buf.Length);
        r := (r + 1) % buf.Length;
        n := n - 1;
        got := got + 1;
        ShiftedContents@Before(here);
      }
    }

    /** Read with no wait: what is there now, and silence for the rest. */
    method ReadNow(dst: array<int16>) returns (got: nat)
      requires Valid() && dst != buf
      modifies this`r, this`n, this`underrun, dst
      ensures Valid() && got == Min(dst.Length, old(n))
      ensures dst[..got] == old(Contents())[..got] && Contents() == old(Contents())[got..]
      ensures forall i :: got <= i < dst.Length ==> dst[i] == 0
      ensures underrun == old(underrun) + (dst.Length - got)
    {
      got := Take(dst, 0);
      if got == dst.Length {
        return;
      }
      ghost var c := Contents();
      underrun := underrun + (dst.Length - got);
      var i := got;
      while i < dst.Length
        invariant got <= i <= dst.Length && Valid() && Contents() == c
        invariant underrun == old(underrun) + (dst.Length - got)
        invariant dst[..got] == old(Contents())[..got]
        invariant forall j :: got <= j < i ==> dst[j] == 0
      {
        dst[i] := 0;
        i := i + 1;
      }
    }

    /** Len. */
    method Len() returns (k: nat)
      requires Valid()
      ensures k == |Contents()|
    {
      k := n;
    }

    /** Reset: an empty ring with fresh counters; a pending token stays. */
    method Reset()
      requires buf.Length > 0
      modifies this`r, this`w, this`n, this`underrun, this`dropped
      ensures Valid() && Contents() == [] && underrun == 0 && dropped == 0
    {
      r, w, n := 0, 0, 0;
      underrun, dropped := 0, 0;
    }
  }

  // ---- whole runs ----------------------------------------------------------------

  datatype Event = Write(xs: seq<int16>) | Read(k: nat) | Reset

  /** The queue with its history since the last reset: every sample written, the
      index of the oldest one still queued, and the index of each one read. */
  datatype Queue = Queue(written: seq<int>, head: nat, taken: seq<nat>, dropped: nat, underrun: nat)

  const EMPTY := Queue([], 0, [], 0, 0)

  ghost predicate ValidQueue(q: Queue, cap: nat)
  {
    q.head <= |q.written| && |q.written| - q.head <= cap
  }

  function Queued(q: Queue): seq<int>
    requires q.head <= |q.written|
  {
    q.written[q.head..]
  }

  function Step(q: Queue, e: Event, cap: nat): (r: Queue)
    requires ValidQueue(q, cap)
    ensures ValidQueue(r, cap)
  {
    match e
    case Write(xs) =>
      var written := q.written + xs;
      var head := Max(q.head, |written| - cap);
      q.(written := written, head := head, dropped := q.dropped + (head - q.head))
    case Read(k) =>
      var got := Min(k, |q.written| - q.head);
      q.(head := q.head + got, taken := q.taken + seq(got, i => q.head + i),
         underrun := q.underrun + (k - got))
    case Reset => EMPTY
  }

  function Steps(events: seq<Event>, n: nat, cap: nat): (q: Queue)
    requires n <= |events|
    ensures ValidQueue(q, cap)
  {
    if n == 0 then EMPTY else Step(Steps(events, n - 1, cap), events[n - 1], cap)
  }

  /** Reads form an in-order subsequence of what was written: their indices
      increase strictly and lie before the queue. */
  ghost predicate ReadsInOrder(q: Queue)
  {
    && (forall i, j :: 0 <= i < j < |q.taken| ==> q.taken[i] < q.taken[j])
    && (forall i :: 0 <= i < |q.taken| ==> q.taken[i] < q.head)
  }

  lemma StepInOrder(q: Queue, e: Event, cap: nat)
    requires ValidQueue(q, cap) && ReadsInOrder(q)
    ensures ReadsInOrder(Step(q, e, cap))
  {
  }

  /** Conservation and order over every run: whatever the interleaving, each
      sample written since the last reset was read, dropped or is still queued. */
  lemma {:induction false} RunsConserve(events: seq<Event>, n: nat, cap: nat)
    requires n <= |events|
    ensures var q := Steps(events, n, cap);
      && |q.written| == |q.taken| + q.dropped + |Queued(q)|
      && ReadsInOrder(q)
  {
    if n > 0 { RunsConserve(events, n - 1, cap); }
  }

  /** The queue's contents follow the drop-oldest rule. */
  lemma StepQueued(q: Queue, e: Event, cap: nat)
    requires ValidQueue(q, cap)
    ensures var r := Step(q, e, cap);
      match e
      case Write(xs) => Queued(r) == LastOf(Queued(q) + xs, cap)
                        && r.dropped == q.dropped + Max(0, |Queued(q)| + |xs| - cap)
      case Read(k) => Queued(r) == Queued(q)[Min(k, |Queued(q)|)..]
      case Reset => Queued(r) == []
  {
    match e
    case Write(xs) =>
      assert (q.written + xs)[q.head..] == Queued(q) + xs;
    case _ =>
  }

  /** What the ring and the samples read from it show of a queue. */
  ghost predicate Agrees(ring: Ring, out: seq<int>, q: Queue)
    reads ring, ring.buf
  {
    && ring.Valid() && q.head <= |q.written|
    && ring.Contents() == Queued(q) && ring.dropped == q.dropped && ring.underrun == q.underrun
    && |out| == |q.taken| && forall j :: 0 <= j < |out| ==>
         q.taken[j] < |q.written| && out[j] == q.written[q.taken[j]]
  }

  /** One event on the object. */
  method Perform(ring: Ring, e: Event, out: seq<int>, ghost q: Queue) returns (out': seq<int>)
    requires Agrees(ring, out, q) && ValidQueue(q, ring.buf.Length)
    modifies ring, ring.buf
    ensures Agrees(ring, out', Step(q, e, ring.buf.Length))
  {
    hide LastOf, Around;
    StepQueued(q, e, ring.buf.Length);
    match e {
      case Write(xs) =>
        ring.Write(xs);
        out' := out;
      case Read(k) =>
        var dst := new int16[k](_ => 0);
        var got := ring.ReadNow(dst);
        out' := out + dst[..got];
      case Reset =>
        ring.Reset();
        out' := [];
    }
  }

  /** Any run of the object agrees with the queue; out collects what was read,
      silence left out. */
  method Replay(ring: Ring, events: seq<Event>) returns (out: seq<int>)
    requires Agrees(ring, [], EMPTY)
    modifies ring, ring.buf
    ensures Agrees(ring, out, Steps(events, |events|, ring.buf.Length))
  {
    hide Agrees, Step;
    out := [];
    for e := 0 to |events|
      invariant Agrees(ring, out, Steps(events, e, ring.buf.Length))
    {
      out := Perform(ring, events[e], out, Steps(events, e, ring.buf.Length));
    }
  }
}
