/** What the RTP resequencer of internal/raop/reorder.go does, over unbounded
    packet indices (the extended sequence numbers of section 5.1 of RFC 3550),
    and what every push keeps. */
module Sequencing {
  import opened Words

  const SEQ_WINDOW := 64
  const SEQ_SPACE := 0x1_0000
  const HALF_SPACE := 0x8000

  type Packet = seq<byte>

  type SeqNumber = s: int | 0 <= s < SEQ_SPACE

  // ---- the unbounded machine ---------------------------------------------------

  datatype Request = Request(first: nat, count: nat)

  /** The resequencer over unbounded indices. emitted and asked are histories;
      overwritten counts packets replaced by a duplicate while they were held. */
  datatype State = State(
    started: bool, first: nat, next: nat, held: map<nat, Packet>,
    emitted: seq<(nat, Packet)>,
    callback: bool, haveRequested: bool, requested: SeqNumber, asked: seq<Request>,
    reordered: nat, lost: nat, late: nat, overwritten: nat, pushes: nat)

  ghost predicate AllFrom(held: map<nat, Packet>, lo: int)
  {
    forall k :: k in held ==> lo <= k
  }

  lemma ShrinksBy(m: map<nat, Packet>, k: nat)
    requires k in m
    ensures |m - {k}| == |m| - 1
  {
    assert (m - {k}).Keys == m.Keys - {k};
  }

  /** Removes consecutive packets from next on. */
  function Drain(st: State): (r: State)
    ensures r.next !in r.held && st.next <= r.next && |r.held| <= |st.held|
    ensures AllFrom(st.held, st.next) ==> AllFrom(r.held, r.next)
    ensures st.next in st.held ==> |r.held| < |st.held|
    decreases |st.held|
  {
    if st.next !in st.held then st
    else
      ShrinksBy(st.held, st.next);
      Drain(DrainOne(st))
  }

  function DrainOne(st: State): State
    requires st.next in st.held
  {
    st.(held := st.held - {st.next}, next := st.next + 1,
        emitted := st.emitted + [(st.next, st.held[st.next])])
  }

  lemma DrainOneFields(st: State)
    requires st.next in st.held
    ensures var r := DrainOne(st);
      && r.held == st.held - {st.next} && r.next == st.next + 1
      && r.emitted == st.emitted + [(st.next, st.held[st.next])]
      && r.started == st.started && r.callback == st.callback
      && r.haveRequested == st.haveRequested && r.requested == st.requested && r.asked == st.asked
      && r.reordered == st.reordered && r.lost == st.lost && r.late == st.late
  {
  }

  lemma DrainSteps(st: State)
    ensures if st.next in st.held then Drain(st) == Drain(DrainOne(st)) else Drain(st) == st
  {
  }

  ghost predicate IsLeast(keys: set<nat>, k: nat)
  {
    k in keys && forall j :: j in keys ==> k <= j
  }

  lemma LeastExists(keys: set<nat>) returns (k: nat)
    requires |keys| > 0
    ensures IsLeast(keys, k)
    decreases |keys|
  {
    var some :| some in keys;
    k := some;
    var rest := keys - {k};
    if |rest| > 0 {
      var j := LeastExists(rest);
      assert forall x :: x in keys ==> x == some || x in rest;
      if j < k { k := j; }
    } else {
      assert keys == {k};
    }
  }

  ghost function Least(keys: set<nat>): (k: nat)
    requires |keys| > 0
    ensures IsLeast(keys, k)
  {
    assert exists k :: IsLeast(keys, k) by { var k := LeastExists(keys); }
    var k :| IsLeast(keys, k);
    k
  }

  /** Gives up on the hole: next moves to the nearest held packet. */
  ghost function Skip(st: State): (r: State)
    requires AllFrom(st.held, st.next) && |st.held| > 0
    ensures AllFrom(r.held, r.next) && r.next in r.held && st.next <= r.next
  {
    assert |st.held.Keys| == |st.held|;
    var best := Least(st.held.Keys);
    st.(lost := st.lost + (best - st.next), next := best)
  }

  /** Asks for everything from next to i, unless this gap was the last one asked
      about or is wider than the window. The remembered gap is a 16-bit number. */
  function Ask(st: State, i: nat): State
    requires st.next < i
  {
    if !st.callback || (st.haveRequested && st.requested == st.next % SEQ_SPACE)
       || i - st.next > SEQ_WINDOW then st
    else
      st.(requested := st.next % SEQ_SPACE, haveRequested := true,
          asked := st.asked + [Request(st.next, i - st.next)])
  }

  function Begin(st: State, i: int): State
    requires st.started || i >= 0
  {
    var s := st.(pushes := st.pushes + 1);
    if st.started then s else s.(started := true, first := i, next := i)
  }

  /** Holds a packet that is not late. */
  function Hold(st: State, i: nat, p: Packet): State
    requires st.next <= i
  {
    var s := if i == st.next then st else Ask(st.(reordered := st.reordered + 1), i);
    s.(held := s.held[i := p],
       overwritten := if i in s.held then s.overwritten + 1 else s.overwritten)
  }

  /** Drains, and if the window is still overfull skips the hole and drains again. */
  ghost function Release(st: State): State
    requires AllFrom(st.held, st.next)
  {
    var s := Drain(st);
    if |s.held| > SEQ_WINDOW then Drain(Skip(s)) else s
  }

  ghost function Push(st: State, i: int, p: Packet): State
    requires st.started || i >= 0
    requires AllFrom(st.held, Begin(st, i).next)
  {
    var s := Begin(st, i);
    if i < s.next then s.(late := s.late + 1) else Release(Hold(s, i, p))
  }

  // ---- what every push keeps ---------------------------------------------------

  ghost predicate Increasing(emitted: seq<(nat, Packet)>)
  {
    forall i, j :: 0 <= i < j < |emitted| ==> emitted[i].0 < emitted[j].0
  }

  ghost predicate EmittedWithin(st: State)
  {
    Increasing(st.emitted) && forall i :: 0 <= i < |st.emitted| ==> st.first <= st.emitted[i].0 < st.next
  }

  /** Every index from first to next was emitted or counted lost, and every push
      was late, emitted, held or overwritten. */
  ghost predicate Conserves(st: State)
  {
    && st.first <= st.next
    && |st.emitted| + st.lost == st.next - st.first
    && st.pushes == st.late + |st.emitted| + |st.held| + st.overwritten
  }

  /** Requests have increasing first positions and counts within the window, and
      the 16-bit memory is the last of them. */
  ghost predicate AsksInOrder(st: State)
  {
    && (forall i, j :: 0 <= i < j < |st.asked| ==> st.asked[i].first < st.asked[j].first)
    && (forall i :: 0 <= i < |st.asked| ==> 1 <= st.asked[i].count <= SEQ_WINDOW)
    && (|st.asked| > 0 ==>
          var last := st.asked[|st.asked| - 1];
          last.first <= st.next && st.haveRequested && st.requested == last.first % SEQ_SPACE)
  }

  ghost predicate Kept(st: State)
  {
    AllFrom(st.held, st.next) && EmittedWithin(st) && Conserves(st) && AsksInOrder(st)
  }

  /** Between pushes the window is not exceeded and next is missing. */
  ghost predicate Inv(st: State)
  {
    && Kept(st) && |st.held| <= SEQ_WINDOW && st.next !in st.held
    && (!st.started ==> st.held == map[] && st.emitted == [] && st.asked == [] && st.pushes == 0
                        && st.lost == 0 && st.late == 0 && st.overwritten == 0)
  }

  lemma DrainOneKeeps(st: State)
    requires Kept(st) && st.next in st.held
    ensures Kept(DrainOne(st))
  {
    ShrinksBy(st.held, st.next);
  }

  lemma {:induction false} DrainKeeps(st: State)
    requires Kept(st)
    ensures Kept(Drain(st)) && Drain(st).started == st.started
    decreases |st.held|
  {
    if st.next in st.held {
      hide Kept;
      ShrinksBy(st.held, st.next);
      DrainOneKeeps(st);
      DrainKeeps(DrainOne(st));
    }
  }

  lemma SkipKeeps(st: State)
    requires Kept(st) && |st.held| > 0
    ensures Kept(Skip(st))
  {
  }

  lemma HoldKeeps(st: State, i: nat, p: Packet)
    requires Kept(st) && st.next <= i && st.next !in st.held
    requires st.started
    ensures Kept(Hold(st, i, p).(pushes := st.pushes + 1))
    ensures |Hold(st, i, p).held| <= |st.held| + 1
  {
    AskKeeps(st.(reordered := st.reordered + 1), i);
    AskOnlyAsks(st.(reordered := st.reordered + 1), i);
    hide Ask, AsksInOrder;
    HeldSize(st.held, i, p);
    assert AsksInOrder(Hold(st, i, p).(pushes := st.pushes + 1)) by {
      HoldAsks(st, i, p);
    }
  }

  lemma HoldAsks(st: State, i: nat, p: Packet)
    requires AsksInOrder(st) && st.next <= i
    ensures AsksInOrder(Hold(st, i, p).(pushes := st.pushes + 1))
  {
    hide Ask, AsksInOrder;
    var s := st.(reordered := st.reordered + 1);
    AsksKept(st, s);
    AskKeeps(s, i);
    AskOnlyAsks(s, i);
    AsksKept(if i == st.next then st else Ask(s, i), Hold(st, i, p).(pushes := st.pushes + 1));
  }

  lemma AsksKept(st: State, r: State)
    requires AsksInOrder(st) && r.asked == st.asked && r.next == st.next
    requires r.haveRequested == st.haveRequested && r.requested == st.requested
    ensures AsksInOrder(r)
  {
  }

  lemma HeldSize(held: map<nat, Packet>, i: nat, p: Packet)
    ensures |held[i := p]| == if i in held then |held| else |held| + 1
  {
    assert held[i := p].Keys == held.Keys + {i};
  }

  /** Asking changes nothing but the record of requests. */
  lemma AskOnlyAsks(st: State, i: nat)
    requires st.next <= i
    ensures i > st.next ==>
      var r := Ask(st, i);
      && r.held == st.held && r.next == st.next && r.first == st.first && r.started == st.started
      && r.overwritten == st.overwritten && r.emitted == st.emitted
      && r.lost == st.lost && r.late == st.late && r.pushes == st.pushes
  {
  }

  lemma AskKeeps(st: State, i: nat)
    requires AsksInOrder(st) && st.next <= i
    ensures i > st.next ==> AsksInOrder(Ask(st, i))
  {
  }

  lemma ReleaseKeeps(st: State)
    requires Kept(st) && |st.held| <= SEQ_WINDOW + 1
    ensures Kept(Release(st)) && Release(st).started == st.started
    ensures |Release(st).held| <= SEQ_WINDOW && Release(st).next !in Release(st).held
  {
    hide Kept, Drain;
    DrainKeeps(st);
    var d := Drain(st);
    if |d.held| > SEQ_WINDOW {
      SkipKeeps(d);
      DrainKeeps(Skip(d));
    }
  }

  /** The invariant holds in every reachable state. */
  lemma PushKeeps(st: State, i: int, p: Packet)
    requires Inv(st) && (st.started || i >= 0)
    ensures AllFrom(st.held, Begin(st, i).next)
    ensures Inv(Push(st, i, p)) && Push(st, i, p).started
  {
    hide Kept, Release, Hold;
    var s := Begin(st, i);
    BeginKeeps(st, i);
    if i >= s.next {
      HoldKeeps(s.(pushes := st.pushes), i, p);
      HoldIgnoresPushes(s, i, p, st.pushes);
      ReleaseKeeps(Hold(s, i, p));
    } else {
      LateKeeps(s.(pushes := st.pushes));
    }
  }

  lemma BeginKeeps(st: State, i: int)
    requires Inv(st) && (st.started || i >= 0)
    ensures Kept(Begin(st, i).(pushes := st.pushes)) && AllFrom(st.held, Begin(st, i).next)
  {
  }

  lemma LateKeeps(st: State)
    requires Kept(st)
    ensures Kept(st.(pushes := st.pushes + 1, late := st.late + 1))
  {
  }

  lemma HoldIgnoresPushes(s: State, i: nat, p: Packet, n: nat)
    requires s.next <= i && s.pushes == n + 1
    ensures Hold(s, i, p) == Hold(s.(pushes := n), i, p).(pushes := n + 1)
    ensures Hold(s, i, p).started == s.started
  {
  }

  lemma NextIsMissing(st: State)
    requires Inv(st)
    ensures st.next !in st.held && forall j :: 0 <= j < |st.emitted| ==> st.emitted[j].0 != st.next
  {
  }

  /** A push asks at most once: for everything from the missing packet up to the
      one that arrived. What it asks for first is neither held nor emitted. */
  lemma AskDiscipline(st: State, i: int, p: Packet)
    requires Inv(st) && (st.started || i >= 0)
    ensures var asked := (PushKeeps(st, i, p); Push(st, i, p).asked);
      asked == st.asked
      || (i > st.next && asked == st.asked + [Request(st.next, i - st.next)]
          && 1 <= i - st.next <= SEQ_WINDOW
          && st.next !in st.held && forall j :: 0 <= j < |st.emitted| ==> st.emitted[j].0 != st.next)
  {
    hide Kept, Release, AsksInOrder;
    PushKeeps(st, i, p);
    NextIsMissing(st);
    var s := Begin(st, i);
    if i >= s.next { ReleaseAsksNothing(Hold(s, i, p)); }
  }

  lemma ReleaseAsksNothing(st: State)
    requires AllFrom(st.held, st.next)
    ensures Release(st).asked == st.asked
  {
    DrainEmits(st);
    var d := Drain(st);
    if |d.held| > SEQ_WINDOW { DrainEmits(Skip(d)); }
  }

  /** Draining only appends to the emitted packets. */
  lemma {:induction false} DrainEmits(st: State)
    ensures st.emitted <= Drain(st).emitted && Drain(st).asked == st.asked
    decreases |st.held|
  {
    if st.next in st.held {
      ShrinksBy(st.held, st.next);
      DrainEmits(DrainOne(st));
    }
  }

  lemma SkipEmits(st: State)
    requires AllFrom(st.held, st.next)
    ensures |st.held| > 0 ==> Skip(st).emitted == st.emitted
  {
  }

  /** Nothing that was emitted is taken back. */
  lemma PushEmits(st: State, i: int, p: Packet)
    requires (st.started || i >= 0) && AllFrom(st.held, Begin(st, i).next)
    ensures st.emitted <= Push(st, i, p).emitted
  {
    hide Drain, Skip;
    var s := Begin(st, i);
    if i >= s.next {
      var h := Hold(s, i, p);
      DrainEmits(h);
      SkipEmits(Drain(h));
      if |Drain(h).held| > SEQ_WINDOW { DrainEmits(Skip(Drain(h))); }
    }
  }
}
