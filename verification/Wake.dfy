/** The wake-token protocol between Write and WaitFor of internal/audio/ring.go,
    as interleaved steps: a writer adds samples under the lock and posts its token
    only after releasing it, and one waiter checks the length, parks, and is woken
    by a token or by its timer. */
module Wake {
  import opened Words

  datatype Waiter = Starting | Parked | Woken | Expired | Finished(ok: bool)

  /** writers[i] says that writer i has added samples and has still to post. The
      last three fields are history: the level at the waiter's last check, whether
      samples were added since, and whether the buffer was reset since. */
  datatype State = State(level: nat, token: bool, writers: seq<bool>, waiter: Waiter,
                         lastLevel: nat, added: bool, wasReset: bool)

  /** The capacity of the ring and the length waited for. */
  datatype Setup = Setup(cap: nat, need: nat)

  datatype Action =
    | Add(i: nat, k: nat)
    | Post(i: nat)
    | Check
    | Receive
    | Expire
    | Reset

  ghost predicate Enabled(s: State, a: Action)
  {
    match a
    case Add(i, k) => i < |s.writers| && !s.writers[i]
    case Post(i) => i < |s.writers| && s.writers[i]
    case Check => s.waiter.Starting? || s.waiter.Woken? || s.waiter.Expired?
    case Receive => s.waiter.Parked? && s.token
    case Expire => s.waiter.Parked?
    case Reset => true
  }

  function Checked(w: Waiter, enough: bool): Waiter
  {
    if enough then Finished(true) else if w.Expired? then Finished(false) else Parked
  }

  function Act(u: Setup, s: State, a: Action): State
    requires Enabled(s, a)
  {
    match a
    case Add(i, k) =>
      s.(level := Min(u.cap, s.level + k), writers := s.writers[i := true], added := s.added || k > 0)
    case Post(i) =>
      s.(token := true, writers := s.writers[i := false])
    case Check =>
      s.(waiter := Checked(s.waiter, s.level >= u.need), lastLevel := s.level, added := false,
         wasReset := false)
    case Receive =>
      s.(token := false, waiter := Woken)
    case Expire =>
      s.(waiter := Expired)
    case Reset =>
      s.(level := 0, wasReset := true)
  }

  /** Before WaitFor is called: any level, any token, any writers under way. */
  ghost predicate Initial(u: Setup, s: State)
  {
    s.waiter.Starting? && s.level <= u.cap
  }

  ghost function After(u: Setup, s: State, steps: seq<Action>, n: nat): Option<State>
    requires n <= |steps|
  {
    if n == 0 then Some(s)
    else
      match After(u, s, steps, n - 1)
      case None => None
      case Some(t) => if Enabled(t, steps[n - 1]) then Some(Act(u, t, steps[n - 1])) else None
  }

  ghost predicate PostComing(s: State)
  {
    exists i: nat :: i < |s.writers| && s.writers[i]
  }

  /** A parked waiter has a wake-up in store for everything added since its last
      check: the token, or a writer that has still to post it. */
  ghost predicate NoLostWakeUp(s: State)
  {
    s.waiter.Parked? && s.added ==> s.token || PostComing(s)
  }

  ghost predicate Sound(u: Setup, s: State)
  {
    && s.level <= u.cap
    && NoLostWakeUp(s)
    && (s.waiter.Parked? || s.waiter.Woken? || s.waiter.Expired? ==> s.lastLevel < u.need)
    && (!s.waiter.Starting? && s.level > s.lastLevel ==> s.added)
    && (s.waiter.Finished? ==> (s.waiter.ok <==> s.lastLevel >= u.need))
    && (!s.waiter.Starting? && !s.wasReset ==> s.level >= s.lastLevel)
  }

  lemma ActKeeps(u: Setup, s: State, a: Action)
    requires Sound(u, s) && Enabled(s, a)
    ensures Sound(u, Act(u, s, a))
  {
    var r := Act(u, s, a);
    match a
    case Add(i, k) =>
      assert r.writers[i];
    case Post(i) =>
    case _ =>
      if PostComing(s) {
        var i: nat :| i < |s.writers| && s.writers[i];
        assert r.writers[i];
      }
  }

  lemma {:induction false} RunKeeps(u: Setup, s: State, steps: seq<Action>, n: nat)
    requires Initial(u, s) && n <= |steps| && After(u, s, steps, n).Some?
    ensures Sound(u, After(u, s, steps, n).value)
  {
    hide Sound;
    if n == 0 {
      InitialSound(u, s);
    } else {
      RunKeeps(u, s, steps, n - 1);
      ActKeeps(u, After(u, s, steps, n - 1).value, steps[n - 1]);
    }
  }

  lemma InitialSound(u: Setup, s: State)
    requires Initial(u, s)
    ensures Sound(u, s)
  {
  }

  /** No lost wake-up, over every steps: a waiter is never parked beside enough
      samples unless a token is waiting or a writer has still to post one. */
  lemma NeverParkedOnEnough(u: Setup, s: State, steps: seq<Action>, n: nat)
    requires Initial(u, s) && n <= |steps| && After(u, s, steps, n).Some?
    ensures var t := After(u, s, steps, n).value;
      t.waiter.Parked? && (t.added || t.level >= u.need) ==> t.token || PostComing(t)
  {
    hide After, PostComing;
    RunKeeps(u, s, steps, n);
  }

  /** Only the timer makes a waiter give up. */
  lemma {:induction false} GivesUpAfterTimer(u: Setup, s: State, steps: seq<Action>, n: nat)
    requires Initial(u, s) && n <= |steps| && After(u, s, steps, n).Some?
    ensures var w := After(u, s, steps, n).value.waiter;
      w == Finished(false) || w.Expired? ==> Expire in steps[..n]
  {
    if n > 0 {
      GivesUpAfterTimer(u, s, steps, n - 1);
      assert steps[..n] == steps[..n - 1] + [steps[n - 1]];
    }
  }

  function Receipts(steps: seq<Action>, n: nat): nat
    requires n <= |steps|
  {
    if n == 0 then 0 else Receipts(steps, n - 1) + (if steps[n - 1].Receive? then 1 else 0)
  }

  function Posts(steps: seq<Action>, n: nat): nat
    requires n <= |steps|
  {
    if n == 0 then 0 else Posts(steps, n - 1) + (if steps[n - 1].Post? then 1 else 0)
  }

  /** Every wake-up is paid for: the waiter is woken no more often than tokens were
      posted, one that was there before included. */
  lemma {:induction false} WakesArePaid(u: Setup, s: State, steps: seq<Action>, n: nat)
    requires Initial(u, s) && n <= |steps| && After(u, s, steps, n).Some?
    ensures Receipts(steps, n) + (if After(u, s, steps, n).value.token then 1 else 0)
         <= Posts(steps, n) + (if s.token then 1 else 0)
  {
    if n > 0 { WakesArePaid(u, s, steps, n - 1); }
  }

  /** A true result means the buffer held enough at the last check, and still does
      unless it was reset; a false one that it did not when the timer had fired. */
  lemma ResultIsHonest(u: Setup, s: State, steps: seq<Action>, n: nat)
    requires Initial(u, s) && n <= |steps| && After(u, s, steps, n).Some?
    requires After(u, s, steps, n).value.waiter.Finished?
    ensures var t := After(u, s, steps, n).value;
      && (t.waiter.ok <==> t.lastLevel >= u.need)
      && (t.waiter.ok && !t.wasReset ==> t.level >= u.need)
      && (!t.waiter.ok ==> Expire in steps[..n])
  {
    hide After, NoLostWakeUp;
    RunKeeps(u, s, steps, n);
    GivesUpAfterTimer(u, s, steps, n);
  }
}
