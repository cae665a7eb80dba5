/**
  The reader/writer lock as a monitor: one mutex, two gates, and a state made
  of a write bit and a reader count that never exceeds `max`.

  A step is one critical section of the mutex: from a call or a wake-up to the
  next wait or return.  `gate1` and `gate2` hold the threads that sleep in a
  wait and have not been notified; a notified thread has left its gate but has
  yet to run.
*/
module SharedMutexProtocol {
  type Tid = nat

  datatype Monitor = Monitor(write: bool, readers: nat, gate1: set<Tid>, gate2: set<Tid>)

  datatype Outcome = Acquired | AsleepOnGate1 | AsleepOnGate2

  const FREE := Monitor(false, 0, {}, {})

  /** lock() from the test of its first loop. */
  function LockSegment(m: Monitor, t: Tid): (Monitor, Outcome) {
    if m.write then (m.(gate1 := m.gate1 + {t}), AsleepOnGate1)
    else DrainSegment(m.(write := true), t)
  }

  /** lock() from the test of its second loop. */
  function DrainSegment(m: Monitor, t: Tid): (Monitor, Outcome) {
    if m.readers > 0 then (m.(gate2 := m.gate2 + {t}), AsleepOnGate2) else (m, Acquired)
  }

  function TryLock(m: Monitor): (Monitor, bool) {
    if !m.write && m.readers == 0 then (m.(write := true), true) else (m, false)
  }

  function Unlock(m: Monitor): Monitor {
    m.(write := false, readers := 0, gate1 := {})
  }

  /** lock_shared() from the test of its loop. */
  function LockSharedSegment(m: Monitor, t: Tid, max: nat): (Monitor, Outcome) {
    if m.write || m.readers == max then (m.(gate1 := m.gate1 + {t}), AsleepOnGate1)
    else (m.(readers := m.readers + 1), Acquired)
  }

  function TryLockShared(m: Monitor, max: nat): (Monitor, bool) {
    if !m.write && m.readers != max then (m.(readers := m.readers + 1), true) else (m, false)
  }

  /** Waking one sleeper wakes nobody if nobody sleeps, and any sleeper otherwise. */
  predicate CanWake(gate: set<Tid>, pick: Tid) {
    gate != {} ==> pick in gate
  }

  /** The threads `unlock_shared` chooses from when it notifies one. */
  function Notified(m: Monitor, max: nat): set<Tid>
    requires m.readers > 0
  {
    if m.write then if m.readers == 1 then m.gate2 else {}
    else if m.readers == max then m.gate1 else {}
  }

  function UnlockShared(m: Monitor, max: nat, pick: Tid): Monitor
    requires m.readers > 0
  {
    var n := m.(readers := m.readers - 1);
    if n.write then
      if n.readers == 0 then n.(gate2 := n.gate2 - {pick}) else n
    else
      if n.readers + 1 == max then n.(gate1 := n.gate1 - {pick}) else n
  }

  // ----- Threads

  /** Where a thread is.  A thread inside a call sleeps iff it is in a gate. */
  datatype PC =
    | Idle
    | Locking    // in lock(), before it has set the write bit
    | Draining   // in lock(), after it has set the write bit
    | HoldsX
    | Sharing    // in lock_shared()
    | HoldsS

  datatype State = State(m: Monitor, pc: seq<PC>)

  datatype Label =
    | Begin(t: Tid, shared: bool)
    | Run(t: Tid)
    | TryX(t: Tid)
    | TryS(t: Tid)
    | Release(t: Tid, pick: Tid)
    | Spurious(t: Tid)

  function Start(n: nat): State {
    State(FREE, seq(n, _ => Idle))
  }

  predicate Asleep(s: State, t: Tid) {
    t in s.m.gate1 || t in s.m.gate2
  }

  /** The steps open to a thread: it is awake and obeys the acquire/release discipline. */
  predicate Enabled(s: State, l: Label, max: nat) {
    l.t < |s.pc| &&
    match l
    case Begin(t, _) => s.pc[t].Idle?
    case Run(t) => !Asleep(s, t) && (s.pc[t].Locking? || s.pc[t].Draining? || s.pc[t].Sharing?)
    case TryX(t) => s.pc[t].Idle?
    case TryS(t) => s.pc[t].Idle?
    case Release(t, pick) =>
      s.pc[t].HoldsX? ||
      (s.pc[t].HoldsS? && s.m.readers > 0 && CanWake(Notified(s.m, max), pick))
    case Spurious(t) => Asleep(s, t)
  }

  function Settle(s: State, t: Tid, r: (Monitor, Outcome), held: PC): State
    requires t < |s.pc|
  {
    State(r.0, s.pc[t := match r.1
                         case Acquired => held
                         case AsleepOnGate1 => s.pc[t]
                         case AsleepOnGate2 => Draining])
  }

  function Apply(s: State, l: Label, max: nat): State
    requires Enabled(s, l, max)
  {
    match l
    case Begin(t, shared) => s.(pc := s.pc[t := if shared then Sharing else Locking])
    case Run(t) =>
      if s.pc[t].Locking? then Settle(s, t, LockSegment(s.m, t), HoldsX)
      else if s.pc[t].Draining? then Settle(s, t, DrainSegment(s.m, t), HoldsX)
      else Settle(s, t, LockSharedSegment(s.m, t, max), HoldsS)
    case TryX(t) =>
      var (m, ok) := TryLock(s.m);
      State(m, s.pc[t := if ok then HoldsX else Idle])
    case TryS(t) =>
      var (m, ok) := TryLockShared(s.m, max);
      State(m, s.pc[t := if ok then HoldsS else Idle])
    case Release(t, pick) =>
      State(if s.pc[t].HoldsX? then Unlock(s.m) else UnlockShared(s.m, max, pick), s.pc[t := Idle])
    case Spurious(t) =>
      s.(m := s.m.(gate1 := s.m.gate1 - {t}, gate2 := s.m.gate2 - {t}))
  }

  // ----- Runs

  predicate Legal(s: State, ls: seq<Label>, max: nat)
    decreases |ls|
  {
    ls == [] || (Enabled(s, ls[0], max) && Legal(Apply(s, ls[0], max), ls[1..], max))
  }

  function Exec(s: State, ls: seq<Label>, max: nat): State
    requires Legal(s, ls, max)
    decreases |ls|
  {
    if ls == [] then s else Exec(Apply(s, ls[0], max), ls[1..], max)
  }

  lemma {:induction false} ExecConcat(s: State, a: seq<Label>, b: seq<Label>, max: nat)
    requires Legal(s, a, max) && Legal(Exec(s, a, max), b, max)
    ensures Legal(s, a + b, max)
    ensures Exec(s, a + b, max) == Exec(Exec(s, a, max), b, max)
    decreases |a|
  {
    if a == [] {
      assert a + b == b;
    } else {
      assert (a + b)[0] == a[0] && (a + b)[1..] == a[1..] + b;
      ExecConcat(Apply(s, a[0], max), a[1..], b, max);
    }
  }

  // ----- The invariant

  function Count(pc: seq<PC>): nat {
    if pc == [] then 0 else Count(pc[1..]) + if pc[0].HoldsS? then 1 else 0
  }

  lemma {:induction false} CountUpdate(pc: seq<PC>, t: nat, x: PC)
    requires t < |pc|
    ensures Count(pc[t := x]) ==
      Count(pc) - (if pc[t].HoldsS? then 1 else 0) + (if x.HoldsS? then 1 else 0)
  {
    if t == 0 {
      assert pc[t := x][1..] == pc[1..];
    } else {
      assert pc[t := x][1..] == pc[1..][t - 1 := x];
      CountUpdate(pc[1..], t - 1, x);
    }
  }

  /** A shared holder exists exactly when the count is positive; every non-holder leaves one place free. */
  lemma {:induction false} CountBounds(pc: seq<PC>)
    ensures Count(pc) <= |pc|
    ensures Count(pc) > 0 ==> exists t :: 0 <= t < |pc| && pc[t].HoldsS?
    ensures forall t :: 0 <= t < |pc| && !pc[t].HoldsS? ==> Count(pc) < |pc|
    ensures forall t, u :: 0 <= t < u < |pc| && !pc[t].HoldsS? && !pc[u].HoldsS? ==> Count(pc) + 1 < |pc|
  {
    if pc != [] {
      CountBounds(pc[1..]);
      assert forall t :: 0 < t < |pc| ==> pc[t] == pc[1..][t - 1];
      if Count(pc) > 0 && !pc[0].HoldsS? {
        var t :| 0 <= t < |pc[1..]| && pc[1..][t].HoldsS?;
        assert pc[t + 1].HoldsS?;
      }
    }
  }

  predicate Writer(p: PC) {
    p.Draining? || p.HoldsX?
  }

  /** The count is the number of shared holders and never exceeds the maximum. */
  ghost predicate CountInv(s: State, max: nat) {
    s.m.readers == Count(s.pc) <= max
  }

  /** The write bit is set exactly when one thread drains or holds exclusively; a holder drains nobody. */
  ghost predicate WriterInv(s: State) {
    && (s.m.write <==> exists t :: 0 <= t < |s.pc| && Writer(s.pc[t]))
    && (forall t, u :: 0 <= t < |s.pc| && 0 <= u < |s.pc| && Writer(s.pc[t]) && Writer(s.pc[u]) ==> t == u)
    && (forall t :: 0 <= t < |s.pc| && s.pc[t].HoldsX? ==> s.m.readers == 0)
  }

  /** Who may sleep where: in gate 2 only a draining thread that still waits for a reader. */
  ghost predicate GateInv(s: State) {
    && (forall t :: t in s.m.gate1 ==> t < |s.pc| && (s.pc[t].Sharing? || (s.pc[t].Locking? && s.m.write)))
    && (forall t :: t in s.m.gate2 ==> t < |s.pc| && s.pc[t].Draining? && s.m.readers > 0)
  }

  ghost predicate Inv(s: State, max: nat) {
    CountInv(s, max) && WriterInv(s) && GateInv(s)
  }

  lemma InvStart(n: nat, max: nat)
    ensures Inv(Start(n), max)
  {
    assert Count(Start(n).pc) == 0 by {
      CountBounds(Start(n).pc);
    }
  }

  lemma CountStep(s: State, l: Label, max: nat)
    requires Inv(s, max) && Enabled(s, l, max)
    ensures CountInv(Apply(s, l, max), max)
    ensures Count(Apply(s, l, max).pc) == Apply(s, l, max).m.readers
  {
    var s' := Apply(s, l, max);
    CountUpdate(s.pc, l.t, s'.pc[l.t]);
    assert s'.pc == s.pc[l.t := s'.pc[l.t]];
  }

  lemma WriterStep(s: State, l: Label, max: nat)
    requires Inv(s, max) && Enabled(s, l, max)
    ensures WriterInv(Apply(s, l, max))
  {
    var s' := Apply(s, l, max);
    assert forall u :: 0 <= u < |s.pc| && u != l.t ==> s'.pc[u] == s.pc[u];
    if s.m.write {
      var w :| 0 <= w < |s.pc| && Writer(s.pc[w]);
      assert Writer(s'.pc[w]) || w == l.t;
    }
    if Writer(s'.pc[l.t]) {
      assert s'.m.write;
    }
  }

  lemma GateStep(s: State, l: Label, max: nat)
    requires Inv(s, max) && Enabled(s, l, max)
    ensures GateInv(Apply(s, l, max))
  {
    var s' := Apply(s, l, max);
    assert forall u :: 0 <= u < |s.pc| && u != l.t ==> s'.pc[u] == s.pc[u];
    if s.m.gate2 != {} && l.Release? && s.pc[l.t].HoldsS? && s.m.readers == 1 {
      // The one thread that can sleep on gate 2 is the one that is woken.
      assert s.m.write;
      assert forall t, u :: t in s.m.gate2 && u in s.m.gate2 ==> t == u;
    }
  }

  lemma InvStep(s: State, l: Label, max: nat)
    requires Inv(s, max) && Enabled(s, l, max)
    ensures Inv(Apply(s, l, max), max)
  {
    CountStep(s, l, max);
    WriterStep(s, l, max);
    GateStep(s, l, max);
  }

  lemma {:induction false} InvRun(s: State, ls: seq<Label>, max: nat)
    requires Inv(s, max) && Legal(s, ls, max)
    ensures Inv(Exec(s, ls, max), max)
    ensures |Exec(s, ls, max).pc| == |s.pc|
    decreases |ls|
  {
    if ls != [] {
      InvStep(s, ls[0], max);
      InvRun(Apply(s, ls[0], max), ls[1..], max);
    }
  }
}
