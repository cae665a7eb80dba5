/** What every run of the reader/writer lock keeps, and exactly when a wake-up can be lost. */
module SharedMutexTheorems {
  import opened SharedMutexProtocol

  /** In every run an exclusive holder is alone, and the count is the number of shared holders. */
  lemma Exclusion(n: nat, ls: seq<Label>, max: nat)
    requires Legal(Start(n), ls, max)
    ensures var s := Exec(Start(n), ls, max);
      && |s.pc| == n
      && s.m.readers == Count(s.pc) <= max
      && (s.m.write <==> exists t :: 0 <= t < n && Writer(s.pc[t]))
      && forall t, u :: 0 <= t < n && 0 <= u < n && t != u && s.pc[t].HoldsX? ==>
          !s.pc[u].HoldsX? && !s.pc[u].HoldsS? && !s.pc[u].Draining?
  {
    InvStart(n, max);
    InvRun(Start(n), ls, max);
    NoReaders(Exec(Start(n), ls, max).pc);
  }

  /**
    In every reachable state try_lock succeeds exactly if nobody drains or holds
    the lock, and try_lock_shared exactly if there is no writer and a place left.
  */
  lemma TriesSucceedIff(n: nat, ls: seq<Label>, max: nat, t: Tid)
    requires Legal(Start(n), ls, max) && t < n
    ensures var s := Exec(Start(n), ls, max);
      |s.pc| == n && (s.pc[t].Idle? ==>
        && Enabled(s, TryX(t), max) && Enabled(s, TryS(t), max)
        && (Apply(s, TryX(t), max).pc[t].HoldsX? <==>
              forall u :: 0 <= u < n ==> !s.pc[u].Draining? && !s.pc[u].HoldsX? && !s.pc[u].HoldsS?)
        && (Apply(s, TryS(t), max).pc[t].HoldsS? <==>
              Count(s.pc) < max && forall u :: 0 <= u < n ==> !s.pc[u].Draining? && !s.pc[u].HoldsX?))
  {
    InvStart(n, max);
    InvRun(Start(n), ls, max);
    var s := Exec(Start(n), ls, max);
    NoReaders(s.pc);
    assert s.m.write <==> exists u :: 0 <= u < n && Writer(s.pc[u]);
    assert forall u :: 0 <= u < n ==> (Writer(s.pc[u]) <==> s.pc[u].Draining? || s.pc[u].HoldsX?);
  }

  lemma {:induction false} NoReaders(pc: seq<PC>)
    ensures Count(pc) == 0 <==> forall t :: 0 <= t < |pc| ==> !pc[t].HoldsS?
  {
    if pc != [] {
      NoReaders(pc[1..]);
      assert forall t :: 0 < t < |pc| ==> pc[t] == pc[1..][t - 1];
      assert forall t :: 0 <= t < |pc[1..]| ==> pc[1..][t] == pc[t + 1];
    }
  }

  // ----- Draining

  function Releases(ls: seq<Label>): nat {
    if ls == [] then 0 else Releases(ls[1..]) + if ls[0].Release? then 1 else 0
  }

  /** Thread `t` has set the write bit and is still waiting, all along the run. */
  predicate StaysDraining(s: State, ls: seq<Label>, t: Tid, max: nat)
    requires Legal(s, ls, max)
    decreases |ls|
  {
    t < |s.pc| && s.pc[t].Draining? &&
    (ls == [] || StaysDraining(Apply(s, ls[0], max), ls[1..], t, max))
  }

  /**
    While a writer drains, every release takes one reader away and nothing adds
    one, so it is free to go after exactly as many releases as there were readers.
  */
  lemma {:induction false} DrainMeasure(s: State, ls: seq<Label>, t: Tid, max: nat)
    requires Inv(s, max) && Legal(s, ls, max) && StaysDraining(s, ls, t, max)
    ensures var e := Exec(s, ls, max);
      && e.m.write && Releases(ls) <= s.m.readers
      && e.m.readers == s.m.readers - Releases(ls)
      && (Releases(ls) == s.m.readers <==> Enabled(e, Run(t), max) && Apply(e, Run(t), max).pc[t].HoldsX?)
    decreases |ls|
  {
    if ls == [] {
      assert Writer(s.pc[t]);
    } else {
      InvStep(s, ls[0], max);
      var e := Apply(s, ls[0], max);
      assert Writer(s.pc[t]);
      assert ls[0].Release? ==> !s.pc[ls[0].t].HoldsX?;
      DrainMeasure(e, ls[1..], t, max);
    }
  }

  /** After an exclusive release nobody is left asleep on gate 1 and the lock is free. */
  lemma UnlockWakesAll(s: State, t: Tid, pick: Tid, max: nat)
    requires Inv(s, max) && t < |s.pc| && s.pc[t].HoldsX?
    ensures Apply(s, Release(t, pick), max).m == FREE
  {
  }

  // ----- Lost wake-ups

  predicate Awake(s: State, t: Tid) {
    t < |s.pc| && (s.pc[t].Locking? || s.pc[t].Sharing? || s.pc[t].Draining?) && !Asleep(s, t)
  }

  predicate Holder(p: PC) {
    p.HoldsX? || p.HoldsS?
  }

  /** Some thread sleeps un-notified on a lock that nobody holds or is entering. */
  ghost predicate Stuck(s: State) {
    && (exists t :: Asleep(s, t))
    && (forall t :: 0 <= t < |s.pc| ==> !Awake(s, t) && !Holder(s.pc[t]))
  }

  /** Some run of `n` threads loses a wake-up. */
  ghost predicate CanLoseWakeup(n: nat, max: nat) {
    exists ls :: Legal(Start(n), ls, max) && Stuck(Exec(Start(n), ls, max))
  }

  ghost predicate WakeInv(s: State, max: nat) {
    !s.m.write && s.m.gate1 != {} ==> s.m.readers == max || (max == 1 && exists t :: Awake(s, t))
  }

  lemma WakeStep(s: State, l: Label, max: nat)
    requires |s.pc| <= max + 1 || max == 1
    requires Inv(s, max) && WakeInv(s, max) && Enabled(s, l, max)
    ensures WakeInv(Apply(s, l, max), max)
  {
    var s' := Apply(s, l, max);
    CountBounds(s.pc);
    if !s'.m.write && s'.m.gate1 != {} && s'.m.readers != max {
      if l.Release? && s.m.readers == max {
        // Behind a full count only one thread can sleep, unless the count is full at one.
        assert l.pick in s.m.gate1 && Awake(s', l.pick);
      } else {
        var t :| Awake(s, t);
        assert Awake(s', t);
      }
    }
  }

  lemma {:induction false} WakeRun(s: State, ls: seq<Label>, max: nat)
    requires |s.pc| <= max + 1 || max == 1
    requires Inv(s, max) && WakeInv(s, max) && Legal(s, ls, max)
    ensures WakeInv(Exec(s, ls, max), max)
    decreases |ls|
  {
    if ls != [] {
      InvStep(s, ls[0], max);
      WakeStep(s, ls[0], max);
      WakeRun(Apply(s, ls[0], max), ls[1..], max);
    }
  }

  lemma NotStuck(s: State, max: nat)
    requires max > 0 && Inv(s, max) && WakeInv(s, max)
    ensures !Stuck(s)
  {
    CountBounds(s.pc);
    if s.m.write {
      var w :| 0 <= w < |s.pc| && Writer(s.pc[w]);
      assert s.m.readers > 0 || Holder(s.pc[w]) || Awake(s, w);
    }
  }

  /**
    With at most `max` threads nobody sleeps un-notified on gate 1 unless the
    write bit is set, and a sleeper on gate 2 is the one pending writer.
  */
  lemma SleepersAreOwed(n: nat, ls: seq<Label>, max: nat)
    requires 0 < max && n <= max && Legal(Start(n), ls, max)
    ensures var s := Exec(Start(n), ls, max);
      && (s.m.gate1 != {} ==> s.m.write)
      && (forall t :: t in s.m.gate2 ==> t < |s.pc| && s.pc[t].Draining? && s.m.write && s.m.readers > 0)
      && (forall t :: Asleep(s, t) ==> exists u :: 0 <= u < |s.pc| && u != t && (Holder(s.pc[u]) || Awake(s, u)))
  {
    InvStart(n, max);
    InvRun(Start(n), ls, max);
    WakeRun(Start(n), ls, max);
    var s := Exec(Start(n), ls, max);
    CountBounds(s.pc);
    NotStuck(s, max);
    if u :| u in s.m.gate1 {
      assert !s.pc[u].HoldsS?;
    }
    assert forall t :: t in s.m.gate2 ==> Writer(s.pc[t]);
  }

  // ----- A run that loses a wake-up

  ghost function Filled(n: nat, i: nat): State {
    State(Monitor(false, i, {}, {}), seq(n, j => if j < i then HoldsS else Idle))
  }

  lemma {:induction false} Fill(n: nat, i: nat, max: nat) returns (ls: seq<Label>)
    requires i <= n && i <= max
    ensures Legal(Start(n), ls, max) && Exec(Start(n), ls, max) == Filled(n, i)
  {
    if i == 0 {
      ls := [];
      assert Start(n).pc == Filled(n, 0).pc;
    } else {
      var p := Fill(n, i - 1, max);
      var s := Filled(n, i - 1);
      assert Apply(s, TryS(i - 1), max).pc == Filled(n, i).pc;
      assert Legal(Apply(s, TryS(i - 1), max), [], max);
      assert [TryS(i - 1)][1..] == [];
      ExecConcat(Start(n), p, [TryS(i - 1)], max);
      ls := p + [TryS(i - 1)];
    }
  }

  /** Holders `i..max` remain, thread `max` has been notified, thread `max + 1` sleeps. */
  ghost function Emptying(n: nat, i: nat, max: nat): State
    requires i <= max
  {
    State(Monitor(false, max - i, {max + 1}, {}),
          seq(n, j => if i <= j < max then HoldsS else if max <= j < max + 2 then Sharing else Idle))
  }

  lemma {:induction false} Empty(n: nat, i: nat, max: nat) returns (ls: seq<Label>)
    requires 1 <= i <= max && max + 2 <= n
    ensures Legal(Emptying(n, i, max), ls, max)
    ensures Exec(Emptying(n, i, max), ls, max) == Emptying(n, max, max)
    decreases max - i
  {
    if i == max {
      ls := [];
    } else {
      var s := Emptying(n, i, max);
      var rest := Empty(n, i + 1, max);
      assert Apply(s, Release(i, 0), max).pc == Emptying(n, i + 1, max).pc;
      ls := [Release(i, 0)] + rest;
      assert ls[1..] == rest;
    }
  }

  lemma Step1(s: State, l: Label, e: State, max: nat)
    requires Enabled(s, l, max) && Apply(s, l, max) == e
    ensures Legal(s, [l], max) && Exec(s, [l], max) == e
  {
  }

  lemma Extend(s0: State, ls: seq<Label>, s: State, l: Label, e: State, max: nat) returns (r: seq<Label>)
    requires Legal(s0, ls, max) && Exec(s0, ls, max) == s
    requires Enabled(s, l, max) && Apply(s, l, max) == e
    ensures Legal(s0, r, max) && Exec(s0, r, max) == e
  {
    Step1(s, l, e, max);
    ExecConcat(s0, ls, [l], max);
    r := ls + [l];
  }

  /** Thread `t` finds the count full and falls asleep. */
  lemma FallAsleep(s: State, t: Tid, max: nat) returns (ls: seq<Label>)
    requires t < |s.pc| && s.pc[t].Idle? && s.m.readers == max && !Asleep(s, t)
    ensures Legal(s, ls, max)
    ensures Exec(s, ls, max) == State(s.m.(gate1 := s.m.gate1 + {t}), s.pc[t := Sharing])
  {
    var b := s.(pc := s.pc[t := Sharing]);
    assert Legal(s, [], max);
    ls := Extend(s, [], s, Begin(t, true), b, max);
    var c := b.(m := b.m.(gate1 := b.m.gate1 + {t}));
    assert c.pc == b.pc[t := Sharing];
    ls := Extend(s, ls, b, Run(t), c, max);
  }

  /** From a full count: two more threads fall asleep and one reader leaves. */
  lemma TwoSleepers(n: nat, max: nat) returns (ls: seq<Label>)
    requires 2 <= max && max + 2 <= n
    ensures Legal(Filled(n, max), ls, max)
    ensures Exec(Filled(n, max), ls, max) == Emptying(n, 1, max)
  {
    var a := Filled(n, max);
    var first := FallAsleep(a, max, max);
    var b := Exec(a, first, max);
    var second := FallAsleep(b, max + 1, max);
    var c := Exec(b, second, max);
    ExecConcat(a, first, second, max);
    var f := Emptying(n, 1, max);
    assert Apply(c, Release(0, max), max).pc == f.pc;
    ls := Extend(a, first + second, c, Release(0, max), f, max);
  }

  /** The notified thread comes and goes without waking the other sleeper. */
  lemma LeaveOneAsleep(n: nat, max: nat) returns (ls: seq<Label>)
    requires 2 <= max && max + 2 <= n
    ensures Legal(Emptying(n, max, max), ls, max)
    ensures Stuck(Exec(Emptying(n, max, max), ls, max))
  {
    var g := Emptying(n, max, max);
    assert Legal(g, [], max);
    var h := State(g.m.(readers := 1), g.pc[max := HoldsS]);
    ls := Extend(g, [], g, Run(max), h, max);
    var k := State(g.m, g.pc[max := Idle]);
    assert h.pc[max := Idle] == k.pc;
    ls := Extend(g, ls, h, Release(max, 0), k, max);
    assert Asleep(k, max + 1);
  }

  lemma LosingRun(n: nat, max: nat) returns (ls: seq<Label>)
    requires 2 <= max && max + 2 <= n
    ensures Legal(Start(n), ls, max)
    ensures Stuck(Exec(Start(n), ls, max))
  {
    var fill := Fill(n, max, max);
    var sleep := TwoSleepers(n, max);
    var empty := Empty(n, 1, max);
    var leave := LeaveOneAsleep(n, max);
    ExecConcat(Start(n), fill, sleep, max);
    ExecConcat(Start(n), fill + sleep, empty, max);
    ExecConcat(Start(n), fill + sleep + empty, leave, max);
    ls := fill + sleep + empty + leave;
  }

  /**
    The exact condition.  `unlock_shared` notifies a sleeper only on the step
    from `max` readers to `max - 1`, so the protocol loses wake-ups for some
    schedules iff two sleepers can wait behind a full reader count.
  */
  lemma LostWakeupIff(n: nat, max: nat)
    requires max > 0
    ensures CanLoseWakeup(n, max) <==> max >= 2 && n >= max + 2
  {
    if max >= 2 && n >= max + 2 {
      var ls := LosingRun(n, max);
    } else {
      forall ls | Legal(Start(n), ls, max)
        ensures !Stuck(Exec(Start(n), ls, max))
      {
        InvStart(n, max);
        InvRun(Start(n), ls, max);
        WakeRun(Start(n), ls, max);
        NotStuck(Exec(Start(n), ls, max), max);
      }
    }
  }
}
