/**
  The lock that the server's threads use in ServerProtocol is what the
  reader/writer lock of SharedMutexProtocol looks like from outside: every
  critical section of the lock is nothing, or a few moves of the abstract lock.
*/
module LockRefinement {
  import M = SharedMutexProtocol
  import T = SharedMutexTheorems
  import opened ServerProtocol

  function StageOfPC(p: M.PC): Stage {
    match p
    case Idle => Out
    case Locking => WaitX
    case Draining => Drain
    case HoldsX => InX
    case Sharing => WaitS
    case HoldsS => InS
  }

  type Stages = seq<Stage>

  function StagesOf(s: M.State): (r: Stages)
    ensures |r| == |s.pc|
  {
    seq(|s.pc|, t requires 0 <= t < |s.pc| => StageOfPC(s.pc[t]))
  }

  /** A lock lets a thread through: no reader is left for a draining writer, no writer for anybody else. */
  predicate LetsThrough(a: Stages, t: Tid)
    requires t < |a|
  {
    forall u :: 0 <= u < |a| && u != t ==> if a[t].Drain? then !a[u].InS? else !Writing(a[u])
  }

  /** The stages of the server's threads at one lock. */
  function StagesAt(s: System, l: Lock): (r: Stages)
    ensures |r| == |s.th|
  {
    seq(|s.th|, t requires 0 <= t < |s.th| => StageOf(s.th[t], l))
  }

  lemma PassableIsLetsThrough(s: System, t: Tid, l: Lock)
    requires t < |s.th|
    ensures Passable(s, t, l) <==> LetsThrough(StagesAt(s, l), t)
  {
    var a := StagesAt(s, l);
    assert forall u :: 0 <= u < |s.th| ==> a[u] == StageOf(s.th[u], l);
  }

  /** One thread asks for the lock, gets one stage further, or gives the lock back. */
  predicate LockMove(a: Stages, b: Stages, t: Tid) {
    && t < |a| == |b| && b == a[t := b[t]]
    && ((a[t].Out? && (b[t].WaitS? || b[t].WaitX?))
        || (Waiting(a[t]) && LetsThrough(a, t) && b[t] == Advance(a[t]))
        || ((a[t].InS? || a[t].InX?) && b[t].Out?))
  }

  /** Zero or more moves of one thread. */
  predicate Moves(path: seq<Stages>, t: Tid) {
    path != [] && forall i :: 0 <= i < |path| - 1 ==> LockMove(path[i], path[i + 1], t)
  }

  /** Without a write bit nobody writes, and without a reader count nobody reads. */
  lemma WhoHolds(s: M.State, max: nat)
    requires M.Inv(s, max)
    ensures !s.m.write ==> forall u :: 0 <= u < |s.pc| ==> !Writing(StageOfPC(s.pc[u]))
    ensures s.m.readers == 0 ==> forall u :: 0 <= u < |s.pc| ==> !s.pc[u].HoldsS?
  {
    T.NoReaders(s.pc);
    assert !s.m.write ==> forall u :: 0 <= u < |s.pc| ==> !M.Writer(s.pc[u]);
  }

  /** Through the write bit and past the readers, or as far as the readers allow. */
  lemma ThroughTheGates(s: M.State, t: Tid, max: nat, a: Stages) returns (path: seq<Stages>)
    requires M.Inv(s, max) && t < |s.pc| && !s.m.write && !s.pc[t].HoldsS?
    requires a == StagesOf(s)[t := WaitX]
    ensures Moves(path, t) && path[0] == a
    ensures path[|path| - 1] == a[t := if s.m.readers == 0 then InX else Drain]
  {
    WhoHolds(s, max);
    assert forall u :: 0 <= u < |a| && u != t ==> a[u] == StageOfPC(s.pc[u]);
    var b := a[t := Drain];
    assert LockMove(a, b, t);
    path := [a, b];
    if s.m.readers == 0 {
      var c := a[t := InX];
      assert LockMove(b, c, t);
      path := [a, b, c];
    }
  }

  lemma RunMoves(s: M.State, t: Tid, max: nat) returns (path: seq<Stages>)
    requires M.Inv(s, max) && M.Enabled(s, M.Run(t), max)
    ensures Moves(path, t) && path[0] == StagesOf(s)
    ensures path[|path| - 1] == StagesOf(M.Apply(s, M.Run(t), max))
  {
    var a, b := StagesOf(s), StagesOf(M.Apply(s, M.Run(t), max));
    WhoHolds(s, max);
    if s.pc[t].Locking? && !s.m.write {
      assert a[t := WaitX] == a;
      path := ThroughTheGates(s, t, max, a);
      assert b == a[t := b[t]];
    } else if b == a {
      path := [a];
    } else {
      assert LockMove(a, b, t);
      path := [a, b];
    }
  }

  lemma TryMoves(s: M.State, l: M.Label, max: nat) returns (path: seq<Stages>)
    requires M.Inv(s, max) && M.Enabled(s, l, max) && (l.TryX? || l.TryS?)
    ensures Moves(path, l.t) && path[0] == StagesOf(s)
    ensures path[|path| - 1] == StagesOf(M.Apply(s, l, max))
  {
    var a, b := StagesOf(s), StagesOf(M.Apply(s, l, max));
    WhoHolds(s, max);
    if b == a {
      path := [a];
    } else if l.TryX? {
      var w := a[l.t := WaitX];
      assert LockMove(a, w, l.t);
      var rest := ThroughTheGates(s, l.t, max, w);
      assert b == w[l.t := InX];
      path := [a] + rest;
      assert forall i :: 0 < i < |path| - 1 ==> path[i] == rest[i - 1] && path[i + 1] == rest[i];
      assert path[0] == a && path[1] == rest[0];
    } else {
      var w := a[l.t := WaitS];
      assert LockMove(a, w, l.t);
      assert LockMove(w, b, l.t);
      path := [a, w, b];
    }
  }

  /** The refinement, step by step. */
  lemma MutexRefinesLock(s: M.State, l: M.Label, max: nat) returns (path: seq<Stages>)
    requires M.Inv(s, max) && M.Enabled(s, l, max)
    ensures Moves(path, l.t) && path[0] == StagesOf(s) && path[|path| - 1] == StagesOf(M.Apply(s, l, max))
  {
    var a, b := StagesOf(s), StagesOf(M.Apply(s, l, max));
    if l.Run? {
      path := RunMoves(s, l.t, max);
    } else if l.TryX? || l.TryS? {
      path := TryMoves(s, l, max);
    } else if b == a {
      path := [a];
    } else {
      assert LockMove(a, b, l.t);
      path := [a, b];
    }
  }

  // ----- The other half: whom the abstract lock lets through, the lock lets through

  /** The next critical section of a waiting thread is open to it and takes it further. */
  predicate GetsThrough(s: M.State, t: Tid, max: nat)
    requires t < |s.pc|
  {
    M.Enabled(s, M.Run(t), max) && StageOfPC(M.Apply(s, M.Run(t), max).pc[t]) != StageOfPC(s.pc[t])
  }

  lemma WriteBitClear(s: M.State, t: Tid, max: nat)
    requires M.Inv(s, max) && t < |s.pc| && Waiting(StageOfPC(s.pc[t]))
    ensures !s.pc[t].Draining? ==> (LetsThrough(StagesOf(s), t) <==> !s.m.write)
    ensures s.pc[t].Draining? ==> (LetsThrough(StagesOf(s), t) <==> s.m.readers == 0)
  {
    var a := StagesOf(s);
    WhoHolds(s, max);
    T.NoReaders(s.pc);
    assert forall u :: 0 <= u < |a| ==> (Writing(a[u]) <==> M.Writer(s.pc[u])) && (a[u].InS? <==> s.pc[u].HoldsS?);
  }

  /**
    In every reachable state of a lock with at most `max` threads, a waiting
    thread is awake and its next critical section takes it further exactly if the
    abstract lock lets it through.
  */
  lemma LetsThroughIff(n: nat, ls: seq<M.Label>, max: nat, t: Tid)
    requires 0 < max && n <= max && M.Legal(M.Start(n), ls, max) && t < n
    ensures var s := M.Exec(M.Start(n), ls, max);
      |s.pc| == n && (Waiting(StageOfPC(s.pc[t])) ==>
        (LetsThrough(StagesOf(s), t) <==> T.Awake(s, t) && GetsThrough(s, t, max)))
  {
    M.InvStart(n, max);
    M.InvRun(M.Start(n), ls, max);
    T.SleepersAreOwed(n, ls, max);
    var s := M.Exec(M.Start(n), ls, max);
    M.CountBounds(s.pc);
    if Waiting(StageOfPC(s.pc[t])) {
      WriteBitClear(s, t, max);
    }
  }

  // ----- The lock under a server lock

  /**
    A thread is at the lock where the server has it, except that one which the
    lock lets in at once, there being no readers, drains for a moment in the server.
  */
  predicate SamePlace(lock: Stage, server: Stage) {
    lock == server || (lock.InX? && server.Drain?)
  }

  /** The lock, after this history of its own, has the server's threads where the server has them. */
  ghost predicate Backs(ls: seq<M.Label>, s: System, l: Lock, max: nat) {
    M.Legal(M.Start(|s.th|), ls, max) &&
    var m := M.Exec(M.Start(|s.th|), ls, max);
    |m.pc| == |s.th| && forall t :: 0 <= t < |s.th| ==> SamePlace(StageOfPC(m.pc[t]), StageOf(s.th[t], l))
  }

  /** A server thread can pass a lock exactly if it is already inside the lock under it or gets through there. */
  lemma PassableIffGetsThrough(ls: seq<M.Label>, s: System, t: Tid, l: Lock, max: nat)
    requires 0 < max && |s.th| <= max && t < |s.th| && Waiting(StageOf(s.th[t], l)) && Backs(ls, s, l, max)
    ensures var m := M.Exec(M.Start(|s.th|), ls, max);
      Passable(s, t, l) <==> m.pc[t].HoldsX? || (T.Awake(m, t) && GetsThrough(m, t, max))
  {
    var m := M.Exec(M.Start(|s.th|), ls, max);
    var a, b := StagesOf(m), StagesAt(s, l);
    assert forall u :: 0 <= u < |s.th| ==> SamePlace(StageOfPC(m.pc[u]), StageOf(s.th[u], l));
    assert forall u :: 0 <= u < |s.th| ==> (Writing(a[u]) <==> Writing(b[u])) && (a[u].InS? <==> b[u].InS?);
    LetsThroughIff(|s.th|, ls, max, t);
    PassableIsLetsThrough(s, t, l);
    T.Exclusion(|s.th|, ls, max);
  }

  /** What one step of the server does to the stage of its thread at one lock. */
  predicate StageMove(a: Stage, b: Stage) {
    a == b || (a.Out? && (b.WaitS? || b.WaitX?)) || (Waiting(a) && b == Advance(a)) || ((a.InS? || a.InX?) && b.Out?)
  }

  lemma ServerStages(s: System, x: Label, l: Lock)
    requires LockInv(s) && Enabled(s, x) && !x.Tick?
    ensures var s' := Apply(s, x);
      && |s'.th| == |s.th| && (forall u :: 0 <= u < |s.th| && u != x.t ==> s'.th[u] == s.th[u])
      && StageMove(StageOf(s.th[x.t], l), StageOf(s'.th[x.t], l))
      && (Waiting(StageOf(s.th[x.t], l)) && StageOf(s'.th[x.t], l) != StageOf(s.th[x.t], l) ==> Passable(s, x.t, l))
  {
    assert Shape(s.th[x.t]);
    if x.Grant? {
      GrantStages(s.th[x.t]);
    }
  }

  /** One more critical section. */
  lemma OneMore(ls: seq<M.Label>, l: M.Label, n: nat, max: nat)
    requires M.Legal(M.Start(n), ls, max) && M.Enabled(M.Exec(M.Start(n), ls, max), l, max)
    ensures M.Legal(M.Start(n), ls + [l], max)
    ensures M.Exec(M.Start(n), ls + [l], max) == M.Apply(M.Exec(M.Start(n), ls, max), l, max)
  {
    var m := M.Exec(M.Start(n), ls, max);
    T.Step1(m, l, M.Apply(m, l, max), max);
    M.ExecConcat(M.Start(n), ls, [l], max);
  }

  /** The critical section with which the thread makes this move at the lock. */
  lemma SectionFor(m: M.State, t: Tid, a: Stage, b: Stage, max: nat) returns (l: M.Label)
    requires M.Inv(m, max) && t < |m.pc| && a == StageOfPC(m.pc[t]) && a != b && StageMove(a, b)
    requires Waiting(a) ==> GetsThrough(m, t, max)
    ensures M.Enabled(m, l, max) && l.t == t && SamePlace(StageOfPC(M.Apply(m, l, max).pc[t]), b)
  {
    if a.Out? {
      l := M.Begin(t, b.WaitS?);
    } else if Waiting(a) {
      l := M.Run(t);
    } else if m.pc[t].HoldsX? {
      l := M.Release(t, 0);
    } else {
      T.NoReaders(m.pc);
      var gate := M.Notified(m.m, max);
      var pick := 0;
      if gate != {} {
        pick :| pick in gate;
      }
      l := M.Release(t, pick);
    }
  }

  lemma MoveInLock(ls: seq<M.Label>, n: nat, t: Tid, a: Stage, b: Stage, max: nat) returns (ls': seq<M.Label>)
    requires M.Legal(M.Start(n), ls, max) && t < n && StageMove(a, b)
    requires var m := M.Exec(M.Start(n), ls, max);
      && |m.pc| == n && SamePlace(StageOfPC(m.pc[t]), a)
      && (Waiting(a) && a != b ==> m.pc[t].HoldsX? || GetsThrough(m, t, max))
    ensures M.Legal(M.Start(n), ls', max)
    ensures var m, m' := M.Exec(M.Start(n), ls, max), M.Exec(M.Start(n), ls', max);
      |m'.pc| == n && m'.pc == m.pc[t := m'.pc[t]] && SamePlace(StageOfPC(m'.pc[t]), b)
  {
    var m := M.Exec(M.Start(n), ls, max);
    ls' := ls;
    if a != b && !(a.Drain? && m.pc[t].HoldsX?) {
      M.InvStart(n, max);
      M.InvRun(M.Start(n), ls, max);
      var section := SectionFor(m, t, a, b, max);
      OneMore(ls, section, n, max);
      ls' := ls + [section];
    }
  }

  lemma BackedStep(ls: seq<M.Label>, s: System, x: Label, l: Lock, max: nat) returns (ls': seq<M.Label>)
    requires LockInv(s) && Enabled(s, x) && 0 < max && |s.th| <= max && Backs(ls, s, l, max)
    ensures |Apply(s, x).th| == |s.th| && Backs(ls', Apply(s, x), l, max)
  {
    ls' := ls;
    if !x.Tick? {
      var a, b := StageOf(s.th[x.t], l), StageOf(Apply(s, x).th[x.t], l);
      ServerStages(s, x, l);
      assert SamePlace(StageOfPC(M.Exec(M.Start(|s.th|), ls, max).pc[x.t]), a);
      if Waiting(a) {
        PassableIffGetsThrough(ls, s, x.t, l, max);
      }
      ls' := MoveInLock(ls, |s.th|, x.t, a, b, max);
    }
  }

  /**
    The lock can be put under the server: whatever the server's threads do, at
    every lock of theirs some history of the reader/writer lock has them there.
  */
  lemma {:induction false} Backed(ls: seq<M.Label>, s: System, xs: seq<Label>, l: Lock, max: nat)
    returns (ls': seq<M.Label>)
    requires LockInv(s) && Legal(s, xs) && 0 < max && |s.th| <= max && Backs(ls, s, l, max)
    ensures Backs(ls', Exec(s, xs), l, max)
    decreases |xs|
  {
    ls' := ls;
    if xs != [] {
      LockStep(s, xs[0]);
      ls' := BackedStep(ls, s, xs[0], l, max);
      ls' := Backed(ls', Apply(s, xs[0]), xs[1..], l, max);
    }
  }
}
