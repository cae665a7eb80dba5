/** Lock order and deadlock freedom. */
module ServerProgress {
  import opened Wire
  import opened Sessions
  import opened ServerProtocol
  import opened ServerMemory

  /** The index lock comes before every session lock and before the pool lock. */
  function Level(l: Lock): nat {
    if l.Dict? then 0 else 1
  }

  predicate Holds(th: Thread, l: Lock) {
    StageOf(th, l).InS? || StageOf(th, l).InX?
  }

  /** Nobody asks for a lock at or below the level of one it holds, so nobody asks twice for the same one. */
  lemma LockOrder(n: nat, lower: nat, upper: nat, clock: int, config: Config, ls: seq<Label>, t: Tid, l: Lock)
    requires Legal(Start(n, lower, upper, clock, config), ls) && t < n
    ensures var s := Exec(Start(n, lower, upper, clock, config), ls);
      |s.th| == n && (Wanted(s.th[t]).Some? && Holds(s.th[t], l) ==> Level(l) < Level(Wanted(s.th[t]).value))
  {
    MemStart(n, lower, upper, clock, config);
    MemRun(Start(n, lower, upper, clock, config), ls);
    assert Shape(Exec(Start(n, lower, upper, clock, config), ls).th[t]);
  }

  /** A busy thread can take a step of its own. */
  ghost predicate CanMove(s: System, t: Tid) {
    t < |s.th| && !s.th[t].task.Idle? &&
    (Enabled(s, Grant(t)) || exists random, key, id :: Enabled(s, Work(t, random, key, id)))
  }

  lemma WorkEnabled(s: System, t: Tid)
    requires LockInv(s) && t < |s.th| && !s.th[t].task.Idle? && Wanted(s.th[t]).None?
    ensures CanMove(s, t)
  {
    assert Shape(s.th[t]);
    var key: Key := [];
    var id := 0;
    if s.th[t].task.Cast? && s.th[t].task.todo != {} {
      key :| key in s.th[t].task.todo;
    }
    if s.th[t].task.Scan? && s.th[t].task.left != {} {
      id :| id in s.th[t].task.left;
    }
    assert Enabled(s, Work(t, 0, key, id));
  }

  /**
    Follow a blocked thread to whoever blocks it.  Behind a request is a writer,
    behind a draining writer is a reader, and whoever is inside a lock can only be
    waiting for one of a higher level; so the chain ends at a thread that moves.
  */
  lemma {:induction false} FindMover(s: System, t: Tid, steps: nat) returns (m: Tid)
    requires LockInv(s) && t < |s.th| && !s.th[t].task.Idle?
    requires steps >= Patience(s.th[t])
    ensures CanMove(s, m)
    decreases steps
  {
    assert Shape(s.th[t]);
    if Wanted(s.th[t]).None? {
      WorkEnabled(s, t);
      return t;
    }
    var l := Wanted(s.th[t]).value;
    if Passable(s, t, l) {
      return t;
    }
    var u :| 0 <= u < |s.th| && u != t &&
      if StageOf(s.th[t], l).Drain? then StageOf(s.th[u], l).InS? else Writing(StageOf(s.th[u], l));
    assert Shape(s.th[u]);
    m := FindMover(s, u, steps - 1);
  }

  /** How many links a chain of blocked threads can still have. */
  function Patience(th: Thread): nat {
    if Wanted(th).None? then 0
    else 3 * (1 - Level(Wanted(th).value)) + if StageOf(th, Wanted(th).value).Drain? then 1 else 2
  }

  /** In every reachable state in which some handler is under way, some handler can move. */
  lemma DeadlockFree(n: nat, lower: nat, upper: nat, clock: int, config: Config, ls: seq<Label>)
    requires Legal(Start(n, lower, upper, clock, config), ls)
    ensures var s := Exec(Start(n, lower, upper, clock, config), ls);
      (exists t :: 0 <= t < |s.th| && !s.th[t].task.Idle?) ==> exists m :: CanMove(s, m)
  {
    MemStart(n, lower, upper, clock, config);
    MemRun(Start(n, lower, upper, clock, config), ls);
    var s := Exec(Start(n, lower, upper, clock, config), ls);
    if t :| 0 <= t < |s.th| && !s.th[t].task.Idle? {
      var m := FindMover(s, t, Patience(s.th[t]));
    }
  }
}
