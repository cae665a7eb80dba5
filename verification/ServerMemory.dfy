/** Pointers, objects and indexes: no use after free, no race, no double delete. */
module ServerMemory {
  import opened Common
  import opened Wire
  import opened Sessions
  import opened ServerProtocol

  /** The object only this thread knows: not yet filed, or already unfiled. */
  function Private(t: Task): Option<Ref> {
    match t
    case Register(_, r) => Some(r)
    case Unlinked(_, _, r) => Some(r)
    case Freed(_, _, r) => Some(r)
    case _ => None
  }

  ghost predicate PointerInv(s: System) {
    && (forall r :: r in s.srv.clients ==> r < s.next)
    && (forall t :: 0 <= t < |s.th| && Borrowed(s.th[t].task).Some? ==>
          Borrowed(s.th[t].task).value in s.srv.clients && Indexed(s.srv, Borrowed(s.th[t].task).value))
    && (forall t :: 0 <= t < |s.th| && Private(s.th[t].task).Some? ==>
          Private(s.th[t].task).value in s.srv.clients && !Indexed(s.srv, Private(s.th[t].task).value))
    && (forall t, u :: 0 <= t < |s.th| && 0 <= u < |s.th| && t != u && Private(s.th[t].task).Some? ==>
          Private(s.th[u].task) != Private(s.th[t].task))
  }

  ghost predicate MemInv(s: System) {
    LockInv(s) && KeysAgree(s.srv) && PointerInv(s)
  }

  /** While one thread holds the index lock exclusively, no other holds a borrowed pointer. */
  lemma ExclusiveMeansUnborrowed(s: System, t: Tid)
    requires LockInv(s) && t < |s.th| && s.th[t].dict.InX?
    ensures forall u :: 0 <= u < |s.th| ==> Borrowed(s.th[u].task).None?
  {
    forall u | 0 <= u < |s.th|
      ensures Borrowed(s.th[u].task).None?
    {
      assert Shape(s.th[u]);
      assert u != t ==> !Clash(StageOf(s.th[t], Dict), StageOf(s.th[u], Dict));
    }
  }

  /** The tasks that rewrite an index or the heap of sessions; all run under the exclusive index lock. */
  predicate Rewrites(task: Task) {
    task.Register? || task.Scan? || task.Freed?
  }

  lemma IndexUnlessRewrites(s: System, task: Task, random: nat, id: nat)
    requires !Rewrites(task)
    ensures var s' := Effect(s, task, random, id); s'.srv.id == s.srv.id && s'.srv.mac == s.srv.mac
  {
  }

  predicate SameSession(c: Client, d: Client) {
    c.identity == d.identity && c.mac == d.mac && c.ip == d.ip
  }

  /** Where the indexes stay, it is enough that the objects they lead to keep their keys. */
  lemma KeysStay(a: Server, b: Server)
    requires KeysAgree(a) && b.id == a.id && b.mac == a.mac
    requires forall r :: r in a.clients && Indexed(a, r) ==>
      r in b.clients && SameSession(b.clients[r], a.clients[r])
    ensures KeysAgree(b)
  {
    forall k | k in a.id
      ensures a.id[k] in b.clients && b.clients[a.id[k]].identity == k
    {
      assert Indexed(a, a.id[k]);
    }
    forall k | k in a.mac
      ensures a.mac[k] in b.clients && b.clients[a.mac[k]].mac == k
    {
      assert Indexed(a, a.mac[k]);
    }
  }

  lemma EffectKeys(s: System, t: Tid, random: nat, id: nat)
    requires MemInv(s) && t < |s.th| && Wanted(s.th[t]).None?
    ensures KeysAgree(Effect(s, s.th[t].task, random, id).srv)
  {
    var task := s.th[t].task;
    assert Private(task).Some? ==> Private(task).value in s.srv.clients && !Indexed(s.srv, Private(task).value);
    assert Borrowed(task).Some? ==> Borrowed(task).value in s.srv.clients;
    match task {
      case Register(peer, r) => InsertAgreement(s.srv, r, peer, s.config);
      case Scan(now, left) =>
        if Stale(s.srv, id, now, left) {
          UnlinkAgreement(s.srv, id);
        }
      case Freed(_, _, _) => KeysStay(s.srv, Effect(s, task, random, id).srv);
      case _ =>
        IndexUnlessRewrites(s, task, random, id);
        KeysStay(s.srv, Effect(s, task, random, id).srv);
    }
  }

  /** What one piece of code does to an object that already exists. */
  lemma EffectOnObject(s: System, task: Task, random: nat, id: nat, r: Ref)
    requires KeysAgree(s.srv) && r in s.srv.clients && r < s.next
    requires Borrowed(task).Some? ==> Borrowed(task).value in s.srv.clients
    requires Private(task).Some? ==> Private(task).value in s.srv.clients
    ensures var s' := Effect(s, task, random, id);
      && s'.next >= s.next
      && (Deletes(task, r) || r in s'.srv.clients)
      && (!Deletes(task, r) ==> SameSession(s'.srv.clients[r], s.srv.clients[r]))
      && (Indexed(s'.srv, r) ==> Indexed(s.srv, r) || (task.Register? && task.ref == r))
      && (Indexed(s.srv, r) && !Rewrites(task) ==> Indexed(s'.srv, r))
  {
  }

  predicate Deletes(task: Task, r: Ref) {
    task.Freed? && task.ref == r
  }

  lemma OthersKeepPointers(s: System, t: Tid, random: nat, id: nat, u: Tid)
    requires MemInv(s) && t < |s.th| && u < |s.th| && t != u && Wanted(s.th[t]).None?
    ensures var s' := Effect(s, s.th[t].task, random, id);
      && (Borrowed(s.th[u].task).Some? ==>
            Borrowed(s.th[u].task).value in s'.srv.clients && Indexed(s'.srv, Borrowed(s.th[u].task).value))
      && (Private(s.th[u].task).Some? ==>
            Private(s.th[u].task).value in s'.srv.clients && !Indexed(s'.srv, Private(s.th[u].task).value))
  {
    assert Shape(s.th[t]);
    if Rewrites(s.th[t].task) {
      ExclusiveMeansUnborrowed(s, t);
    }
    if Borrowed(s.th[u].task).Some? {
      EffectOnObject(s, s.th[t].task, random, id, Borrowed(s.th[u].task).value);
    }
    if Private(s.th[u].task).Some? {
      EffectOnObject(s, s.th[t].task, random, id, Private(s.th[u].task).value);
    }
  }

  lemma OwnPointers(s: System, t: Tid, random: nat, key: Key, id: nat)
    requires MemInv(s) && Enabled(s, Work(t, random, key, id))
    ensures var s' := Apply(s, Work(t, random, key, id));
      && (forall r :: r in s'.srv.clients ==> r < s'.next)
      && (Borrowed(s'.th[t].task).Some? ==>
            Borrowed(s'.th[t].task).value in s'.srv.clients && Indexed(s'.srv, Borrowed(s'.th[t].task).value))
      && (Private(s'.th[t].task).Some? ==>
            && Private(s'.th[t].task).value in s'.srv.clients && !Indexed(s'.srv, Private(s'.th[t].task).value)
            && (forall u :: 0 <= u < |s.th| && u != t ==> Private(s.th[u].task) != Private(s'.th[t].task)))
  {
  }

  lemma WorkPointers(s: System, t: Tid, random: nat, key: Key, id: nat)
    requires MemInv(s) && Enabled(s, Work(t, random, key, id))
    ensures PointerInv(Apply(s, Work(t, random, key, id)))
  {
    var s' := Apply(s, Work(t, random, key, id));
    OwnPointers(s, t, random, key, id);
    forall u | 0 <= u < |s.th| && u != t
      ensures s'.th[u] == s.th[u]
      ensures Borrowed(s.th[u].task).Some? ==>
        Borrowed(s.th[u].task).value in s'.srv.clients && Indexed(s'.srv, Borrowed(s.th[u].task).value)
      ensures Private(s.th[u].task).Some? ==>
        Private(s.th[u].task).value in s'.srv.clients && !Indexed(s'.srv, Private(s.th[u].task).value)
    {
      OthersKeepPointers(s, t, random, id, u);
    }
  }

  /** A lock operation or the arrival of a task moves no pointer. */
  lemma LockingPointers(s: System, l: Label)
    requires MemInv(s) && Enabled(s, l) && !l.Work?
    ensures KeysAgree(Apply(s, l).srv) && PointerInv(Apply(s, l))
  {
    var s' := Apply(s, l);
    assert forall t :: 0 <= t < |s.th| ==>
      Borrowed(s'.th[t].task) == Borrowed(s.th[t].task) && Private(s'.th[t].task) == Private(s.th[t].task);
  }

  lemma MemStep(s: System, l: Label)
    requires MemInv(s) && Enabled(s, l)
    ensures MemInv(Apply(s, l))
  {
    LockStep(s, l);
    match l {
      case Work(t, random, key, id) =>
        EffectKeys(s, t, random, id);
        WorkPointers(s, t, random, key, id);
      case _ => LockingPointers(s, l);
    }
  }

  lemma MemStart(n: nat, lower: nat, upper: nat, clock: int, config: Config)
    ensures MemInv(Start(n, lower, upper, clock, config))
  {
  }

  lemma {:induction false} MemRun(s: System, ls: seq<Label>)
    requires MemInv(s) && Legal(s, ls)
    ensures MemInv(Exec(s, ls)) && |Exec(s, ls).th| == |s.th|
    decreases |ls|
  {
    if ls != [] {
      MemStep(s, ls[0]);
      LockStep(s, ls[0]);
      MemRun(Apply(s, ls[0]), ls[1..]);
    }
  }

  // ----- Safe reclamation

  /** A thread can still reach the object, by a pointer of its own or through an index. */
  predicate Reaches(th: Thread, r: Ref) {
    Borrowed(th.task) == Some(r) || Private(th.task) == Some(r)
  }

  /**
    Whenever the sweep is about to delete an object: the object is live, no index
    leads to it, and no other thread has a pointer to it or a place at its lock.
  */
  lemma SafeReclamation(n: nat, lower: nat, upper: nat, clock: int, config: Config, ls: seq<Label>)
    requires Legal(Start(n, lower, upper, clock, config), ls)
    ensures var s := Exec(Start(n, lower, upper, clock, config), ls);
      && |s.th| == n
      && KeysAgree(s.srv)
      && (forall t :: 0 <= t < n && Borrowed(s.th[t].task).Some? ==>
            Borrowed(s.th[t].task).value in s.srv.clients)
      && (forall t :: 0 <= t < n && s.th[t].task.Freed? ==>
            && s.th[t].task.ref in s.srv.clients
            && !Indexed(s.srv, s.th[t].task.ref)
            && forall u :: 0 <= u < n && u != t ==>
                !Reaches(s.th[u], s.th[t].task.ref) && StageOf(s.th[u], ClientLock(s.th[t].task.ref)).Out?)
  {
    var s0 := Start(n, lower, upper, clock, config);
    MemStart(n, lower, upper, clock, config);
    MemRun(s0, ls);
    var s := Exec(s0, ls);
    forall t | 0 <= t < n && s.th[t].task.Freed?
      ensures forall u :: 0 <= u < n ==> Borrowed(s.th[u].task).None?
    {
      assert Shape(s.th[t]);
      ExclusiveMeansUnborrowed(s, t);
    }
  }

  /** How often a run deletes the object. */
  function Deletions(s: System, ls: seq<Label>, r: Ref): nat
    requires Legal(s, ls)
    decreases |ls|
  {
    if ls == [] then 0
    else Deletions(Apply(s, ls[0]), ls[1..], r)
         + if ls[0].Work? && Deletes(s.th[ls[0].t].task, r) then 1 else 0
  }

  lemma {:induction false} DeletedOnce(s: System, ls: seq<Label>, r: Ref)
    requires MemInv(s) && Legal(s, ls)
    ensures Deletions(s, ls, r) <= if r in s.srv.clients || r >= s.next then 1 else 0
    decreases |ls|
  {
    if ls != [] {
      MemStep(s, ls[0]);
      var s' := Apply(s, ls[0]);
      DeletedOnce(s', ls[1..], r);
      if ls[0].Work? && Deletes(s.th[ls[0].t].task, r) {
        assert Private(s.th[ls[0].t].task) == Some(r);
      } else if r !in s.srv.clients && r < s.next {
        StaysDead(s, ls[0], r);
      }
    }
  }

  lemma StaysDead(s: System, l: Label, r: Ref)
    requires MemInv(s) && Enabled(s, l) && r !in s.srv.clients && r < s.next
    ensures r !in Apply(s, l).srv.clients && r < Apply(s, l).next
  {
  }

  // ----- Races on `alive` and `address`

  /** The next code this thread runs writes the fields of the object. */
  predicate Writes(th: Thread, r: Ref) {
    Wanted(th).None? && (th.task.BeatAt? || th.task.Freed?) && Reaches(th, r)
  }

  /** The next code this thread runs reads a field of the object. */
  predicate Reads(s: System, th: Thread, r: Ref) {
    Wanted(th).None? && ((th.task.CastAt? && Reaches(th, r)) || (th.task.Scan? && InId(s.srv, r)))
  }

  /**
    A thread that is free to write a session's fields is the only one free to
    touch them: two heartbeats exclude one another, and heartbeats exclude
    senders, by the session's lock; the sweep excludes all of them by the index lock.
  */
  lemma RaceFree(n: nat, lower: nat, upper: nat, clock: int, config: Config, ls: seq<Label>, t: Tid, u: Tid, r: Ref)
    requires Legal(Start(n, lower, upper, clock, config), ls)
    requires t < n && u < n && t != u
    ensures var s := Exec(Start(n, lower, upper, clock, config), ls);
      |s.th| == n && (Writes(s.th[t], r) ==> !Writes(s.th[u], r) && !Reads(s, s.th[u], r))
  {
    var s0 := Start(n, lower, upper, clock, config);
    MemStart(n, lower, upper, clock, config);
    MemRun(s0, ls);
    var s := Exec(s0, ls);
    assert Shape(s.th[t]) && Shape(s.th[u]);
    assert !Clash(StageOf(s.th[t], Dict), StageOf(s.th[u], Dict));
    assert !Clash(StageOf(s.th[t], ClientLock(r)), StageOf(s.th[u], ClientLock(r)));
  }
}
