/** Sessions that no identity leads to: no heartbeat reaches them and no sweep ever finds them. */
module Orphans {
  import opened Common
  import opened Sessions
  import opened ServerProtocol
  import opened ServerMemory
  import opened ServerIndexes
  import opened ServerAddresses

  /** Some thread has the only pointer to the object: it is being registered or deleted. */
  ghost predicate InPrivate(s: System, r: Ref) {
    exists t :: 0 <= t < |s.th| && Private(s.th[t].task) == Some(r)
  }

  ghost predicate Orphan(s: System, r: Ref) {
    r in s.srv.clients && !InId(s.srv, r) && !InPrivate(s, r)
  }

  ghost predicate NoOrphans(s: System) {
    forall r :: !Orphan(s, r)
  }

  /** A session is registered under an identity that is free. */
  predicate RegistersFresh(s: System, l: Label) {
    Registers(s, l) ==> Deref(s.srv, s.th[l.t].task.ref).identity !in s.srv.id
  }

  lemma PrivateStep(s: System, l: Label, r: Ref)
    requires MemInv(s) && Enabled(s, l)
    ensures l.Work? ==>
      (InPrivate(Apply(s, l), r) <==>
         Private(Apply(s, l).th[l.t].task) == Some(r) || (InPrivate(s, r) && Private(s.th[l.t].task) != Some(r)))
    ensures !l.Work? ==> (InPrivate(Apply(s, l), r) <==> InPrivate(s, r))
  {
    var s' := Apply(s, l);
    if u :| 0 <= u < |s.th| && Private(s.th[u].task) == Some(r) {
      assert s'.th[u].task == s.th[u].task || (l.Work? && u == l.t);
    }
  }

  /** How the identity index changes what it says of an object. */
  lemma InIdStep(s: System, l: Label, r: Ref)
    requires MemInv(s) && Enabled(s, l) && l.Work? && r in s.srv.clients && r in Apply(s, l).srv.clients
    ensures InId(Apply(s, l).srv, r) <==>
      if s.th[l.t].task.Register? && s.th[l.t].task.ref == r then RegistersFresh(s, l)
      else InId(s.srv, r) && !Drops(s, l, s.srv.clients[r].identity)
  {
    var task := s.th[l.t].task;
    assert Private(task).Some? ==> Private(task).value in s.srv.clients && !Indexed(s.srv, Private(task).value);
    assert Borrowed(task).Some? ==> Borrowed(task).value in s.srv.clients;
    EffectOnObject(s, task, l.random, l.id, r);
  }

  /** Which object a piece of code leaves its thread alone with. */
  lemma LeftAloneWith(s: System, l: Label, r: Ref)
    requires MemInv(s) && Enabled(s, l) && l.Work?
    ensures var task := s.th[l.t].task;
      Private(Apply(s, l).th[l.t].task) == Some(r) <==>
        (task.Attach? && r == s.next) || (task.Unlinked? && r == task.ref)
        || (task.Scan? && Drops(s, l, l.id) && r == s.srv.id[l.id])
  {
  }

  /** Exactly the registration of a session under a taken identity makes an orphan; once made, it remains. */
  lemma OrphanStep(s: System, l: Label, r: Ref)
    requires MemInv(s) && Enabled(s, l)
    ensures Orphan(Apply(s, l), r) <==>
      Orphan(s, r) || (!RegistersFresh(s, l) && s.th[l.t].task.ref == r)
  {
    var s' := Apply(s, l);
    PrivateStep(s, l, r);
    if l.Work? {
      LeftAloneWith(s, l, r);
      var task := s.th[l.t].task;
      assert Private(task).Some? ==> Private(task).value in s.srv.clients && !Indexed(s.srv, Private(task).value);
      if r in s.srv.clients && r in s'.srv.clients {
        InIdStep(s, l, r);
      }
    }
  }

  ghost predicate NeverOrphans(s: System, ls: seq<Label>)
    requires Legal(s, ls)
    decreases |ls|
  {
    NoOrphans(s) && (ls == [] || NeverOrphans(Apply(s, ls[0]), ls[1..]))
  }

  predicate AlwaysFresh(s: System, ls: seq<Label>)
    requires Legal(s, ls)
    decreases |ls|
  {
    ls == [] || (RegistersFresh(s, ls[0]) && AlwaysFresh(Apply(s, ls[0]), ls[1..]))
  }

  lemma {:induction false} OrphanRun(s: System, ls: seq<Label>)
    requires MemInv(s) && NoOrphans(s) && Legal(s, ls)
    ensures NeverOrphans(s, ls) <==> AlwaysFresh(s, ls)
    decreases |ls|
  {
    if ls != [] {
      var s' := Apply(s, ls[0]);
      MemStep(s, ls[0]);
      forall r
        ensures Orphan(s', r) <==> !RegistersFresh(s, ls[0]) && s.th[ls[0].t].task.ref == r
      {
        OrphanStep(s, ls[0], r);
      }
      if RegistersFresh(s, ls[0]) {
        OrphanRun(s', ls[1..]);
      } else {
        assert Orphan(s', s.th[ls[0].t].task.ref);
      }
    }
  }

  /**
    Over every run from a fresh server: every live session is filed under its
    identity or in the hands of one thread, exactly if every registration finds
    its identity free.
  */
  lemma OrphansIff(n: nat, lower: nat, upper: nat, clock: int, config: Config, ls: seq<Label>)
    requires Legal(Start(n, lower, upper, clock, config), ls)
    ensures var s := Start(n, lower, upper, clock, config);
      NeverOrphans(s, ls) <==> AlwaysFresh(s, ls)
  {
    MemStart(n, lower, upper, clock, config);
    OrphanRun(Start(n, lower, upper, clock, config), ls);
  }

  /** An orphan is never deleted, and its address never comes back. */
  lemma {:induction false} OrphanForever(s: System, ls: seq<Label>, r: Ref)
    requires MemInv(s) && Legal(s, ls) && Orphan(s, r)
    ensures var e := Exec(s, ls);
      Orphan(e, r) && e.srv.clients[r].ip == s.srv.clients[r].ip && Taken(BooksOf(e), s.srv.clients[r].ip)
    decreases |ls|
  {
    if ls == [] {
      StillTaken(s, r);
    } else {
      OrphanStep(s, ls[0], r);
      OrphanKeepsAddress(s, ls[0], r);
      MemStep(s, ls[0]);
      OrphanForever(Apply(s, ls[0]), ls[1..], r);
    }
  }

  lemma OrphanKeepsAddress(s: System, l: Label, r: Ref)
    requires MemInv(s) && Enabled(s, l) && Orphan(s, r) && r in Apply(s, l).srv.clients
    ensures Apply(s, l).srv.clients[r].ip == s.srv.clients[r].ip
  {
    if l.Work? {
      var task := s.th[l.t].task;
      assert Private(task).Some? ==> Private(task).value in s.srv.clients;
      assert Borrowed(task).Some? ==> Borrowed(task).value in s.srv.clients;
      EffectOnObject(s, task, l.random, l.id, r);
    }
  }

  lemma StillTaken(s: System, r: Ref)
    requires Orphan(s, r)
    ensures Taken(BooksOf(s), s.srv.clients[r].ip)
  {
    assert forall t :: 0 <= t < |s.th| && Deletes(s.th[t].task, r) ==> Private(s.th[t].task) == Some(r);
    assert BooksOf(s).kept[r] == s.srv.clients[r].ip;
  }
}
