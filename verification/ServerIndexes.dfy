/** How the two indexes agree, and how long an identity stays bound. */
module ServerIndexes {
  import opened Common
  import opened Sessions
  import opened ServerProtocol
  import opened ServerMemory

  // ----- Agreement of the two indexes

  predicate Registers(s: System, l: Label) {
    l.Work? && l.t < |s.th| && s.th[l.t].task.Register?
  }

  /** A new session may enter the MAC index only together with the identity index. */
  predicate KeepsNested(s: System, l: Label) {
    Registers(s, l) ==>
      var c := Deref(s.srv, s.th[l.t].task.ref);
      c.identity !in s.srv.id || c.mac in s.srv.mac
  }

  /** A new session enters both indexes or neither. */
  predicate KeepsEqual(s: System, l: Label) {
    Registers(s, l) ==>
      var c := Deref(s.srv, s.th[l.t].task.ref);
      c.identity in s.srv.id <==> c.mac in s.srv.mac
  }

  lemma IndexStep(s: System, l: Label)
    requires MemInv(s) && Enabled(s, l) && MacWithinId(s.srv)
    ensures MacWithinId(Apply(s, l).srv) <==> KeepsNested(s, l)
    ensures IdWithinMac(s.srv) ==>
      (MacWithinId(Apply(s, l).srv) && IdWithinMac(Apply(s, l).srv) <==> KeepsEqual(s, l))
  {
    if l.Work? {
      var task := s.th[l.t].task;
      if task.Register? {
        assert Private(task) == Some(task.ref);
        InsertAgreement(s.srv, task.ref, task.peer, s.config);
      } else if task.Scan? && Stale(s.srv, l.id, task.now, task.left) {
        UnlinkAgreement(s.srv, l.id);
      } else {
        SameIndexes(s, l);
      }
    }
  }

  /** Every other piece of code leaves both indexes, and what they say of each object, alone. */
  lemma SameIndexes(s: System, l: Label)
    requires MemInv(s) && Enabled(s, l) && l.Work? && !s.th[l.t].task.Register?
    requires var task := s.th[l.t].task; task.Scan? ==> !Stale(s.srv, l.id, task.now, task.left)
    ensures var s' := Apply(s, l);
      && s'.srv.id == s.srv.id && s'.srv.mac == s.srv.mac
      && (forall k :: k in s.srv.id ==> (InMac(s'.srv, s.srv.id[k]) <==> InMac(s.srv, s.srv.id[k])))
      && (forall k :: k in s.srv.mac ==> (InId(s'.srv, s.srv.mac[k]) <==> InId(s.srv, s.srv.mac[k])))
  {
    var task := s.th[l.t].task;
    assert Private(task).Some? ==> Private(task).value in s.srv.clients && !Indexed(s.srv, Private(task).value);
    assert Borrowed(task).Some? ==> Borrowed(task).value in s.srv.clients;
    forall r | r in s.srv.clients && Indexed(s.srv, r)
      ensures r in Apply(s, l).srv.clients && SameSession(Apply(s, l).srv.clients[r], s.srv.clients[r])
    {
      EffectOnObject(s, task, l.random, l.id, r);
    }
    SameAgreement(s.srv, Apply(s, l).srv);
  }

  lemma SameAgreement(a: Server, b: Server)
    requires KeysAgree(a) && b.id == a.id && b.mac == a.mac
    requires forall r :: r in a.clients && Indexed(a, r) ==> r in b.clients && SameSession(b.clients[r], a.clients[r])
    ensures forall k :: k in a.id ==> (InMac(b, a.id[k]) <==> InMac(a, a.id[k]))
    ensures forall k :: k in a.mac ==> (InId(b, a.mac[k]) <==> InId(a, a.mac[k]))
  {
    forall k | k in a.id
      ensures InMac(b, a.id[k]) <==> InMac(a, a.id[k])
    {
      assert Indexed(a, a.id[k]);
    }
    forall k | k in a.mac
      ensures InId(b, a.mac[k]) <==> InId(a, a.mac[k])
    {
      assert Indexed(a, a.mac[k]);
    }
  }

  ghost predicate AlwaysNested(s: System, ls: seq<Label>)
    requires Legal(s, ls)
    decreases |ls|
  {
    MacWithinId(s.srv) && (ls == [] || AlwaysNested(Apply(s, ls[0]), ls[1..]))
  }

  predicate RegistersNested(s: System, ls: seq<Label>)
    requires Legal(s, ls)
    decreases |ls|
  {
    ls == [] || (KeepsNested(s, ls[0]) && RegistersNested(Apply(s, ls[0]), ls[1..]))
  }

  ghost predicate AlwaysEqual(s: System, ls: seq<Label>)
    requires Legal(s, ls)
    decreases |ls|
  {
    MacWithinId(s.srv) && IdWithinMac(s.srv) && (ls == [] || AlwaysEqual(Apply(s, ls[0]), ls[1..]))
  }

  predicate RegistersEqual(s: System, ls: seq<Label>)
    requires Legal(s, ls)
    decreases |ls|
  {
    ls == [] || (KeepsEqual(s, ls[0]) && RegistersEqual(Apply(s, ls[0]), ls[1..]))
  }

  lemma {:induction false} NestedRun(s: System, ls: seq<Label>)
    requires MemInv(s) && MacWithinId(s.srv) && Legal(s, ls)
    ensures AlwaysNested(s, ls) <==> RegistersNested(s, ls)
    decreases |ls|
  {
    if ls != [] {
      IndexStep(s, ls[0]);
      MemStep(s, ls[0]);
      var s' := Apply(s, ls[0]);
      if MacWithinId(s'.srv) {
        NestedRun(s', ls[1..]);
      }
    }
  }

  lemma {:induction false} EqualRun(s: System, ls: seq<Label>)
    requires MemInv(s) && MacWithinId(s.srv) && IdWithinMac(s.srv) && Legal(s, ls)
    ensures AlwaysEqual(s, ls) <==> RegistersEqual(s, ls)
    decreases |ls|
  {
    if ls != [] {
      IndexStep(s, ls[0]);
      MemStep(s, ls[0]);
      var s' := Apply(s, ls[0]);
      if MacWithinId(s'.srv) && IdWithinMac(s'.srv) {
        EqualRun(s', ls[1..]);
      }
    }
  }

  /**
    Over every run from a fresh server, the MAC index stays inside the identity
    index exactly when no session is registered under a taken identity and a free
    MAC; the two indexes hold the same sessions throughout exactly when every
    session is registered with both keys free or both taken.
  */
  lemma IndexAgreement(n: nat, lower: nat, upper: nat, clock: int, config: Config, ls: seq<Label>)
    requires Legal(Start(n, lower, upper, clock, config), ls)
    ensures var s := Start(n, lower, upper, clock, config);
      && (AlwaysNested(s, ls) <==> RegistersNested(s, ls))
      && (AlwaysEqual(s, ls) <==> RegistersEqual(s, ls))
  {
    var s := Start(n, lower, upper, clock, config);
    MemStart(n, lower, upper, clock, config);
    NestedRun(s, ls);
    EqualRun(s, ls);
  }

  // ----- Bindings

  /** The sweep finds the session bound to `k` silent and drops it. */
  predicate Drops(s: System, l: Label, k: nat) {
    l.Work? && l.t < |s.th| && s.th[l.t].task.Scan? && l.id == k
    && Stale(s.srv, k, s.th[l.t].task.now, s.th[l.t].task.left)
  }

  /** An identity keeps its session until a sweep drops it. */
  lemma BindingStep(s: System, l: Label, k: nat)
    requires MemInv(s) && Enabled(s, l) && k in s.srv.id
    ensures var s' := Apply(s, l);
      && (Drops(s, l, k) <==> k !in s'.srv.id)
      && (k in s'.srv.id ==> s'.srv.id[k] == s.srv.id[k])
  {
  }

  /** No sweep of the run looks at `k` when its session has been silent for too long. */
  predicate HeardInTime(s: System, ls: seq<Label>, k: nat)
    requires Legal(s, ls)
    decreases |ls|
  {
    ls == [] || (!Drops(s, ls[0], k) && HeardInTime(Apply(s, ls[0]), ls[1..], k))
  }

  /** A session heard in time at every sweep stays bound to the same live object. */
  lemma {:induction false} Survives(s: System, ls: seq<Label>, k: nat)
    requires MemInv(s) && Legal(s, ls) && k in s.srv.id && HeardInTime(s, ls, k)
    ensures var e := Exec(s, ls);
      k in e.srv.id && e.srv.id[k] == s.srv.id[k] && e.srv.id[k] in e.srv.clients
    decreases |ls|
  {
    if ls != [] {
      BindingStep(s, ls[0], k);
      MemStep(s, ls[0]);
      Survives(Apply(s, ls[0]), ls[1..], k);
    }
  }
}
