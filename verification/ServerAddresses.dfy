/** Conservation of virtual addresses over every interleaving. */
module ServerAddresses {
  import opened Common
  import opened Wire
  import opened Sessions
  import opened ServerProtocol
  import opened ServerMemory

  /** Who has which address: the pool, the sessions, and the threads between the two. */
  datatype Books = Books(pool: Pool, kept: map<Ref, nat>, carried: seq<Option<nat>>)

  /** The sweep has given the address back and is about to delete the session. */
  ghost predicate Released(s: System, r: Ref) {
    exists t :: 0 <= t < |s.th| && Deletes(s.th[t].task, r)
  }

  /** An address allocated by a thread that has yet to build the session. */
  function Carried(th: Thread): Option<nat> {
    if th.task.Attach? then Some(th.task.ip) else None
  }

  ghost function BooksOf(s: System): Books {
    Books(s.srv.pool,
          map r | r in s.srv.clients && !Released(s, r) :: s.srv.clients[r].ip,
          seq(|s.th|, t requires 0 <= t < |s.th| => Carried(s.th[t])))
  }

  // ----- Steps on the books

  function Take(b: Books, t: Tid): Books
    requires t < |b.carried|
  {
    var (pool, ip) := AllocateAddress(b.pool);
    Books(pool, b.kept, b.carried[t := if ip == 0 then None else Some(ip)])
  }

  function Keep(b: Books, t: Tid, r: Ref): Books
    requires t < |b.carried| && b.carried[t].Some?
  {
    Books(b.pool, b.kept[r := b.carried[t].value], b.carried[t := None])
  }

  function GiveBack(b: Books, r: Ref): Books
    requires r in b.kept
  {
    Books(ReleaseAddress(b.pool, b.kept[r]), b.kept - {r}, b.carried)
  }

  /** What a step of the system does to the books; every other step leaves them alone. */
  predicate BooksMove(s: System, l: Label, b: Books, b': Books) {
    if l.Work? && l.t < |s.th| && l.t < |b.carried| && s.th[l.t].task.Allocate? then
      b.carried[l.t].None? && b' == Take(b, l.t)
    else if l.Work? && l.t < |s.th| && l.t < |b.carried| && s.th[l.t].task.Attach? then
      b.carried[l.t].Some? && s.next !in b.kept && b' == Keep(b, l.t, s.next)
    else if l.Work? && l.t < |s.th| && s.th[l.t].task.Unlinked? then
      s.th[l.t].task.ref in b.kept && b' == GiveBack(b, s.th[l.t].task.ref)
    else b' == b
  }

  predicate Gives(s: System, l: Label, r: Ref) {
    l.Work? && l.t < |s.th| && s.th[l.t].task.Unlinked? && s.th[l.t].task.ref == r
  }

  predicate Builds(s: System, l: Label, r: Ref) {
    l.Work? && l.t < |s.th| && s.th[l.t].task.Attach? && s.next == r
  }

  lemma ReleasedStep(s: System, l: Label, r: Ref)
    requires MemInv(s) && Enabled(s, l) && l.Work? && !Deletes(s.th[l.t].task, r)
    requires r in s.srv.clients || r == s.next
    ensures Released(Apply(s, l), r) <==> Released(s, r) || Gives(s, l, r)
    ensures Released(s, r) ==> r in s.srv.clients && !Gives(s, l, r)
  {
    var th' := Apply(s, l).th;
    assert Deletes(th'[l.t].task, r) <==> Gives(s, l, r);
    assert forall t :: 0 <= t < |s.th| && t != l.t ==> th'[t] == s.th[t];
    if u :| 0 <= u < |s.th| && Deletes(s.th[u].task, r) {
      assert Private(s.th[u].task) == Some(r);
      assert Deletes(th'[u].task, r);
    }
  }

  function Kept(b: Books, r: Ref): Option<nat> {
    if r in b.kept then Some(b.kept[r]) else None
  }

  ghost function KeptAfter(s: System, l: Label, r: Ref): Option<nat> {
    if Gives(s, l, r) then None
    else if Builds(s, l, r) then Some(s.th[l.t].task.ip)
    else Kept(BooksOf(s), r)
  }

  lemma KeptStep(s: System, l: Label, r: Ref)
    requires MemInv(s) && Enabled(s, l) && l.Work?
    ensures Kept(BooksOf(Apply(s, l)), r) == KeptAfter(s, l, r)
    ensures Gives(s, l, r) ==> Kept(BooksOf(s), r) == Some(Deref(s.srv, r).ip)
    ensures Builds(s, l, r) ==> Kept(BooksOf(s), r) == None
  {
    var task := s.th[l.t].task;
    assert Private(task).Some? ==> Private(task).value in s.srv.clients;
    assert Borrowed(task).Some? ==> Borrowed(task).value in s.srv.clients;
    if Deletes(task, r) {
      assert Released(s, r);
    } else if r in s.srv.clients {
      ReleasedStep(s, l, r);
      EffectOnObject(s, task, l.random, l.id, r);
    } else if r == s.next {
      ReleasedStep(s, l, r);
    } else {
      assert r !in Apply(s, l).srv.clients;
    }
  }

  lemma KeptMap(s: System, l: Label, kept: map<Ref, nat>)
    requires MemInv(s) && Enabled(s, l) && l.Work?
    requires forall r :: Kept(BooksOf(s).(kept := kept), r) == KeptAfter(s, l, r)
    ensures BooksOf(Apply(s, l)).kept == kept
  {
    var b := BooksOf(Apply(s, l));
    forall r
      ensures Kept(b, r) == KeptAfter(s, l, r)
    {
      KeptStep(s, l, r);
    }
    SameKept(b, BooksOf(s).(kept := kept));
  }

  lemma CarriedStep(s: System, l: Label)
    requires MemInv(s) && Enabled(s, l) && l.Work?
    ensures BooksOf(Apply(s, l)).carried == BooksOf(s).carried[l.t :=
      if s.th[l.t].task.Allocate? && AllocateAddress(s.srv.pool).1 != 0 then Some(AllocateAddress(s.srv.pool).1)
      else None]
  {
  }

  lemma BooksStep(s: System, l: Label)
    requires MemInv(s) && Enabled(s, l)
    ensures BooksMove(s, l, BooksOf(s), BooksOf(Apply(s, l)))
  {
    var b := BooksOf(s);
    if l.Work? {
      CarriedStep(s, l);
      if s.th[l.t].task.Attach? {
        KeptStep(s, l, s.next);
        KeptMap(s, l, Keep(b, l.t, s.next).kept);
      } else if s.th[l.t].task.Unlinked? {
        KeptStep(s, l, s.th[l.t].task.ref);
        KeptMap(s, l, GiveBack(b, s.th[l.t].task.ref).kept);
      } else {
        KeptMap(s, l, b.kept);
      }
    } else {
      OnlyWorkReleases(s, l);
    }
  }

  lemma OnlyWorkReleases(s: System, l: Label)
    requires MemInv(s) && Enabled(s, l) && !l.Work?
    ensures BooksOf(Apply(s, l)) == BooksOf(s)
  {
    var s' := Apply(s, l);
    assert forall t :: 0 <= t < |s.th| ==>
      s'.th[t].task == s.th[t].task || (s.th[t].task.Idle? && Opens(s'.th[t].task));
    forall r
      ensures Released(s', r) <==> Released(s, r)
    {
      if u :| 0 <= u < |s.th| && Deletes(s.th[u].task, r) {
        assert Deletes(s'.th[u].task, r);
      }
      if u :| 0 <= u < |s'.th| && Deletes(s'.th[u].task, r) {
        assert Deletes(s.th[u].task, r);
      }
    }
  }

  lemma SameKept(b: Books, c: Books)
    requires forall r :: Kept(b, r) == Kept(c, r)
    ensures b.kept == c.kept
  {
    forall r
      ensures r in b.kept <==> r in c.kept
      ensures r in b.kept ==> b.kept[r] == c.kept[r]
    {
      assert Kept(b, r) == Kept(c, r);
    }
  }

  // ----- The ledger

  /** Where an address that has been handed out is now. */
  datatype Place = OnStack(index: nat) | WithSession(ref: Ref) | InHand(t: Tid)

  type Ledger = map<nat, Place>

  /** Handed out at least once. */
  predicate Circulates(a: nat, lower: nat, current: nat) {
    a < 0x1_0000_0000 && lower <= Htonl(a) < current
  }

  predicate IsAt(b: Books, a: nat, p: Place) {
    match p
    case OnStack(i) => i < |b.pool.free| && b.pool.free[i] == a
    case WithSession(r) => r in b.kept && b.kept[r] == a
    case InHand(t) => t < |b.carried| && b.carried[t] == Some(a)
  }

  /** The ledger and the books agree: whatever is at some place is listed there and nowhere else. */
  ghost predicate Filed(b: Books, w: Ledger) {
    && (forall a :: a in w ==> IsAt(b, a, w[a]))
    && (forall i :: 0 <= i < |b.pool.free| ==> b.pool.free[i] in w && w[b.pool.free[i]] == OnStack(i))
    && (forall r :: r in b.kept ==> b.kept[r] in w && w[b.kept[r]] == WithSession(r))
    && (forall t :: 0 <= t < |b.carried| && b.carried[t].Some? ==>
          b.carried[t].value in w && w[b.carried[t].value] == InHand(t))
  }

  /** The ledger lists exactly the addresses handed out so far. */
  ghost predicate Covers(w: Ledger, lower: nat, current: nat) {
    forall a :: a in w <==> Circulates(a, lower, current)
  }

  ghost predicate Balanced(b: Books, w: Ledger, lower: nat) {
    && 0 < lower <= b.pool.current <= b.pool.upper <= 0x1_0000_0000
    && Covers(w, lower, b.pool.current)
    && Filed(b, w)
  }

  lemma NextCirculates(w: Ledger, lower: nat, current: nat, p: Place)
    requires Covers(w, lower, current) && lower <= current < 0x1_0000_0000
    ensures Htonl(current) !in w
    ensures Covers(w[Htonl(current) := p], lower, current + 1)
  {
    HtonlInvolution(current);
    forall a | a < 0x1_0000_0000 && Htonl(a) == current
      ensures a == Htonl(current)
    {
      HtonlInvolution(a);
    }
  }

  lemma FileFresh(b: Books, w: Ledger, t: Tid, ip: nat, pool: Pool)
    requires Filed(b, w) && t < |b.carried| && b.carried[t].None? && ip !in w && pool.free == b.pool.free
    ensures Filed(Books(pool, b.kept, b.carried[t := Some(ip)]), w[ip := InHand(t)])
  {
  }

  lemma FileTop(b: Books, w: Ledger, t: Tid, ip: nat, pool: Pool)
    requires Filed(b, w) && t < |b.carried| && b.carried[t].None? && b.pool.free == pool.free + [ip]
    ensures ip in w && Filed(Books(pool, b.kept, b.carried[t := Some(ip)]), w[ip := InHand(t)])
  {
    assert b.pool.free[|pool.free|] == ip;
    assert forall i :: 0 <= i < |pool.free| ==> b.pool.free[i] == pool.free[i];
  }

  lemma TakeBalanced(b: Books, w: Ledger, lower: nat, t: Tid) returns (w': Ledger)
    requires Balanced(b, w, lower) && t < |b.carried| && b.carried[t].None?
    ensures Balanced(Take(b, t), w', lower)
  {
    var (pool, ip) := AllocateAddress(b.pool);
    if b.pool.current < b.pool.upper {
      HtonlInvolution(b.pool.current);
      NextCirculates(w, lower, b.pool.current, InHand(t));
      FileFresh(b, w, t, ip, pool);
      w' := w[ip := InHand(t)];
    } else if b.pool.free != [] {
      FileTop(b, w, t, ip, pool);
      HtonlInvolution(ip);
      w' := w[ip := InHand(t)];
    } else {
      w' := w;
      assert Take(b, t) == b;
    }
  }

  lemma KeepFiled(b: Books, w: Ledger, t: Tid, r: Ref)
    requires Filed(b, w) && t < |b.carried| && b.carried[t].Some? && r !in b.kept
    ensures b.carried[t].value in w && Filed(Keep(b, t, r), w[b.carried[t].value := WithSession(r)])
  {
  }

  lemma GiveBackFiled(b: Books, w: Ledger, r: Ref)
    requires Filed(b, w) && r in b.kept
    ensures b.kept[r] in w && Filed(GiveBack(b, r), w[b.kept[r] := OnStack(|b.pool.free|)])
  {
  }

  lemma {:induction false} LedgerRun(s: System, ls: seq<Label>, w: Ledger, lower: nat) returns (w': Ledger)
    requires MemInv(s) && Balanced(BooksOf(s), w, lower) && Legal(s, ls)
    ensures MemInv(Exec(s, ls)) && Balanced(BooksOf(Exec(s, ls)), w', lower)
    ensures Exec(s, ls).srv.pool.upper == s.srv.pool.upper
    decreases |ls|
  {
    w' := w;
    if ls != [] {
      var l, b := ls[0], BooksOf(s);
      MemStep(s, l);
      BooksStep(s, l);
      assert BooksOf(Apply(s, l)).pool.upper == b.pool.upper;
      if l.Work? && s.th[l.t].task.Allocate? {
        w' := TakeBalanced(b, w, lower, l.t);
      } else if l.Work? && s.th[l.t].task.Attach? {
        KeepFiled(b, w, l.t, s.next);
        w' := w[b.carried[l.t].value := WithSession(s.next)];
      } else if l.Work? && s.th[l.t].task.Unlinked? {
        GiveBackFiled(b, w, s.th[l.t].task.ref);
        w' := w[b.kept[s.th[l.t].task.ref] := OnStack(|b.pool.free|)];
      }
      w' := LedgerRun(Apply(s, l), ls[1..], w', lower);
    }
  }

  // ----- Conservation

  /** The address belongs to a session or to a thread that is building one. */
  ghost predicate Taken(b: Books, a: nat) {
    (exists r :: r in b.kept && b.kept[r] == a) || (exists t :: 0 <= t < |b.carried| && b.carried[t] == Some(a))
  }

  lemma ReachableBooks(n: nat, lower: nat, upper: nat, clock: int, config: Config, ls: seq<Label>) returns (w: Ledger)
    requires 0 < lower <= upper <= 0x1_0000_0000
    requires Legal(Start(n, lower, upper, clock, config), ls)
    ensures Balanced(BooksOf(Exec(Start(n, lower, upper, clock, config), ls)), w, lower)
    ensures Exec(Start(n, lower, upper, clock, config), ls).srv.pool.upper == upper
  {
    MemStart(n, lower, upper, clock, config);
    w := LedgerRun(Start(n, lower, upper, clock, config), ls, map[], lower);
  }

  /**
    In every reachable state: no address is on the stack twice, with two
    sessions or in two hands, none is both free and taken, and the free and the
    taken ones together are exactly those from the first up to the next fresh one.
  */
  lemma AddressConservation(n: nat, lower: nat, upper: nat, clock: int, config: Config, ls: seq<Label>)
    requires 0 < lower <= upper <= 0x1_0000_0000
    requires Legal(Start(n, lower, upper, clock, config), ls)
    ensures var b := BooksOf(Exec(Start(n, lower, upper, clock, config), ls));
      && (forall i, j :: 0 <= i < j < |b.pool.free| ==> b.pool.free[i] != b.pool.free[j])
      && (forall q, r :: q in b.kept && r in b.kept && q != r ==> b.kept[q] != b.kept[r])
      && (forall t, u :: 0 <= t < u < |b.carried| && b.carried[t].Some? ==> b.carried[t] != b.carried[u])
      && (forall r, t :: r in b.kept && 0 <= t < |b.carried| ==> b.carried[t] != Some(b.kept[r]))
      && (forall a :: a in b.pool.free ==> !Taken(b, a))
      && (forall a :: a in b.pool.free || Taken(b, a) <==> Circulates(a, lower, b.pool.current))
  {
    var w := ReachableBooks(n, lower, upper, clock, config, ls);
    FreeOrTaken(BooksOf(Exec(Start(n, lower, upper, clock, config), ls)), w, lower);
  }

  lemma FreeOrTaken(b: Books, w: Ledger, lower: nat)
    requires Balanced(b, w, lower)
    ensures forall a :: a in b.pool.free ==> !Taken(b, a)
    ensures forall a :: a in b.pool.free || Taken(b, a) <==> Circulates(a, lower, b.pool.current)
  {
  }

  /** Allocation fails exactly when every address of the range is taken. */
  lemma ExhaustedIff(n: nat, lower: nat, upper: nat, clock: int, config: Config, ls: seq<Label>)
    requires 0 < lower <= upper <= 0x1_0000_0000
    requires Legal(Start(n, lower, upper, clock, config), ls)
    ensures var b := BooksOf(Exec(Start(n, lower, upper, clock, config), ls));
      AllocateAddress(b.pool).1 == 0 <==> forall x :: lower <= x < upper ==> Taken(b, Htonl(x))
  {
    var w := ReachableBooks(n, lower, upper, clock, config, ls);
    var b := BooksOf(Exec(Start(n, lower, upper, clock, config), ls));
    AllTaken(b, w, lower);
  }

  lemma AllTaken(b: Books, w: Ledger, lower: nat)
    requires Balanced(b, w, lower)
    ensures AllocateAddress(b.pool).1 == 0 <==> forall x :: lower <= x < b.pool.upper ==> Taken(b, Htonl(x))
  {
    FreeOrTaken(b, w, lower);
    forall x | lower <= x < b.pool.upper
      ensures Htonl(x) != 0
      ensures Circulates(Htonl(x), lower, b.pool.current) <==> x < b.pool.current
    {
      HtonlInvolution(x);
    }
    if b.pool.current == b.pool.upper && b.pool.free != [] {
      var a := b.pool.free[|b.pool.free| - 1];
      assert a in b.pool.free && a in w;
      HtonlInvolution(a);
      assert !Taken(b, Htonl(Htonl(a)));
    }
  }

  /** 10.20.30.x in host order, as the server's constructor writes its bounds. */
  function HostAddress(x: nat): nat {
    ((10 * 256 + 20) * 256 + 30) * 256 + x
  }

  lemma HostToNetwork(a: nat, current: nat)
    requires Circulates(a, HostAddress(100), current) && current <= HostAddress(200)
    ensures exists x :: 100 <= x < 200 && a == FromBytes(10, 20, 30, x) && a != FromBytes(10, 20, 30, 1)
  {
    var x := Htonl(a) - HostAddress(0);
    HtonlInvolution(a);
    HtonlBytes(x, 30, 20, 10);
    assert FromBytes(x, 30, 20, 10) == HostAddress(x);
    assert a == FromBytes(10, 20, 30, x);
  }

  /**
    With the bounds of the constructor, 10.20.30.100 and 10.20.30.200: whatever is
    free or taken in a reachable state is one of the addresses 10.20.30.100 to
    10.20.30.199 in network order, so never the gateway 10.20.30.1.
  */
  lemma AddressesGiven(n: nat, clock: int, config: Config, ls: seq<Label>, a: nat)
    requires Legal(Start(n, HostAddress(100), HostAddress(200), clock, config), ls)
    ensures var b := BooksOf(Exec(Start(n, HostAddress(100), HostAddress(200), clock, config), ls));
      a in b.pool.free || Taken(b, a) ==>
        exists x :: 100 <= x < 200 && a == FromBytes(10, 20, 30, x) && a != FromBytes(10, 20, 30, 1)
  {
    var s0 := Start(n, HostAddress(100), HostAddress(200), clock, config);
    var w := ReachableBooks(n, HostAddress(100), HostAddress(200), clock, config, ls);
    var b := BooksOf(Exec(s0, ls));
    FreeOrTaken(b, w, HostAddress(100));
    if a in b.pool.free || Taken(b, a) {
      HostToNetwork(a, b.pool.current);
    }
  }
}
