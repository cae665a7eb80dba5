/** Who loses its entry in the MAC index, and when. */
module MacBindings {
  import opened Wire
  import opened Sessions
  import opened ServerProtocol
  import opened ServerMemory
  import opened ServerIndexes

  /** A sweep drops a session with this MAC, be it the one bound to the MAC or another. */
  predicate DropsMac(s: System, l: Label, m: Key) {
    Drops(s, l, LabelId(l)) && Deref(s.srv, s.srv.id[LabelId(l)]).mac == m
  }

  function LabelId(l: Label): nat {
    if l.Work? then l.id else 0
  }

  lemma MacBindingStep(s: System, l: Label, m: Key)
    requires MemInv(s) && Enabled(s, l) && m in s.srv.mac
    ensures var s' := Apply(s, l);
      && (DropsMac(s, l, m) <==> m !in s'.srv.mac)
      && (m in s'.srv.mac ==> s'.srv.mac[m] == s.srv.mac[m])
  {
  }

  /** The MAC leads to the same session in every state of the run. */
  predicate AlwaysBound(s: System, ls: seq<Label>, m: Key, r: Ref)
    requires Legal(s, ls)
    decreases |ls|
  {
    m in s.srv.mac && s.srv.mac[m] == r && (ls == [] || AlwaysBound(Apply(s, ls[0]), ls[1..], m, r))
  }

  predicate NeverDropped(s: System, ls: seq<Label>, m: Key)
    requires Legal(s, ls)
    decreases |ls|
  {
    ls == [] || (!DropsMac(s, ls[0], m) && NeverDropped(Apply(s, ls[0]), ls[1..], m))
  }

  /** Over any run, a MAC keeps its session exactly until a sweep drops some session with that MAC. */
  lemma {:induction false} MacBindingIff(s: System, ls: seq<Label>, m: Key)
    requires MemInv(s) && Legal(s, ls) && m in s.srv.mac
    ensures AlwaysBound(s, ls, m, s.srv.mac[m]) <==> NeverDropped(s, ls, m)
    decreases |ls|
  {
    if ls != [] {
      MacBindingStep(s, ls[0], m);
      MemStep(s, ls[0]);
      if !DropsMac(s, ls[0], m) {
        MacBindingIff(Apply(s, ls[0]), ls[1..], m);
      }
    }
  }

  /** A sweep drops another session that has the MAC of the one bound to `k`. */
  predicate DropsNamesake(s: System, l: Label, k: nat)
    requires k in s.srv.id
  {
    DropsMac(s, l, Deref(s.srv, s.srv.id[k]).mac) && LabelId(l) != k
  }

  /** The session bound to `k` is routable in every state of the run. */
  predicate AlwaysRoutable(s: System, ls: seq<Label>, k: nat)
    requires Legal(s, ls)
    decreases |ls|
  {
    k in s.srv.id && InMac(s.srv, s.srv.id[k]) && (ls == [] || AlwaysRoutable(Apply(s, ls[0]), ls[1..], k))
  }

  predicate NoNamesakeDropped(s: System, ls: seq<Label>, k: nat)
    requires Legal(s, ls)
    decreases |ls|
  {
    ls == [] || (k in s.srv.id && !DropsNamesake(s, ls[0], k) && NoNamesakeDropped(Apply(s, ls[0]), ls[1..], k))
  }

  lemma RoutableStep(s: System, l: Label, k: nat)
    requires MemInv(s) && Enabled(s, l) && k in s.srv.id && InMac(s.srv, s.srv.id[k]) && !Drops(s, l, k)
    ensures var s' := Apply(s, l);
      k in s'.srv.id && (InMac(s'.srv, s'.srv.id[k]) <==> !DropsNamesake(s, l, k))
  {
    var r := s.srv.id[k];
    BindingStep(s, l, k);
    MacBindingStep(s, l, s.srv.clients[r].mac);
    MemStep(s, l);
    SameMac(s, l, k);
  }

  lemma SameMac(s: System, l: Label, k: nat)
    requires MemInv(s) && Enabled(s, l) && k in s.srv.id && !Drops(s, l, k)
    ensures Deref(Apply(s, l).srv, s.srv.id[k]).mac == s.srv.clients[s.srv.id[k]].mac
  {
    if l.Work? {
      var task := s.th[l.t].task;
      assert Private(task).Some? ==> Private(task).value in s.srv.clients && !Indexed(s.srv, Private(task).value);
      assert Borrowed(task).Some? ==> Borrowed(task).value in s.srv.clients;
      EffectOnObject(s, task, l.random, l.id, s.srv.id[k]);
    }
  }

  /**
    A session that is heard in time at every sweep can be routed to for as long
    as no other session with its MAC is dropped, and no longer: the sweep erases
    the entry of the MAC whoever it belongs to.
  */
  lemma {:induction false} RoutableIff(s: System, ls: seq<Label>, k: nat)
    requires MemInv(s) && Legal(s, ls) && k in s.srv.id && InMac(s.srv, s.srv.id[k]) && HeardInTime(s, ls, k)
    ensures AlwaysRoutable(s, ls, k) <==> NoNamesakeDropped(s, ls, k)
    decreases |ls|
  {
    if ls != [] {
      RoutableStep(s, ls[0], k);
      MemStep(s, ls[0]);
      if !DropsNamesake(s, ls[0], k) {
        RoutableIff(Apply(s, ls[0]), ls[1..], k);
      }
    }
  }
}
