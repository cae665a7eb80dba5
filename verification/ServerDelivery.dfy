/** Under every interleaving, a frame goes to each of its targets exactly once. */
module ServerDelivery {
  import opened Common
  import opened Wire
  import opened Sessions
  import opened ServerProtocol
  import opened ServerMemory
  import opened ServerRouting

  /** A thread with a frame, from the moment it is inside the index lock until it leaves. */
  predicate Sending(th: Thread) {
    (th.task.Begin? && th.dict.InS?) || th.task.Cast? || th.task.CastAt?
  }

  /** The MAC entries that are still to be served. */
  function Pending(s: Server, task: Task): set<Key> {
    match task
    case Begin(frame) => if |frame| < ETHERNET then {} else Targets(s, frame)
    case Cast(_, todo) => todo
    case CastAt(_, todo, r) => todo + {Deref(s, r).mac}
    case _ => {}
  }

  function FrameOf(task: Task): Option<Bytes> {
    match task
    case Begin(frame) => Some(frame)
    case Cast(frame, _) => Some(frame)
    case CastAt(frame, _, _) => Some(frame)
    case _ => None
  }

  predicate SendsNow(s: System, l: Label, t: Tid) {
    l.Work? && l.t == t && t < |s.th| && s.th[t].task.CastAt?
  }

  /** One send: the MAC entry served, where its session last spoke from, and what went out. */
  datatype Delivery = Delivery(key: Key, latest: Option<Peer>, out: seq<Datagram>)

  function DeliveryAt(s: System, l: Label, t: Tid): Delivery
    requires Enabled(s, l) && SendsNow(s, l, t)
  {
    var key := Deref(s.srv, s.th[t].task.ref).mac;
    var latest := if key in s.srv.mac then Latest(s.log, s.srv.mac[key]) else None;
    var after := Apply(s, l).srv.sent;
    Delivery(key, latest, if s.srv.sent <= after then after[|s.srv.sent|..] else after)
  }

  /** The sends of one thread over a run. */
  function Deliveries(s: System, ls: seq<Label>, t: Tid): seq<Delivery>
    requires Legal(s, ls)
    decreases |ls|
  {
    if ls == [] then []
    else
      var rest := Deliveries(Apply(s, ls[0]), ls[1..], t);
      if SendsNow(s, ls[0], t) then [DeliveryAt(s, ls[0], t)] + rest else rest
  }

  function Keys(ds: seq<Delivery>): (ks: seq<Key>)
    ensures |ks| == |ds|
  {
    seq(|ds|, i requires 0 <= i < |ds| => ds[i].key)
  }

  /** The frame, to where the session filed under the key last spoke from, once. */
  predicate Carries(d: Delivery, frame: Bytes) {
    && d.latest.Some? && |d.out| == 1
    && d.out[0].message == RelayData(frame)
    && d.out[0].to.ip == d.latest.value.ip && d.out[0].to.port == d.latest.value.port
  }

  /** The run does not go past the end of the send. */
  predicate Throughout(s: System, ls: seq<Label>, t: Tid)
    requires Legal(s, ls)
    decreases |ls|
  {
    ls == [] || (t < |s.th| && Sending(s.th[t]) && Throughout(Apply(s, ls[0]), ls[1..], t))
  }

  /** What other threads do while one sends takes nothing away and adds nothing. */
  lemma PendingOther(s: System, l: Label, t: Tid)
    requires MemInv(s) && HistoryInv(s) && Enabled(s, l) && l.Work? && l.t != t && t < |s.th| && Sending(s.th[t])
    ensures Pending(Apply(s, l).srv, s.th[t].task) == Pending(s.srv, s.th[t].task)
  {
    var task := s.th[l.t].task;
    assert Shape(s.th[t]) && Shape(s.th[l.t]);
    assert !Clash(StageOf(s.th[l.t], Dict), StageOf(s.th[t], Dict));
    assert !Rewrites(task);
    if s.th[t].task.CastAt? {
      var r := s.th[t].task.ref;
      assert Borrowed(s.th[t].task) == Some(r);
      assert Borrowed(task).Some? ==> Borrowed(task).value in s.srv.clients;
      EffectOnObject(s, task, l.random, l.id, r);
    }
  }

  /** A step of the sender itself serves the one entry it stands at, or none. */
  lemma PendingOwn(s: System, l: Label, t: Tid)
    requires MemInv(s) && HistoryInv(s) && Enabled(s, l) && l.Work? && l.t == t && Sending(s.th[t])
    ensures var s' := Apply(s, l);
      && Pending(s'.srv, s'.th[t].task) == Pending(s.srv, s.th[t].task) -
           (if SendsNow(s, l, t) then {DeliveryAt(s, l, t).key} else {})
      && (Sending(s'.th[t]) ==> FrameOf(s'.th[t].task) == FrameOf(s.th[t].task))
  {
    assert Aims(s.srv, s.th[t].task) && Shape(s.th[t]);
    assert Borrowed(s.th[t].task).Some? ==> Borrowed(s.th[t].task).value in s.srv.clients;
  }

  lemma PendingStep(s: System, l: Label, t: Tid)
    requires MemInv(s) && HistoryInv(s) && Enabled(s, l) && t < |s.th| && Sending(s.th[t])
    ensures var s' := Apply(s, l);
      && t < |s'.th|
      && Pending(s'.srv, s'.th[t].task) == Pending(s.srv, s.th[t].task) -
           (if SendsNow(s, l, t) then {DeliveryAt(s, l, t).key} else {})
      && (Sending(s'.th[t]) ==> FrameOf(s'.th[t].task) == FrameOf(s.th[t].task))
  {
    if l.Work? {
      if l.t == t {
        PendingOwn(s, l, t);
      } else {
        PendingOther(s, l, t);
      }
    } else {
      assert Shape(s.th[t]);
    }
  }

  lemma DeliveryIsRight(s: System, l: Label, t: Tid)
    requires MemInv(s) && HistoryInv(s) && Enabled(s, l) && SendsNow(s, l, t)
    ensures var d := DeliveryAt(s, l, t);
      d.key in Pending(s.srv, s.th[t].task) && Carries(d, s.th[t].task.frame)
  {
    var r := s.th[t].task.ref;
    assert Aims(s.srv, s.th[t].task);
    assert Borrowed(s.th[t].task) == Some(r);
    assert Apply(s, l).srv.sent[|s.srv.sent|..] == [Datagram(s.srv.clients[r].address, RelayData(s.th[t].task.frame))];
  }

  /** Of the entries `start`, those in `ds` were served once each and properly; those in `left` are pending. */
  ghost predicate Accounts(start: set<Key>, ds: seq<Delivery>, left: set<Key>, frame: Bytes) {
    && Distinct(Keys(ds))
    && (forall k :: k in start <==> k in Keys(ds) || k in left)
    && (forall k :: k in Keys(ds) ==> k !in left)
    && (forall d :: d in ds ==> Carries(d, frame))
  }

  lemma OneMore(start: set<Key>, d: Delivery, ds: seq<Delivery>, left: set<Key>, frame: Bytes)
    requires d.key in start && Carries(d, frame) && Accounts(start - {d.key}, ds, left, frame)
    ensures Accounts(start, [d] + ds, left, frame)
  {
    assert Keys([d] + ds) == [d.key] + Keys(ds);
    assert d.key !in Keys(ds);
  }

  lemma {:induction false} DeliveriesRun(s: System, ls: seq<Label>, t: Tid, frame: Bytes)
    requires MemInv(s) && HistoryInv(s) && SentInv(s) && Legal(s, ls) && Throughout(s, ls, t) && t < |s.th|
    requires ls != [] ==> FrameOf(s.th[t].task) == Some(frame)
    ensures var e := Exec(s, ls);
      t < |e.th| &&
      Accounts(Pending(s.srv, s.th[t].task), Deliveries(s, ls, t), Pending(e.srv, e.th[t].task), frame)
    decreases |ls|
  {
    if ls != [] {
      var s', e := Apply(s, ls[0]), Exec(s, ls);
      HistoryStep(s, ls[0]);
      PendingStep(s, ls[0], t);
      DeliveriesRun(s', ls[1..], t, frame);
      if SendsNow(s, ls[0], t) {
        DeliveryIsRight(s, ls[0], t);
        OneMore(Pending(s.srv, s.th[t].task), DeliveryAt(s, ls[0], t), Deliveries(s', ls[1..], t),
                Pending(e.srv, e.th[t].task), frame);
      }
    }
  }

  /** The MAC entries a frame is for: all of them if it is group-addressed, else the one of its destination. */
  lemma TargetsOf(s: Server, frame: Bytes)
    requires |frame| >= 18
    ensures frame[0] % 2 == 1 ==> Targets(s, frame) == s.mac.Keys
    ensures frame[0] % 2 == 0 ==> Targets(s, frame) == if frame[..6] in s.mac then {frame[..6]} else {}
  {
  }

  /**
    From any reachable state in which a thread has just got the index lock for a
    frame, over any run of all threads up to some point of the send: no entry is
    served twice, the entries served and those pending are together exactly the
    targets of the frame at the start, and each entry served was sent the frame,
    once, to where its session last spoke from.  When the thread leaves, nothing
    is pending: a group-addressed frame has gone to every MAC entry, a unicast
    frame to the one filed under its destination or to nobody.
  */
  lemma Delivered(n: nat, lower: nat, upper: nat, clock: int, config: Config, before: seq<Label>,
                  ls: seq<Label>, t: Tid, frame: Bytes)
    requires Legal(Start(n, lower, upper, clock, config), before) && t < n
    requires var s := Exec(Start(n, lower, upper, clock, config), before);
      |s.th| == n && s.th[t].task == Begin(frame) && s.th[t].dict.InS? && Legal(s, ls) && Throughout(s, ls, t)
    ensures var s := Exec(Start(n, lower, upper, clock, config), before);
      var ds, e := Deliveries(s, ls, t), Exec(s, ls);
      var served := set d | d in ds :: d.key;
      && |e.th| == n && |frame| >= 18
      && Distinct(Keys(ds)) && served !! Pending(e.srv, e.th[t].task)
      && served + Pending(e.srv, e.th[t].task) == Targets(s.srv, frame)
      && (e.th[t].task.Leave? ==>
            served == if frame[0] % 2 == 1 then s.srv.mac.Keys
                      else if frame[..6] in s.srv.mac then {frame[..6]} else {})
      && (forall d :: d in ds ==> Carries(d, frame))
  {
    var s0 := Start(n, lower, upper, clock, config);
    MemStart(n, lower, upper, clock, config);
    HistoryRun(s0, before);
    var s := Exec(s0, before);
    assert Shape(s.th[t]);
    DeliveriesRun(s, ls, t, frame);
    TargetsOf(s.srv, frame);
    MemRun(s, ls);
    var ds := Deliveries(s, ls, t);
    forall k
      ensures k in (set d | d in ds :: d.key) <==> k in Keys(ds)
    {
      assert forall i :: 0 <= i < |ds| ==> Keys(ds)[i] == ds[i].key && ds[i] in ds;
    }
  }
}
