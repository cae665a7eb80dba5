/**
  The two models of the server meet: a handler that runs by itself in the
  interleaved model does to the shared state what the server object's method does.
*/
module HandlersAlone {
  import opened Common
  import opened Wire
  import opened Sessions
  import opened ServerProtocol
  import opened SweepSpec
  import Impl = TunnelServerImpl

  /** Every thread but `t` is between handlers. */
  predicate OnlyBusy(s: System, t: Tid) {
    t < |s.th| && forall u :: 0 <= u < |s.th| && u != t ==> s.th[u] == RESTING
  }

  /** The run so far, as a label sequence and the state it leads to. */
  ghost predicate Leads(s0: System, ls: seq<Label>, s: System) {
    Legal(s0, ls) && Exec(s0, ls) == s
  }

  lemma {:induction false} Extend(s0: System, ls: seq<Label>, s: System, l: Label)
    requires Leads(s0, ls, s) && Enabled(s, l)
    ensures Leads(s0, ls + [l], Apply(s, l))
    decreases |ls|
  {
    if ls == [] {
      assert [] + [l] == [l] && [l][1..] == [];
      assert Legal(Apply(s, l), []);
    } else {
      assert (ls + [l])[0] == ls[0] && (ls + [l])[1..] == ls[1..] + [l];
      Extend(Apply(s0, ls[0]), ls[1..], s, l);
    }
  }

  /** Alone, a thread gets the lock it waits for. */
  lemma GrantAlone(s0: System, ls: seq<Label>, s: System, t: Tid) returns (ls': seq<Label>, s': System)
    requires Leads(s0, ls, s) && OnlyBusy(s, t) && Wanted(s.th[t]).Some?
    ensures Leads(s0, ls', s') && OnlyBusy(s', t)
    ensures s' == s.(th := s.th[t := Granted(s.th[t], Wanted(s.th[t]).value)])
  {
    assert forall u, l :: 0 <= u < |s.th| && u != t ==> StageOf(s.th[u], l).Out?;
    Extend(s0, ls, s, Grant(t));
    ls', s' := ls + [Grant(t)], Apply(s, Grant(t));
  }

  lemma WorkAlone(s0: System, ls: seq<Label>, s: System, t: Tid, random: nat, id: nat)
    returns (ls': seq<Label>, s': System)
    requires Leads(s0, ls, s) && OnlyBusy(s, t) && Wanted(s.th[t]).None?
    requires var task := s.th[t].task;
      && !task.Idle? && !task.Cast? && (task.Begin? ==> |task.frame| >= ETHERNET)
      && (task.Scan? && task.left != {} ==> id in task.left)
    ensures Leads(s0, ls', s') && OnlyBusy(s', t)
    ensures s' == Effect(s, s.th[t].task, random, id).(th := s.th[t := Continue(s, s.th[t], [], id)])
  {
    Extend(s0, ls, s, Work(t, random, [], id));
    ls', s' := ls + [Work(t, random, [], id)], Apply(s, Work(t, random, [], id));
  }

  lemma ArriveAlone(s: System, t: Tid, task: Task) returns (ls: seq<Label>, s': System)
    requires OnlyBusy(s, t) && s.th[t] == RESTING && Opens(task)
    ensures Leads(s, ls, s') && OnlyBusy(s', t) && s' == s.(th := s.th[t := Opening(task)])
  {
    assert Leads(s, [], s);
    Extend(s, [], s, Arrive(t, task));
    ls, s' := [] + [Arrive(t, task)], Apply(s, Arrive(t, task));
  }

  lemma HeartbeatAlone(s: System, t: Tid, peer: Peer, k: nat) returns (ls: seq<Label>, e: System)
    requires OnlyBusy(s, t) && s.th[t] == RESTING
    ensures Leads(s, ls, e) && e.th == s.th
    ensures e.srv == Impl.Heard(s.srv, peer, k, HEARTBEAT, s.clock)
    ensures e.clock == s.clock && e.next == s.next && e.config == s.config
  {
    ls, e := ArriveAlone(s, t, Task.Beat(peer, k));
    ls, e := GrantAlone(s, ls, e, t);
    ls, e := WorkAlone(s, ls, e, t, 0, 0);
    if k in s.srv.id {
      ls, e := GrantAlone(s, ls, e, t);
      ls, e := GrantAlone(s, ls, e, t);
      ls, e := WorkAlone(s, ls, e, t, 0, 0);
    }
    ls, e := WorkAlone(s, ls, e, t, 0, 0);
    assert e.th == s.th;
  }

  lemma AllocateAlone(s: System, t: Tid, peer: Peer, mac: Key) returns (ls: seq<Label>, e: System)
    requires OnlyBusy(s, t) && s.th[t] == RESTING
    ensures Leads(s, ls, e) && OnlyBusy(e, t)
    ensures var (pool, ip) := AllocateAddress(s.srv.pool);
      && e == s.(srv := s.srv.(pool := pool), th := e.th)
      && e.th == s.th[t := if ip == 0 then RESTING else RESTING.(task := Attach(peer, mac, ip))]
  {
    ls, e := ArriveAlone(s, t, Allocate(peer, mac));
    ls, e := GrantAlone(s, ls, e, t);
    ls, e := GrantAlone(s, ls, e, t);
    ls, e := WorkAlone(s, ls, e, t, 0, 0);
  }

  lemma AttachAlone(s0: System, ls: seq<Label>, s: System, t: Tid, random: nat) returns (ls': seq<Label>, e: System)
    requires Leads(s0, ls, s) && OnlyBusy(s, t) && s.th[t].task.Attach? && s.th[t] == RESTING.(task := s.th[t].task)
    ensures Leads(s0, ls', e) && e.th == s.th[t := RESTING]
    ensures var c := Client(s.th[t].task.ip, s.th[t].task.mac, s.th[t].task.peer, random, s.clock);
      && e.srv == Insert(s.srv.(clients := s.srv.clients[s.next := c]), s.next, s.th[t].task.peer, s.config)
      && e.next == s.next + 1 && e.clock == s.clock && e.config == s.config
  {
    ls', e := WorkAlone(s0, ls, s, t, random, 0);
    ls', e := GrantAlone(s0, ls', e, t);
    ls', e := GrantAlone(s0, ls', e, t);
    ls', e := WorkAlone(s0, ls', e, t, 0, 0);
    ls', e := WorkAlone(s0, ls', e, t, 0, 0);
    assert e.th == s.th[t := RESTING];
  }

  /** With a full-size packet; any other size is dropped before the first lock. */
  lemma StartSessionAlone(s: System, t: Tid, peer: Peer, packet: Bytes, random: nat) returns (ls: seq<Label>, e: System)
    requires OnlyBusy(s, t) && s.th[t] == RESTING && |packet| == START_SESSION
    ensures Leads(s, ls, e) && e.th == s.th
    ensures e.srv == Impl.Started(s.srv, s.next, peer, packet, random, s.clock, s.config)
    ensures e.clock == s.clock && e.config == s.config
    ensures e.next == s.next + if AllocateAddress(s.srv.pool).1 == 0 then 0 else 1
  {
    ls, e := AllocateAlone(s, t, peer, packet[..6]);
    if AllocateAddress(s.srv.pool).1 != 0 {
      ls, e := AttachAlone(s, ls, e, t, random);
    }
    assert e.th == s.th;
  }

  /** With a payload beyond a bare header; a shorter one is dropped before the first lock. */
  lemma LookupAlone(s: System, t: Tid, peer: Peer, k: nat, packet: Bytes) returns (ls: seq<Label>, e: System)
    requires OnlyBusy(s, t) && s.th[t] == RESTING && |packet| > ETHERNET
    ensures Leads(s, ls, e) && e.th == s.th
    ensures e.srv == Impl.Relayable(s.srv, peer, k, packet)
  {
    ls, e := ArriveAlone(s, t, Lookup(peer, k));
    ls, e := GrantAlone(s, ls, e, t);
    ls, e := WorkAlone(s, ls, e, t, 0, 0);
    ls, e := WorkAlone(s, ls, e, t, 0, 0);
    assert e.th == s.th;
  }

  /** A frame half way: it went to `order`, and `todo` are still to come. */
  ghost predicate HalfCast(s0: System, s: System, t: Tid, frame: Bytes, todo: set<Key>, order: seq<Key>) {
    && OnlyBusy(s, t) && s.th[t] == Thread(Cast(frame, todo), InS, Out, Out)
    && Distinct(order) && (forall k :: k in todo ==> k !in order)
    && s.srv == s0.srv.(sent := s0.srv.sent + Impl.Copies(s0.srv, order, frame))
  }

  lemma SendAlone(s0: System, ls: seq<Label>, s: System, t: Tid, frame: Bytes, todo: set<Key>, order: seq<Key>, k: Key)
    returns (ls': seq<Label>, s': System)
    requires Leads(s0, ls, s) && HalfCast(s0, s, t, frame, todo, order) && k in todo && k in s0.srv.mac
    ensures Leads(s0, ls', s') && HalfCast(s0, s', t, frame, todo - {k}, order + [k])
    ensures s'.th == s.th[t := s'.th[t]]
  {
    Extend(s0, ls, s, Work(t, 0, k, 0));
    ls', s' := ls + [Work(t, 0, k, 0)], Apply(s, Work(t, 0, k, 0));
    ls', s' := GrantAlone(s0, ls', s', t);
    ls', s' := WorkAlone(s0, ls', s', t, 0, 0);
    var copy := Datagram(Deref(s0.srv, s0.srv.mac[k]).address, Message.RelayData(frame));
    assert Impl.Copies(s0.srv, order + [k], frame) == Impl.Copies(s0.srv, order, frame) + [copy];
  }

  lemma {:induction false} CastAlone(s0: System, ls: seq<Label>, s: System, t: Tid, frame: Bytes,
                                     todo: set<Key>, order: seq<Key>)
    returns (ls': seq<Label>, s': System, order': seq<Key>)
    requires Leads(s0, ls, s) && HalfCast(s0, s, t, frame, todo, order) && todo <= s0.srv.mac.Keys
    ensures Leads(s0, ls', s') && HalfCast(s0, s', t, frame, {}, order')
    ensures forall k :: k in order' <==> k in order || k in todo
    ensures s'.th == s.th[t := s'.th[t]]
    decreases |todo|
  {
    if todo == {} {
      return ls, s, order;
    }
    var k :| k in todo;
    ls', s' := SendAlone(s0, ls, s, t, frame, todo, order, k);
    ls', s', order' := CastAlone(s0, ls', s', t, frame, todo - {k}, order + [k]);
  }

  /** A frame by itself goes to each of its targets once, as HandleFrame sends it. */
  lemma FrameAlone(s: System, t: Tid, frame: Bytes) returns (ls: seq<Label>, e: System, order: seq<Key>)
    requires OnlyBusy(s, t) && s.th[t] == RESTING && |frame| >= ETHERNET
    ensures Leads(s, ls, e) && e.th == s.th
    ensures Distinct(order) && (set k | k in order) == Targets(s.srv, frame)
    ensures e.srv == s.srv.(sent := s.srv.sent + Impl.Copies(s.srv, order, frame))
  {
    ls, e := ArriveAlone(s, t, Begin(frame));
    ls, e := GrantAlone(s, ls, e, t);
    ls, e := WorkAlone(s, ls, e, t, 0, 0);
    assert Impl.Copies(s.srv, [], frame) == [];
    assert s.srv.sent + [] == s.srv.sent;
    ls, e, order := CastAlone(s, ls, e, t, frame, Targets(s.srv, frame), []);
    Extend(s, ls, e, Work(t, 0, [], 0));
    ls, e := ls + [Work(t, 0, [], 0)], Apply(e, Work(t, 0, [], 0));
    ls, e := WorkAlone(s, ls, e, t, 0, 0);
    assert e.th == s.th;
  }

  /** A sweep half way: `dropped` are gone, `left` are still to be looked at. */
  ghost predicate HalfSwept(s0: System, s: System, t: Tid, now: int, left: set<nat>, dropped: seq<nat>) {
    && OnlyBusy(s, t) && s.th[t] == Thread(Scan(now, left), InX, Out, Out)
    && Droppable(s0.srv, dropped) && s.srv == Without(s0.srv, dropped)
    && left <= s0.srv.id.Keys
    && (forall k :: k in s0.srv.id ==>
          if k in left then k !in dropped else (k in dropped <==> Expired(Deref(s0.srv, s0.srv.id[k]), now)))
  }

  lemma DropAlone(s0: System, ls: seq<Label>, s: System, t: Tid, now: int, left: set<nat>, dropped: seq<nat>, k: nat)
    returns (ls': seq<Label>, s': System)
    requires Leads(s0, ls, s) && KeysAgree(s0.srv) && HalfSwept(s0, s, t, now, left, dropped)
    requires k in left && Expired(Deref(s0.srv, s0.srv.id[k]), now)
    ensures Leads(s0, ls', s') && HalfSwept(s0, s', t, now, left - {k}, dropped + [k])
    ensures s'.th == s.th[t := s'.th[t]]
  {
    Untouched(s0.srv, dropped, k);
    WithoutOneMore(s0.srv, dropped, k);
    var ref := s.srv.id[k];
    ls', s' := UnlinkAlone(s0, ls, s, t, k);
    ls', s' := GiveBackAlone(s0, ls', s', t, now, left - {k}, ref);
    assert s'.srv == Drop(s.srv, k);
  }

  lemma UnlinkAlone(s0: System, ls: seq<Label>, s: System, t: Tid, k: nat) returns (ls': seq<Label>, s': System)
    requires Leads(s0, ls, s) && OnlyBusy(s, t) && s.th[t].task.Scan? && s.th[t].dict.InX? && s.th[t].client.Out?
    requires k in s.th[t].task.left && Stale(s.srv, k, s.th[t].task.now, s.th[t].task.left)
    requires s.th[t].pool.Out?
    ensures Leads(s0, ls', s') && OnlyBusy(s', t) && s'.srv == Unlink(s.srv, k, s.srv.id[k])
    ensures s'.th == s.th[t := Thread(Unlinked(s.th[t].task.now, s.th[t].task.left - {k}, s.srv.id[k]), InX, Out, InX)]
  {
    ls', s' := WorkAlone(s0, ls, s, t, 0, k);
    ls', s' := GrantAlone(s0, ls', s', t);
    ls', s' := GrantAlone(s0, ls', s', t);
  }

  lemma GiveBackAlone(s0: System, ls: seq<Label>, s: System, t: Tid, now: int, left: set<nat>, ref: Ref)
    returns (ls': seq<Label>, s': System)
    requires Leads(s0, ls, s) && OnlyBusy(s, t) && s.th[t] == Thread(Unlinked(now, left, ref), InX, Out, InX)
    ensures Leads(s0, ls', s') && OnlyBusy(s', t) && s'.srv == Delete(Free(s.srv, ref), ref)
    ensures s'.th == s.th[t := Thread(Scan(now, left), InX, Out, Out)]
  {
    ls', s' := WorkAlone(s0, ls, s, t, 0, 0);
    ls', s' := WorkAlone(s0, ls', s', t, 0, 0);
  }

  lemma {:induction false} ScanAlone(s0: System, ls: seq<Label>, s: System, t: Tid, now: int,
                                     left: set<nat>, dropped: seq<nat>)
    returns (ls': seq<Label>, s': System, dropped': seq<nat>)
    requires Leads(s0, ls, s) && KeysAgree(s0.srv) && HalfSwept(s0, s, t, now, left, dropped)
    ensures Leads(s0, ls', s') && HalfSwept(s0, s', t, now, {}, dropped')
    ensures s'.th == s.th[t := s'.th[t]]
    decreases |left|
  {
    if left == {} {
      return ls, s, dropped;
    }
    var k :| k in left;
    Untouched(s0.srv, dropped, k);
    if Expired(Deref(s0.srv, s0.srv.id[k]), now) {
      ls', s' := DropAlone(s0, ls, s, t, now, left, dropped, k);
      dropped' := dropped + [k];
    } else {
      ls', s' := WorkAlone(s0, ls, s, t, 0, k);
      dropped' := dropped;
    }
    ls', s', dropped' := ScanAlone(s0, ls', s', t, now, left - {k}, dropped');
  }

  /** A sweep by itself drops exactly the expired sessions, as RemoveZombies does. */
  lemma SweepAlone(s: System, t: Tid) returns (ls: seq<Label>, e: System, dropped: seq<nat>)
    requires OnlyBusy(s, t) && s.th[t] == RESTING && KeysAgree(s.srv)
    ensures Leads(s, ls, e) && e.th == s.th
    ensures Droppable(s.srv, dropped) && e.srv == Without(s.srv, dropped)
    ensures forall k :: k in dropped <==> k in s.srv.id && s.clock - s.srv.clients[s.srv.id[k]].alive >= 45
  {
    ls, e := ArriveAlone(s, t, Sweep);
    ls, e := GrantAlone(s, ls, e, t);
    ls, e := GrantAlone(s, ls, e, t);
    ls, e := WorkAlone(s, ls, e, t, 0, 0);
    WithoutNone(s.srv);
    ls, e, dropped := ScanAlone(s, ls, e, t, s.clock, s.srv.id.Keys, []);
    ls, e := WorkAlone(s, ls, e, t, 0, 0);
    ls, e := WorkAlone(s, ls, e, t, 0, 0);
    assert e.th == s.th;
  }
}
