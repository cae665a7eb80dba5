/** Where datagrams go, against the history of the sessions they go to. */
module ServerRouting {
  import opened Common
  import opened Wire
  import opened Sessions
  import opened ServerProtocol
  import opened ServerMemory

  /** Where the session last spoke from: its start or its latest heartbeat. */
  function Latest(log: seq<Event>, r: Ref): Option<Peer> {
    if log == [] then None
    else
      var e := log[|log| - 1];
      if e.ref == r then Some(e.peer) else Latest(log[..|log| - 1], r)
  }

  lemma LatestAppend(log: seq<Event>, e: Event, r: Ref)
    ensures Latest(log + [e], r) == if e.ref == r then Some(e.peer) else Latest(log, r)
  {
  }

  /** The history has the start of the session with this MAC, identity and address. */
  ghost predicate Born(log: seq<Event>, r: Ref, c: Client) {
    exists p :: Started(r, p, c.mac, c.identity, c.ip) in log
  }

  /** A sender goes only to sessions its frame is meant for. */
  predicate Aims(s: Server, task: Task) {
    match task
    case Cast(frame, todo) => |frame| >= ETHERNET && todo <= Targets(s, frame)
    case CastAt(frame, todo, r) =>
      |frame| >= ETHERNET && todo <= Targets(s, frame) && InMac(s, r) && Deref(s, r).mac in Targets(s, frame)
      && Deref(s, r).mac !in todo
    case _ => true
  }

  ghost predicate HistoryInv(s: System) {
    && (forall r :: r in s.srv.clients ==>
          && Latest(s.log, r).Some? && SameEndpoint(s.srv.clients[r].address, Latest(s.log, r).value)
          && Born(s.log, r, s.srv.clients[r]))
    && (forall t :: 0 <= t < |s.th| ==> Aims(s.srv, s.th[t].task) && Answers(s, s.th[t].task))
  }

  /** Whoever is about to answer a StartSession answers the peer that the session was started for. */
  predicate Answers(s: System, task: Task) {
    task.Register? ==>
      var c := Deref(s.srv, task.ref);
      Started(task.ref, task.peer, c.mac, c.identity, c.ip) in s.log
  }

  /**
    Session information tells a peer the identity and the address that one session
    was started with for it, and the server's gateway and netmask.
  */
  ghost predicate Genuine(log: seq<Event>, config: Config, d: Datagram) {
    d.message.SessionInfo? ==>
      && d.message.gateway == config.gateway && d.message.netmask == config.netmask
      && exists r, mac :: Started(r, d.to, mac, d.message.identity, d.message.address) in log
  }

  ghost predicate SentInv(s: System) {
    forall i :: 0 <= i < |s.srv.sent| ==> Genuine(s.log, s.config, s.srv.sent[i])
  }

  lemma HistoryOfClients(s: System, l: Label)
    requires MemInv(s) && HistoryInv(s) && Enabled(s, l) && l.Work?
    ensures var s' := Apply(s, l);
      forall r :: r in s'.srv.clients ==>
          && Latest(s'.log, r).Some? && SameEndpoint(s'.srv.clients[r].address, Latest(s'.log, r).value)
          && Born(s'.log, r, s'.srv.clients[r])
  {
    var s' := Apply(s, l);
    var task := s.th[l.t].task;
    assert Borrowed(task).Some? ==> Borrowed(task).value in s.srv.clients;
    forall r | r in s'.srv.clients
      ensures Latest(s'.log, r).Some? && SameEndpoint(s'.srv.clients[r].address, Latest(s'.log, r).value)
      ensures Born(s'.log, r, s'.srv.clients[r])
    {
      if r in s.srv.clients {
        var c := s.srv.clients[r];
        var p :| Started(r, p, c.mac, c.identity, c.ip) in s.log;
        assert Started(r, p, c.mac, c.identity, c.ip) in s'.log;
      } else {
        assert Started(r, task.peer, task.mac, l.random, task.ip) in s'.log;
      }
      if task.Attach? {
        LatestAppend(s.log, Started(s.next, task.peer, task.mac, l.random, task.ip), r);
      } else if task.BeatAt? {
        LatestAppend(s.log, Heard(task.ref, task.peer), r);
      }
    }
  }

  lemma AimsOwn(s: System, l: Label)
    requires MemInv(s) && HistoryInv(s) && Enabled(s, l) && l.Work?
    ensures Aims(Apply(s, l).srv, Apply(s, l).th[l.t].task)
  {
  }

  /** While one thread sends, no other one rewrites the index it reads. */
  lemma AimsOther(s: System, l: Label, u: Tid)
    requires MemInv(s) && HistoryInv(s) && Enabled(s, l) && l.Work? && u < |s.th| && u != l.t
    ensures Aims(Apply(s, l).srv, s.th[u].task)
  {
    var task := s.th[u].task;
    assert Aims(s.srv, task);
    assert Shape(s.th[l.t]) && Shape(s.th[u]);
    if task.Cast? || task.CastAt? {
      assert !Clash(StageOf(s.th[l.t], Dict), StageOf(s.th[u], Dict));
      assert !Rewrites(s.th[l.t].task);
      IndexUnlessRewrites(s, s.th[l.t].task, l.random, l.id);
      if task.CastAt? {
        assert Borrowed(task) == Some(task.ref);
        assert Borrowed(s.th[l.t].task).Some? ==> Borrowed(s.th[l.t].task).value in s.srv.clients;
        EffectOnObject(s, s.th[l.t].task, l.random, l.id, task.ref);
      }
    }
  }

  lemma AimsStep(s: System, l: Label, u: Tid)
    requires MemInv(s) && HistoryInv(s) && Enabled(s, l) && u < |s.th|
    ensures Aims(Apply(s, l).srv, Apply(s, l).th[u].task)
  {
    assert Aims(s.srv, s.th[u].task);
    if l.Work? {
      if u == l.t {
        AimsOwn(s, l);
      } else {
        AimsOther(s, l, u);
      }
    }
  }

  lemma AnswersStep(s: System, l: Label, u: Tid)
    requires MemInv(s) && HistoryInv(s) && Enabled(s, l) && u < |s.th|
    ensures Answers(Apply(s, l), Apply(s, l).th[u].task)
  {
    assert Answers(s, s.th[u].task);
    if l.Work? && u != l.t && s.th[u].task.Register? {
      var task := s.th[l.t].task;
      assert Private(s.th[u].task) == Some(s.th[u].task.ref);
      assert Borrowed(task).Some? ==> Borrowed(task).value in s.srv.clients;
      EffectOnObject(s, task, l.random, l.id, s.th[u].task.ref);
      SentOne(s, l.t, l.random, l.id);
    }
  }

  /** One piece of code sends at most one datagram, and session information only about its own session. */
  lemma SentOne(s: System, t: Tid, random: nat, id: nat)
    requires MemInv(s) && HistoryInv(s) && t < |s.th|
    ensures var s' := Effect(s, s.th[t].task, random, id);
      && s.log <= s'.log
      && (s'.srv.sent == s.srv.sent ||
            (|s'.srv.sent| == |s.srv.sent| + 1 && s.srv.sent <= s'.srv.sent
             && Genuine(s.log, s.config, s'.srv.sent[|s.srv.sent|])))
  {
  }

  lemma SentStep(s: System, l: Label)
    requires MemInv(s) && HistoryInv(s) && SentInv(s) && Enabled(s, l)
    ensures SentInv(Apply(s, l))
  {
    var s' := Apply(s, l);
    if l.Work? {
      SentOne(s, l.t, l.random, l.id);
      forall i | 0 <= i < |s'.srv.sent|
        ensures Genuine(s'.log, s'.config, s'.srv.sent[i])
      {
        assert i < |s.srv.sent| ==> Genuine(s.log, s.config, s.srv.sent[i]);
        GenuineLonger(s.log, s'.log, s.config, s'.srv.sent[i]);
      }
    }
  }

  lemma GenuineLonger(log: seq<Event>, longer: seq<Event>, config: Config, d: Datagram)
    requires log <= longer && Genuine(log, config, d)
    ensures Genuine(longer, config, d)
  {
    if d.message.SessionInfo? {
      var r, mac :| Started(r, d.to, mac, d.message.identity, d.message.address) in log;
      assert Started(r, d.to, mac, d.message.identity, d.message.address) in longer;
    }
  }

  lemma HistoryStep(s: System, l: Label)
    requires MemInv(s) && HistoryInv(s) && SentInv(s) && Enabled(s, l)
    ensures MemInv(Apply(s, l)) && HistoryInv(Apply(s, l)) && SentInv(Apply(s, l))
  {
    var s' := Apply(s, l);
    MemStep(s, l);
    SentStep(s, l);
    if l.Work? {
      HistoryOfClients(s, l);
    }
    forall u | 0 <= u < |s'.th|
      ensures Aims(s'.srv, s'.th[u].task) && Answers(s', s'.th[u].task)
    {
      LockStep(s, l);
      AimsStep(s, l, u);
      AnswersStep(s, l, u);
    }
  }

  lemma {:induction false} HistoryRun(s: System, ls: seq<Label>)
    requires MemInv(s) && HistoryInv(s) && SentInv(s) && Legal(s, ls)
    ensures MemInv(Exec(s, ls)) && HistoryInv(Exec(s, ls)) && SentInv(Exec(s, ls))
    ensures Exec(s, ls).config == s.config
    decreases |ls|
  {
    if ls != [] {
      HistoryStep(s, ls[0]);
      HistoryRun(Apply(s, ls[0]), ls[1..]);
    }
  }

  /** What a step adds to the history: the start of a session, or a heartbeat of one. */
  function EventAt(s: System, l: Label): seq<Event> {
    if !l.Work? || l.t >= |s.th| then []
    else
      match s.th[l.t].task
      case Attach(peer, mac, ip) => [Started(s.next, peer, mac, l.random, ip)]
      case BeatAt(peer, r) => [Heard(r, peer)]
      case _ => []
  }

  function History(s: System, ls: seq<Label>): seq<Event>
    requires Legal(s, ls)
    decreases |ls|
  {
    if ls == [] then [] else EventAt(s, ls[0]) + History(Apply(s, ls[0]), ls[1..])
  }

  lemma LogStep(s: System, l: Label)
    requires Enabled(s, l)
    ensures Apply(s, l).log == s.log + EventAt(s, l)
  {
  }

  /** The log is the history of the run: every start of a session and every heartbeat handled, in order. */
  lemma {:induction false} LogIsHistory(s: System, ls: seq<Label>)
    requires Legal(s, ls)
    ensures Exec(s, ls).log == s.log + History(s, ls)
    decreases |ls|
  {
    if ls != [] {
      LogStep(s, ls[0]);
      LogIsHistory(Apply(s, ls[0]), ls[1..]);
    }
  }

  /** Who names an unknown identity is told to start again, and nothing else happens. */
  lemma UnknownRefused(s: System, l: Label)
    requires Enabled(s, l) && l.Work? && (s.th[l.t].task.Beat? || s.th[l.t].task.Lookup?)
    ensures var s', task := Apply(s, l), s.th[l.t].task;
      if task.id in s.srv.id then
        s'.srv == s.srv && s'.th[l.t].task == if task.Beat? then BeatAt(task.peer, s.srv.id[task.id]) else Leave
      else
        s'.srv == s.srv.(sent := s.srv.sent + [Datagram(task.peer, ErrorDetail(2))]) && s'.th[l.t].task == Leave
  {
  }

  /** A registration answers the peer once, with what the session was given. */
  lemma RegistrationAnswered(s: System, l: Label)
    requires MemInv(s) && Enabled(s, l) && l.Work? && s.th[l.t].task.Register?
    ensures var s', task := Apply(s, l), s.th[l.t].task;
      task.ref in s.srv.clients &&
      var c := s.srv.clients[task.ref];
      && s'.srv.sent == s.srv.sent
           + [Datagram(task.peer, SessionInfo(c.ip, s.config.gateway, s.config.netmask, c.identity))]
      && s'.srv.id == (if c.identity in s.srv.id then s.srv.id else s.srv.id[c.identity := task.ref])
      && s'.srv.mac == (if c.mac in s.srv.mac then s.srv.mac else s.srv.mac[c.mac := task.ref])
      && s'.srv.clients == s.srv.clients && s'.srv.pool == s.srv.pool
  {
    assert Private(s.th[l.t].task) == Some(s.th[l.t].task.ref);
  }

  /** The request that a handler works on: where it came from and what it names. */
  function Request(task: Task): (Option<Peer>, Option<Key>) {
    match task
    case Allocate(peer, mac) => (Some(peer), Some(mac))
    case Attach(peer, mac, _) => (Some(peer), Some(mac))
    case Register(peer, _) => (Some(peer), None)
    case Beat(peer, _) => (Some(peer), None)
    case BeatAt(peer, _) => (Some(peer), None)
    case _ => (None, None)
  }

  /** A handler keeps to its request until it is done with it. */
  lemma RequestKept(s: System, l: Label, t: Tid)
    requires Enabled(s, l) && t < |s.th| && Request(s.th[t].task).0.Some?
    ensures t < |Apply(s, l).th|
    ensures var x, y := s.th[t].task, Apply(s, l).th[t].task;
      && (Request(y).0 == Request(x).0 || y.Idle? || y.Leave?)
      && (Request(x).1.Some? ==> Request(y).1 == Request(x).1 || y.Idle? || y.Register?)
  {
  }

  /**
    In every reachable state: the next datagram of a sender carries its frame to
    where a session last spoke from, and for a unicast frame that is the session
    filed under the destination.
  */
  lemma Routing(n: nat, lower: nat, upper: nat, clock: int, config: Config, ls: seq<Label>, l: Label)
    requires Legal(Start(n, lower, upper, clock, config), ls)
    requires var s := Exec(Start(n, lower, upper, clock, config), ls);
      Enabled(s, l) && l.Work? && s.th[l.t].task.CastAt?
    ensures var s := Exec(Start(n, lower, upper, clock, config), ls);
      var frame, r := s.th[l.t].task.frame, s.th[l.t].task.ref;
      && |frame| >= 18 && InMac(s.srv, r) && Latest(s.log, r).Some?
      && (frame[0] % 2 == 0 ==> frame[..6] in s.srv.mac && r == s.srv.mac[frame[..6]])
      && exists p: Peer :: p.ip == Latest(s.log, r).value.ip && p.port == Latest(s.log, r).value.port
           && Apply(s, l).srv.sent == s.srv.sent + [Datagram(p, RelayData(frame))]
  {
    var s0 := Start(n, lower, upper, clock, config);
    MemStart(n, lower, upper, clock, config);
    HistoryRun(s0, ls);
    var s := Exec(s0, ls);
    assert Aims(s.srv, s.th[l.t].task);
    assert Borrowed(s.th[l.t].task) == Some(s.th[l.t].task.ref);
    assert SameEndpoint(s.srv.clients[s.th[l.t].task.ref].address, Latest(s.log, s.th[l.t].task.ref).value);
  }

  /** Every SessionInfo ever sent went to the peer of a StartSession and names what that session was given. */
  lemma SessionInfoGenuine(n: nat, lower: nat, upper: nat, clock: int, config: Config, ls: seq<Label>, i: nat)
    requires Legal(Start(n, lower, upper, clock, config), ls)
    ensures var s := Exec(Start(n, lower, upper, clock, config), ls);
      i < |s.srv.sent| && s.srv.sent[i].message.SessionInfo? ==>
        var d := s.srv.sent[i];
        && d.message.gateway == config.gateway && d.message.netmask == config.netmask
        && exists r, mac :: Started(r, d.to, mac, d.message.identity, d.message.address) in s.log
  {
    var s0 := Start(n, lower, upper, clock, config);
    MemStart(n, lower, upper, clock, config);
    HistoryRun(s0, ls);
    var s := Exec(s0, ls);
    if i < |s.srv.sent| {
      assert Genuine(s.log, s.config, s.srv.sent[i]);
    }
  }
}
