/**
  Any number of threads running the server's handlers, interleaved at every
  acquisition of a lock.  A lock is the abstract reader/writer lock: a request
  for exclusive use first sets the write bit, which shuts newcomers out, and
  then waits for the readers to drain.
*/
module ServerProtocol {
  import opened Common
  import opened Wire
  import opened Sessions

  type Tid = nat

  /** How far a thread is with one lock. */
  datatype Stage = Out | WaitS | InS | WaitX | Drain | InX

  /** What a thread is about to do, once it holds the lock it is waiting for. */
  datatype Task =
    | Idle
    | Allocate(peer: Peer, mac: Key)               // startSession: take an address
    | Attach(peer: Peer, mac: Key, ip: nat)        // startSession: build the object
    | Register(peer: Peer, ref: Ref)               // startSession: fill the indexes
    | Beat(peer: Peer, id: nat)                    // handleHeartbeat: look up
    | BeatAt(peer: Peer, ref: Ref)                 // handleHeartbeat: update the object
    | Lookup(peer: Peer, id: nat)                  // relayData: look up
    | Begin(frame: Bytes)                          // broadcast or unicast: find the targets
    | Cast(frame: Bytes, todo: set<Key>)           // ... next target
    | CastAt(frame: Bytes, todo: set<Key>, ref: Ref)   // ... send to it
    | Sweep                                        // removeZombieClient: read the clock
    | Scan(now: int, left: set<nat>)               // ... next entry
    | Unlinked(now: int, left: set<nat>, ref: Ref) // ... give its address back
    | Freed(now: int, left: set<nat>, ref: Ref)    // ... delete the object
    | Leave                                        // release the index lock

  datatype Thread = Thread(task: Task, dict: Stage, client: Stage, pool: Stage)

  datatype Lock = Dict | ClientLock(ref: Ref) | PoolLock

  /** What has happened to a session. */
  datatype Event =
    | Started(ref: Ref, peer: Peer, mac: Key, identity: nat, ip: nat)
    | Heard(ref: Ref, peer: Peer)

  datatype System = System(
    srv: Server,
    th: seq<Thread>,
    clock: int,
    next: Ref,
    log: seq<Event>,
    config: Config)

  const RESTING := Thread(Idle, Out, Out, Out)

  function Start(n: nat, lower: nat, upper: nat, clock: int, config: Config): System {
    System(Server(map[], map[], map[], Pool(upper, lower, []), []), seq(n, _ => RESTING), clock, 0, [], config)
  }

  // ----- Locks

  /** The session whose lock a thread is after; the pointer came out of an index. */
  function Borrowed(t: Task): Option<Ref> {
    match t
    case BeatAt(_, r) => Some(r)
    case CastAt(_, _, r) => Some(r)
    case _ => None
  }

  function StageOf(th: Thread, l: Lock): Stage {
    match l
    case Dict => th.dict
    case ClientLock(r) => if Borrowed(th.task) == Some(r) then th.client else Out
    case PoolLock => th.pool
  }

  predicate Waiting(st: Stage) {
    st.WaitS? || st.WaitX? || st.Drain?
  }

  predicate Writing(st: Stage) {
    st.Drain? || st.InX?
  }

  /** The one lock a thread waits for. */
  function Wanted(th: Thread): Option<Lock> {
    if Waiting(th.dict) then Some(Dict)
    else if Waiting(th.client) && Borrowed(th.task).Some? then Some(ClientLock(Borrowed(th.task).value))
    else if Waiting(th.pool) then Some(PoolLock)
    else None
  }

  /** The lock lets the thread through: the write bit is clear, or the last reader has gone. */
  predicate Passable(s: System, t: Tid, l: Lock)
    requires t < |s.th|
  {
    forall u :: 0 <= u < |s.th| && u != t ==>
      if StageOf(s.th[t], l).Drain? then !StageOf(s.th[u], l).InS? else !Writing(StageOf(s.th[u], l))
  }

  function Advance(st: Stage): Stage {
    match st
    case WaitS => InS
    case WaitX => Drain
    case Drain => InX
    case _ => st
  }

  function Granted(th: Thread, l: Lock): Thread {
    match l
    case Dict => th.(dict := Advance(th.dict))
    case ClientLock(_) => th.(client := Advance(th.client))
    case PoolLock => th.(pool := Advance(th.pool))
  }

  // ----- Steps

  datatype Label =
    | Tick(now: int)
    | Arrive(t: Tid, task: Task)
    | Grant(t: Tid)
    | Work(t: Tid, random: nat, key: Key, id: nat)

  /** A handler starts: its first act is to ask for a lock. */
  function Opening(task: Task): Thread {
    match task
    case Allocate(_, _) => Thread(task, Out, Out, WaitX)
    case Sweep => Thread(task, WaitX, Out, Out)
    case _ => Thread(task, WaitS, Out, Out)
  }

  predicate Opens(task: Task) {
    task.Allocate? || task.Beat? || task.Lookup? || task.Sweep? || (task.Begin? && |task.frame| >= ETHERNET)
  }

  predicate Enabled(s: System, l: Label) {
    match l
    case Tick(now) => s.clock <= now
    case Arrive(t, task) => t < |s.th| && s.th[t].task.Idle? && Opens(task)
    case Grant(t) => t < |s.th| && Wanted(s.th[t]).Some? && Passable(s, t, Wanted(s.th[t]).value)
    case Work(t, _, key, id) =>
      && t < |s.th| && !s.th[t].task.Idle? && Wanted(s.th[t]).None?
      && (s.th[t].task.Cast? && s.th[t].task.todo != {} ==> key in s.th[t].task.todo)
      && (s.th[t].task.Scan? && s.th[t].task.left != {} ==> id in s.th[t].task.left)
      && (s.th[t].task.Begin? ==> |s.th[t].task.frame| >= ETHERNET)
  }

  function Apply(s: System, l: Label): System
    requires Enabled(s, l)
  {
    match l
    case Tick(now) => s.(clock := now)
    case Arrive(t, task) => s.(th := s.th[t := Opening(task)])
    case Grant(t) => s.(th := s.th[t := Granted(s.th[t], Wanted(s.th[t]).value)])
    case Work(t, random, key, id) =>
      Effect(s, s.th[t].task, random, id).(th := s.th[t := Continue(s, s.th[t], key, id)])
  }

  /** What the code between two lock operations does to the shared state. */
  function Effect(s: System, task: Task, random: nat, id: nat): System {
    match task
    case Allocate(_, _) => s.(srv := s.srv.(pool := AllocateAddress(s.srv.pool).0))
    case Attach(peer, mac, ip) =>
      s.(srv := s.srv.(clients := s.srv.clients[s.next := Client(ip, mac, peer, random, s.clock)]),
         next := s.next + 1,
         log := s.log + [Started(s.next, peer, mac, random, ip)])
    case Register(peer, ref) => s.(srv := Insert(s.srv, ref, peer, s.config))
    case Beat(peer, k) => if k in s.srv.id then s else s.(srv := Refuse(s.srv, peer, RESTART_SESSION))
    case BeatAt(peer, ref) =>
      s.(srv := Sessions.Beat(s.srv, ref, peer, s.clock), log := s.log + [Heard(ref, peer)])
    case Lookup(peer, k) => if k in s.srv.id then s else s.(srv := Refuse(s.srv, peer, RESTART_SESSION))
    case CastAt(frame, _, ref) => s.(srv := Relay(s.srv, ref, frame))
    case Scan(now, left) =>
      if Stale(s.srv, id, now, left) then s.(srv := Unlink(s.srv, id, s.srv.id[id])) else s
    case Unlinked(_, _, ref) => s.(srv := Sessions.Free(s.srv, ref))
    case Freed(_, _, ref) => s.(srv := Delete(s.srv, ref))
    case _ => s
  }

  /** The sweep has come to an entry whose session has been silent too long. */
  predicate Stale(s: Server, id: nat, now: int, left: set<nat>) {
    left != {} && id in s.id && Expired(Deref(s, s.id[id]), now)
  }

  /** Where that code leaves the thread. */
  function Continue(s: System, th: Thread, key: Key, id: nat): Thread
    requires th.task.Begin? ==> |th.task.frame| >= ETHERNET
  {
    match th.task
    case Idle => th
    case Allocate(peer, mac) =>
      var ip := AllocateAddress(s.srv.pool).1;
      if ip == 0 then RESTING else RESTING.(task := Attach(peer, mac, ip))
    case Attach(peer, _, _) => Thread(Register(peer, s.next), WaitX, Out, Out)
    case Register(_, _) => th.(task := Leave)
    case Beat(peer, k) =>
      if k in s.srv.id then th.(task := BeatAt(peer, s.srv.id[k]), client := WaitX) else th.(task := Leave)
    case BeatAt(_, _) => th.(task := Leave, client := Out)
    case Lookup(_, _) => th.(task := Leave)
    case Begin(frame) => th.(task := Cast(frame, Targets(s.srv, frame)))
    case Cast(frame, todo) =>
      if todo == {} || key !in s.srv.mac then th.(task := Leave)
      else th.(task := CastAt(frame, todo - {key}, s.srv.mac[key]), client := WaitS)
    case CastAt(frame, todo, _) => th.(task := Cast(frame, todo), client := Out)
    case Sweep => th.(task := Scan(s.clock, s.srv.id.Keys))
    case Scan(now, left) =>
      if left == {} then th.(task := Leave)
      else if Stale(s.srv, id, now, left) then
        th.(task := Unlinked(now, left - {id}, s.srv.id[id]), pool := WaitX)
      else th.(task := Scan(now, left - {id}))
    case Unlinked(now, left, ref) => th.(task := Freed(now, left, ref), pool := Out)
    case Freed(now, left, _) => th.(task := Scan(now, left))
    case Leave => RESTING
  }

  // ----- Runs

  predicate Legal(s: System, ls: seq<Label>)
    decreases |ls|
  {
    ls == [] || (Enabled(s, ls[0]) && Legal(Apply(s, ls[0]), ls[1..]))
  }

  function Exec(s: System, ls: seq<Label>): System
    requires Legal(s, ls)
    decreases |ls|
  {
    if ls == [] then s else Exec(Apply(s, ls[0]), ls[1..])
  }

  // ----- Which locks a task goes with

  predicate Shape(th: Thread) {
    match th.task
    case Idle => th == RESTING
    case Allocate(_, _) => th.dict.Out? && th.client.Out? && (th.pool.WaitX? || Writing(th.pool))
    case Attach(_, _, _) => th.dict.Out? && th.client.Out? && th.pool.Out?
    case Register(_, _) => (th.dict.WaitX? || Writing(th.dict)) && th.client.Out? && th.pool.Out?
    case Beat(_, _) => (th.dict.WaitS? || th.dict.InS?) && th.client.Out? && th.pool.Out?
    case BeatAt(_, _) => th.dict.InS? && (th.client.WaitX? || Writing(th.client)) && th.pool.Out?
    case Lookup(_, _) => (th.dict.WaitS? || th.dict.InS?) && th.client.Out? && th.pool.Out?
    case Begin(frame) =>
      |frame| >= ETHERNET && (th.dict.WaitS? || th.dict.InS?) && th.client.Out? && th.pool.Out?
    case Cast(frame, _) => |frame| >= ETHERNET && th.dict.InS? && th.client.Out? && th.pool.Out?
    case CastAt(frame, _, _) =>
      |frame| >= ETHERNET && th.dict.InS? && (th.client.WaitS? || th.client.InS?) && th.pool.Out?
    case Sweep => (th.dict.WaitX? || Writing(th.dict)) && th.client.Out? && th.pool.Out?
    case Scan(_, _) => th.dict.InX? && th.client.Out? && th.pool.Out?
    case Unlinked(_, _, _) => th.dict.InX? && th.client.Out? && (th.pool.WaitX? || Writing(th.pool))
    case Freed(_, _, _) => th.dict.InX? && th.client.Out? && th.pool.Out?
    case Leave => (th.dict.InS? || th.dict.InX?) && th.client.Out? && th.pool.Out?
  }

  /** The two stages are incompatible on one lock. */
  predicate Clash(a: Stage, b: Stage) {
    (Writing(a) && Writing(b)) || (a.InX? && b.InS?) || (a.InS? && b.InX?)
  }

  ghost predicate LockInv(s: System) {
    && (forall t :: 0 <= t < |s.th| ==> Shape(s.th[t]))
    && (forall t, u, l :: 0 <= t < |s.th| && 0 <= u < |s.th| && t != u ==>
          !Clash(StageOf(s.th[t], l), StageOf(s.th[u], l)))
  }

  /** Code between lock operations keeps, drops or asks for locks, but never takes one. */
  lemma ContinueStages(s: System, th: Thread, key: Key, id: nat)
    requires Shape(th) && Wanted(th).None?
    ensures var th' := Continue(s, th, key, id);
      && Shape(th')
      && forall l :: StageOf(th', l) in {StageOf(th, l), Out, WaitS, WaitX}
  {
  }

  lemma GrantStages(th: Thread)
    requires Shape(th) && Wanted(th).Some?
    ensures var th' := Granted(th, Wanted(th).value);
      && Shape(th') && th'.task == th.task
      && forall l :: StageOf(th', l) == if l == Wanted(th).value then Advance(StageOf(th, l)) else StageOf(th, l)
  {
  }

  /** A thread that gets through a lock clashes with nobody on it. */
  lemma GrantClash(s: System, t: Tid, u: Tid, l: Lock)
    requires LockInv(s) && t < |s.th| && u < |s.th| && t != u
    requires Wanted(s.th[t]).Some? && Passable(s, t, Wanted(s.th[t]).value)
    ensures !Clash(StageOf(Granted(s.th[t], Wanted(s.th[t]).value), l), StageOf(s.th[u], l))
  {
  }

  lemma LockStep(s: System, l: Label)
    requires LockInv(s) && Enabled(s, l)
    ensures LockInv(Apply(s, l)) && |Apply(s, l).th| == |s.th|
  {
    var s' := Apply(s, l);
    if !l.Tick? {
      match l {
        case Arrive(t, task) =>
        case Grant(t) => GrantStages(s.th[t]);
        case Work(t, _, key, id) => ContinueStages(s, s.th[t], key, id);
      }
      forall u, k | 0 <= u < |s.th| && u != l.t
        ensures !Clash(StageOf(s'.th[l.t], k), StageOf(s.th[u], k))
      {
        if l.Grant? {
          GrantClash(s, l.t, u, k);
        } else {
          assert !Clash(StageOf(s.th[l.t], k), StageOf(s.th[u], k));
        }
      }
    }
  }
}
