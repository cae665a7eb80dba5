/** Where the parts of the system meet: the lock under the server, and the server under the handshake. */
module Composition {
  import opened Wire
  import opened Sessions
  import opened ServerProtocol
  import ServerMemory
  import ServerProgress
  import ServerRouting
  import LockRefinement
  import Handshake
  import M = SharedMutexProtocol
  import SharedMutexTheorems
  import SharedMutexImpl

  /**
    Every reply that arrives at the client is an error or was sent to it by the
    server at some time: it may be late, lost, repeated or out of order.
  */
  ghost predicate FromServer(s: System, client: Peer, rs: Handshake.Replies) {
    forall i :: 0 <= i < |rs| && rs[i].Some? && !rs[i].value.ErrorDetail? ==>
      exists j :: 0 <= j < |s.srv.sent| && s.srv.sent[j] == Datagram(client, rs[i].value)
  }

  /**
    Whatever the schedule of the server's threads, a client whose handshake sees
    no relayed frame before its first session information adopts the identity and
    the address of one session that the server started for this very client, and
    the server's gateway and netmask.
  */
  lemma AdoptedPairWasIssued(n: nat, lower: nat, upper: nat, clock: int, config: Config, ls: seq<Label>,
                             key: nat, server: nat, client: Peer, rs: Handshake.Replies)
    requires Legal(Start(n, lower, upper, clock, config), ls) && server < 0x1_0000_0000
    requires FromServer(Exec(Start(n, lower, upper, clock, config), ls), client, rs)
    requires Handshake.AllEmittable(rs) && Handshake.InfoFirst(Handshake.Kinds(rs))
    ensures var s := Exec(Start(n, lower, upper, clock, config), ls);
      var got := Handshake.FirstAdopted(key, Handshake.OnWire(key, server, rs));
      got.Some? ==>
        && got.value.gateway == config.gateway && got.value.netmask == config.netmask
        && exists r, mac :: Started(r, client, mac, got.value.identity, got.value.address) in s.log
  {
    var s := Exec(Start(n, lower, upper, clock, config), ls);
    var got := Handshake.FirstAdopted(key, Handshake.OnWire(key, server, rs));
    Handshake.InfoFirstIsSound(key, server, rs);
    if got.Some? {
      var i :| 0 <= i < |rs| && rs[i].Some? && rs[i].value.SessionInfo? && got.value == Handshake.AsInfo(rs[i].value);
      var j :| 0 <= j < |s.srv.sent| && s.srv.sent[j] == Datagram(client, rs[i].value);
      ServerRouting.SessionInfoGenuine(n, lower, upper, clock, config, ls, j);
    }
  }

  /** The three threads of the server are far too few to lose a wake-up on a lock of 2^31 - 1 readers. */
  lemma ServerLosesNoWakeup()
    ensures !SharedMutexTheorems.CanLoseWakeup(3, 0x7fff_ffff)
  {
    SharedMutexTheorems.LostWakeupIff(3, SharedMutexImpl.N_READERS);
  }

  /** The index lock and the session locks are reader/writer locks; the pool has a plain mutex. */
  predicate IsSharedMutex(l: Lock) {
    l.Dict? || l.ClientLock?
  }

  /** Each of these histories of the reader/writer lock puts the server's threads where they are at the lock. */
  ghost predicate AllBacked(s: System, histories: Lock -> seq<M.Label>, max: nat) {
    forall l :: IsSharedMutex(l) ==> LockRefinement.Backs(histories(l), s, l, max)
  }

  /**
    The thread is between lock operations, or waits for the pool mutex, which is
    free, or the reader/writer lock it waits for has let it in or is about to.
  */
  ghost predicate Proceeds(s: System, t: Tid, histories: Lock -> seq<M.Label>, max: nat) {
    && ServerProgress.CanMove(s, t)
    && (Wanted(s.th[t]).Some? && IsSharedMutex(Wanted(s.th[t]).value) ==>
          LockRefinement.Backs(histories(Wanted(s.th[t]).value), s, Wanted(s.th[t]).value, max) &&
          var m := M.Exec(M.Start(|s.th|), histories(Wanted(s.th[t]).value), max);
          m.pc[t].HoldsX? || (SharedMutexTheorems.Awake(m, t) && LockRefinement.GetsThrough(m, t, max)))
  }

  /**
    Deadlock freedom on the real lock.  Put under the index lock and each session
    lock any reachable state of the reader/writer lock that has the threads where
    they are; then, with no more threads than a lock has room for readers,
    whenever some handler is under way some thread proceeds: it is awake at the
    lock it waits for, and its next critical section there takes it further.
  */
  lemma DeadlockFreeOnMutexes(n: nat, lower: nat, upper: nat, clock: int, config: Config, ls: seq<Label>,
                              histories: Lock -> seq<M.Label>, max: nat)
    requires Legal(Start(n, lower, upper, clock, config), ls) && 0 < max && n <= max
    requires AllBacked(Exec(Start(n, lower, upper, clock, config), ls), histories, max)
    ensures var s := Exec(Start(n, lower, upper, clock, config), ls);
      (exists t :: 0 <= t < |s.th| && !s.th[t].task.Idle?) ==> exists t :: Proceeds(s, t, histories, max)
  {
    var s := Exec(Start(n, lower, upper, clock, config), ls);
    ServerMemory.MemStart(n, lower, upper, clock, config);
    ServerMemory.MemRun(Start(n, lower, upper, clock, config), ls);
    if t :| 0 <= t < |s.th| && !s.th[t].task.Idle? {
      var u := ServerProgress.FindMover(s, t, ServerProgress.Patience(s.th[t]));
      MoverProceeds(s, u, histories, max);
    }
  }

  lemma MoverProceeds(s: System, t: Tid, histories: Lock -> seq<M.Label>, max: nat)
    requires ServerProgress.CanMove(s, t) && 0 < max && |s.th| <= max && AllBacked(s, histories, max)
    ensures Proceeds(s, t, histories, max)
  {
    if Wanted(s.th[t]).Some? && IsSharedMutex(Wanted(s.th[t]).value) {
      var l := Wanted(s.th[t]).value;
      assert LockRefinement.Backs(histories(l), s, l, max);
      LockRefinement.PassableIffGetsThrough(histories(l), s, t, l, max);
    }
  }

  /** There always are such states: every run of the server has a history of the lock under each of its locks. */
  lemma EveryLockIsBacked(n: nat, lower: nat, upper: nat, clock: int, config: Config, ls: seq<Label>, l: Lock, max: nat)
    returns (history: seq<M.Label>)
    requires Legal(Start(n, lower, upper, clock, config), ls) && IsSharedMutex(l) && 0 < max && n <= max
    ensures LockRefinement.Backs(history, Exec(Start(n, lower, upper, clock, config), ls), l, max)
  {
    var s0 := Start(n, lower, upper, clock, config);
    ServerMemory.MemStart(n, lower, upper, clock, config);
    assert LockRefinement.Backs([], s0, l, max);
    history := LockRefinement.Backed([], s0, ls, l, max);
  }
}
