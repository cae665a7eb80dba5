/** What becomes of the state when a datagram arrives, from its bytes to the fields that change. */
module Requests {
  import opened Common
  import opened Wire
  import opened Sessions
  import opened DummyCryptoImpl
  import opened TunnelPath
  import Impl = TunnelServerImpl

  /** The state after handleNetworkDatagram has taken a datagram of a peer. */
  ghost function After(s: Server, r: Ref, config: Config, key: nat, peer: Peer, d: Bytes,
                       random: nat, now: int): Server {
    Impl.Answered(s, r, peer, ServerVerdict(key, Receive(d, 2000)), random, now, config)
  }

  /** The session is alive now and at the peer's endpoint; all else about it is as before. */
  predicate HeardAt(before: Client, after: Client, peer: Peer, now: int) {
    && after.alive == now && after.address.ip == peer.ip && after.address.port == peer.port
    && after.ip == before.ip && after.mac == before.mac && after.identity == before.identity
  }

  /** A heartbeat of a bound session makes it alive now, at the peer's endpoint, and changes nothing else. */
  lemma HeartbeatArrives(s: Server, r: Ref, config: Config, key: nat, peer: Peer, k: nat, payload: Bytes,
                         random: nat, now: int)
    requires KeysAgree(s) && k < 0x1_0000_0000 && |payload| == 4
    ensures var e := After(s, r, config, key, peer, Seal(key, 1, k, payload), random, now);
      if k in s.id then
        && e == s.(clients := e.clients) && e.clients.Keys == s.clients.Keys
        && (forall q :: q in s.clients && q != s.id[k] ==> e.clients[q] == s.clients[q])
        && HeardAt(s.clients[s.id[k]], e.clients[s.id[k]], peer, now)
      else
        e == s.(sent := s.sent + [Datagram(peer, ErrorDetail(2))])
  {
    ClientToServer(key, 1, k, payload);
  }

  /** The address that the next session gets: a fresh one, else the one returned last, else none. */
  function NextAddress(p: Pool): Option<nat> {
    if p.current < p.upper then Some(Htonl(p.current))
    else if p.free != [] then Some(p.free[|p.free| - 1])
    else None
  }

  /** A StartSession makes a session and tells the peer about it, if there is an address. */
  lemma StartSessionArrives(s: Server, r: Ref, config: Config, key: nat, peer: Peer, k: nat, payload: Bytes,
                            random: nat, now: int)
    requires k < 0x1_0000_0000 && |payload| == 8
    ensures var e := After(s, r, config, key, peer, Seal(key, 2, k, payload), random, now);
      if NextAddress(s.pool).None? || NextAddress(s.pool) == Some(0) then
        e == s.(pool := e.pool)
      else
        var ip := NextAddress(s.pool).value;
        && e.clients == s.clients[r := Client(ip, payload[..6], peer, random, now)]
        && e.id == (if random in s.id then s.id else s.id[random := r])
        && e.mac == (if payload[..6] in s.mac then s.mac else s.mac[payload[..6] := r])
        && e.sent == s.sent + [Datagram(peer, SessionInfo(ip, config.gateway, config.netmask, random))]
        && e.pool.upper == s.pool.upper
        && if s.pool.current < s.pool.upper then e.pool.current == s.pool.current + 1 && e.pool.free == s.pool.free
           else e.pool.current == s.pool.current && s.pool.free == e.pool.free + [ip]
  {
    ClientToServer(key, 2, k, payload);
  }

  /** A frame for the server's interface leaves the state alone, unless its session is unknown. */
  lemma FrameArrives(s: Server, r: Ref, config: Config, key: nat, peer: Peer, k: nat, frame: Bytes,
                     random: nat, now: int)
    requires k < 0x1_0000_0000 && |frame| <= 2000
    ensures After(s, r, config, key, peer, Seal(key, 4, k, frame), random, now) ==
      if 19 <= |frame| <= 1592 && k !in s.id then s.(sent := s.sent + [Datagram(peer, ErrorDetail(2))]) else s
  {
    ClientToServer(key, 4, k, frame);
  }

  /** Whatever else arrives: a wrong version is answered by an error, and all the rest is ignored. */
  lemma OthersArrive(s: Server, r: Ref, config: Config, key: nat, peer: Peer, p: Bytes, random: nat, now: int)
    requires |p| <= 2000
    ensures var e := After(s, r, config, key, peer, Crypt(key, p), random, now);
      && (|p| < 8 || |p| > 1600 || FromBytes(p[2], p[3], 0, 0) + 8 != |p| ==> e == s)
      && (8 <= |p| <= 1600 && FromBytes(p[2], p[3], 0, 0) + 8 == |p| ==>
            && (p[1] != 1 ==> e == s.(sent := s.sent + [Datagram(peer, ErrorDetail(1))]))
            && (p[1] == 1 && p[0] !in {1, 2, 4} ==> e == s)
            && (p[1] == 1 && p[0] == 1 && |p| != 12 ==> e == s)
            && (p[1] == 1 && p[0] == 2 && |p| != 16 ==> e == s))
  {
    VerdictByBytes(key, p);
  }
}
