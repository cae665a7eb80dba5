/**
  The server object.  Each handler runs here from start to end, as it does while
  no other thread comes between its critical sections; the interleavings are the
  business of ServerProtocol, which takes the same steps one at a time.
*/
module TunnelServerImpl {
  import opened Common
  import opened Wire
  import opened Sessions
  import opened DummyCryptoImpl
  import opened TunnelPath
  import opened SweepSpec

  class TunnelServer {
    const identity: nat
    const vmac: Key
    const config: Config
    const crypto: DummyCrypto

    var id: map<nat, Ref>
    var mac: map<Key, Ref>
    var clients: map<Ref, Client>
    var next: Ref

    var upper: nat
    var current: nat
    var free: seq<nat>

    var wire: seq<(Peer, Bytes)>   // what went out of the socket
    var written: seq<Bytes>        // what was written to the virtual interface
    ghost var sent: seq<Datagram>  // the messages behind `wire`

    ghost function View(): Server
      reads this
    {
      Server(id, mac, clients, Pool(upper, current, free), sent)
    }

    /** The datagrams are the messages, framed and encrypted; the indexes are right. */
    ghost predicate Valid()
      reads this, crypto
    {
      && |wire| == |sent|
      && (forall i :: 0 <= i < |sent| ==>
            wire[i].0 == sent[i].to && wire[i].1 == Emit(crypto.key, identity, sent[i].message))
      && KeysAgree(View())
      && (forall r :: r in clients ==> r < next)
    }

    constructor (crypto: DummyCrypto, identity: nat, vmac: Key, config: Config, lower: nat, upper: nat)
      ensures Valid()
      ensures View() == Server(map[], map[], map[], Pool(upper, lower, []), []) && written == [] && next == 0
      ensures this.crypto == crypto && this.identity == identity && this.vmac == vmac && this.config == config
    {
      this.crypto, this.identity, this.vmac, this.config := crypto, identity, vmac, config;
      id, mac, clients, next := map[], map[], map[], 0;
      this.upper, current, free := upper, lower, [];
      wire, written, sent := [], [], [];
    }

    /** Frames, encrypts and sends one message. */
    method Send(to: Peer, m: Message)
      requires Valid()
      modifies this`wire, this`sent
      ensures Valid() && sent == old(sent) + [Datagram(to, m)]
    {
      var plain := Packet(Kind(m), identity, Payload(m));
      var data := new Byte[|plain|](i requires 0 <= i < |plain| => plain[i]);
      assert data[..] == plain;
      crypto.Encrypt(data, data.Length);
      assert plain[..|plain|] == plain && plain[|plain|..] == [];
      wire, sent := wire + [(to, data[..])], sent + [Datagram(to, m)];
    }

    // ----- Addresses

    method AllocateAddress() returns (r: nat)
      modifies this`current, this`free
      ensures (View().pool, r) == Sessions.AllocateAddress(old(View()).pool)
      ensures if old(current) < upper then r == Htonl(old(current)) && current == old(current) + 1 && free == old(free)
              else current == old(current) && if old(free) == [] then r == 0 && free == [] else old(free) == free + [r]
      ensures View() == old(View()).(pool := View().pool)
    {
      if current < upper {
        r := Htonl(current);
        current := current + 1;
        return;
      }
      if free != [] {
        r := free[|free| - 1];
        free := free[..|free| - 1];
        return;
      }
      r := 0;
    }

    method ReleaseAddress(address: nat)
      modifies this`free
      ensures View() == old(View()).(pool := Sessions.ReleaseAddress(old(View()).pool, address))
      ensures free == old(free) + [address]
    {
      free := free + [address];
    }

    // ----- Handlers of datagrams

    method StartSession(peer: Peer, packet: Bytes, random: nat, now: int)
      requires Valid()
      modifies this`id, this`mac, this`clients, this`next, this`current, this`free, this`wire, this`sent
      ensures Valid() && View() == Started(old(View()), old(next), peer, packet, random, now, config)
    {
      if |packet| != START_SESSION {
        return;
      }
      var vip := AllocateAddress();
      if vip == 0 {
        return;
      }
      var info := next;
      clients := clients[info := Client(vip, packet[..6], peer, random, now)];
      next := next + 1;
      assert KeysAgree(View());
      Register(info, peer);
    }

    /** The critical section of startSession: fills both indexes and answers. */
    method Register(info: Ref, peer: Peer)
      requires Valid() && info in clients && !Indexed(View(), info)
      modifies this`id, this`mac, this`wire, this`sent
      ensures Valid() && View() == Insert(old(View()), info, peer, config)
      ensures var c := clients[info];
        && sent == old(sent) + [Datagram(peer, SessionInfo(c.ip, config.gateway, config.netmask, c.identity))]
        && id == (if c.identity in old(id) then old(id) else old(id)[c.identity := info])
        && mac == (if c.mac in old(mac) then old(mac) else old(mac)[c.mac := info])
    {
      InsertAgreement(View(), info, peer, config);
      var c := clients[info];
      if c.identity !in id {
        id := id[c.identity := info];
      }
      if c.mac !in mac {
        mac := mac[c.mac := info];
      }
      Send(peer, SessionInfo(c.ip, config.gateway, config.netmask, c.identity));
    }

    method HandleHeartbeat(peer: Peer, k: nat, length: nat, now: int)
      requires Valid()
      modifies this`clients, this`wire, this`sent
      ensures Valid() && View() == Heard(old(View()), peer, k, length, now)
      ensures length == 4 && k in id ==>
        clients[id[k]].alive == now && clients[id[k]].address.ip == peer.ip && clients[id[k]].address.port == peer.port
    {
      if length != HEARTBEAT {
        return;
      }
      if k !in id {
        Send(peer, ErrorDetail(RESTART_SESSION));
        return;
      }
      var r := id[k];
      clients := clients[r := clients[r].(alive := now)];
      if clients[r].address.ip != peer.ip || clients[r].address.port != peer.port {
        clients := clients[r := clients[r].(address := peer)];
      }
    }

    method RelayData(peer: Peer, k: nat, packet: Bytes)
      requires Valid()
      modifies this`written, this`wire, this`sent
      ensures Valid() && View() == Relayable(old(View()), peer, k, packet)
      ensures written == old(written) +
        (if |packet| > 18 && k in id && (packet[0] % 2 == 1 || packet[..6] == vmac) then [packet] else [])
    {
      if |packet| <= ETHERNET {
        return;
      }
      if k !in id {
        Send(peer, ErrorDetail(RESTART_SESSION));
        return;
      }
      if packet[0] % 2 != 1 && packet[..6] != vmac {
        return;
      }
      written := written + [packet];
    }

    /** handleNetworkDatagram, for one datagram of `size` bytes in the receive buffer. */
    method HandleDatagram(peer: Peer, packet: array<Byte>, size: nat, random: nat, now: int)
      requires Valid() && size <= packet.Length
      modifies this, packet
      ensures Valid()
      ensures var v := ServerVerdict(crypto.key, old(packet[..size]));
        && View() == Answered(old(View()), old(next), peer, v, random, now, config)
        && written == old(written) +
          (if Relayed(old(id).Keys, vmac, v).Some? then [Relayed(old(id).Keys, vmac, v).value] else [])
    {
      if size < HEADER || size > MAX_ACCEPTED {
        return;
      }
      ghost var datagram := packet[..size];
      crypto.Decrypt(packet, size);
      var plain := packet[..size];
      assert plain == Crypt(crypto.key, datagram);
      var header := GetHeader(plain);
      if header.length + HEADER != size {
        return;
      }
      if header.version != VERSION {
        Send(peer, ErrorDetail(WRONG_VERSION));
        return;
      }
      if header.kind == T_HEARTBEAT {
        HandleHeartbeat(peer, header.identity, header.length, now);
      } else if header.kind == T_START_SESSION {
        StartSession(peer, plain[HEADER..], random, now);
      } else if header.kind == T_RELAY_DATA {
        RelayData(peer, header.identity, plain[HEADER..]);
      }
    }

    // ----- Frames from the virtual interface

    /** One datagram for every entry of the MAC index, in some order. */
    method Broadcast(frame: Bytes) returns (ghost order: seq<Key>)
      requires Valid()
      modifies this`wire, this`sent
      ensures Valid() && Distinct(order) && (set k | k in order) == mac.Keys
      ensures sent == old(sent) + Copies(old(View()), order, frame)
    {
      order := [];
      var left := mac.Keys;
      while left != {}
        invariant Valid() && left <= mac.Keys && Distinct(order)
        invariant (set k | k in order) == mac.Keys - left
        invariant sent == old(sent) + Copies(old(View()), order, frame)
        decreases left
      {
        var k :| k in left;
        assert k !in order by {
          assert k !in (set x | x in order);
        }
        Send(clients[mac[k]].address, Message.RelayData(frame));
        assert (set x | x in order + [k]) == (set x | x in order) + {k};
        order, left := order + [k], left - {k};
      }
    }

    method Unicast(frame: Bytes)
      requires Valid() && |frame| >= ETHERNET
      modifies this`wire, this`sent
      ensures Valid()
      ensures sent == old(sent) +
        Copies(old(View()), if Destination(frame) in mac then [Destination(frame)] else [], frame)
    {
      var k := frame[..6];
      if k !in mac {
        return;
      }
      Send(clients[mac[k]].address, Message.RelayData(frame));
    }

    /** handleVirtualEthernet, for one frame. */
    method HandleFrame(frame: Bytes) returns (ghost order: seq<Key>)
      requires Valid()
      modifies this`wire, this`sent
      ensures Valid() && Distinct(order)
      ensures (set k | k in order) ==
        if |frame| < 18 then {} else if frame[0] % 2 == 1 then mac.Keys
        else if frame[..6] in mac then {frame[..6]} else {}
      ensures |sent| == |old(sent)| + |order| && old(sent) <= sent
      ensures forall i :: 0 <= i < |order| ==>
        order[i] in mac && sent[|old(sent)| + i] == Datagram(clients[mac[order[i]]].address, Message.RelayData(frame))
      ensures sent == old(sent) + Copies(old(View()), order, frame)
    {
      order := [];
      if |frame| < ETHERNET {
        return;
      }
      if frame[0] % 2 == 1 {
        order := Broadcast(frame);
      } else {
        Unicast(frame);
        order := if Destination(frame) in mac then [Destination(frame)] else [];
      }
    }

    // ----- The sweep

    /** removeZombieClient, one round: erases while it walks the identity index. */
    method RemoveZombies(now: int) returns (ghost dropped: seq<nat>)
      requires Valid()
      modifies this`id, this`mac, this`clients, this`free
      ensures Valid() && Droppable(old(View()), dropped)
      ensures forall k :: k in dropped <==> k in old(id) && now - old(clients)[old(id)[k]].alive >= 45
      ensures View() == Without(old(View()), dropped)
    {
      ghost var s := View();
      dropped := [];
      WithoutNone(s);
      var left := id.Keys;
      while left != {}
        invariant Droppable(s, dropped) && View() == Without(s, dropped)
        invariant left <= s.id.Keys && forall k :: k in left ==> k !in dropped
        invariant forall k :: k in dropped ==> Expired(s.clients[s.id[k]], now)
        invariant forall k :: k in s.id && k !in left && k !in dropped ==> !Expired(s.clients[s.id[k]], now)
        decreases left
      {
        var k :| k in left;
        Untouched(s, dropped, k);
        left := left - {k};
        var info := id[k];
        if now - clients[info].alive >= EXPIRY {
          WithoutOneMore(s, dropped, k);
          var ip := clients[info].ip;
          mac := mac - {clients[info].mac};
          id := id - {k};
          ReleaseAddress(ip);
          clients := clients - {info};
          dropped := dropped + [k];
        }
      }
      WithoutAgrees(s, dropped);
    }
  }

  // ----- What the handlers come to

  ghost function Started(s: Server, r: Ref, peer: Peer, packet: Bytes, random: nat, now: int, config: Config): Server {
    if |packet| != START_SESSION then s
    else
      var (pool, ip) := AllocateAddress(s.pool);
      if ip == 0 then s.(pool := pool)
      else
        var c := Client(ip, packet[..6], peer, random, now);
        Insert(s.(pool := pool, clients := s.clients[r := c]), r, peer, config)
  }

  ghost function Heard(s: Server, peer: Peer, k: nat, length: nat, now: int): Server {
    if length != HEARTBEAT then s
    else if k !in s.id then Refuse(s, peer, RESTART_SESSION)
    else Beat(s, s.id[k], peer, now)
  }

  ghost function Relayable(s: Server, peer: Peer, k: nat, packet: Bytes): Server {
    if |packet| <= ETHERNET || k in s.id then s else Refuse(s, peer, RESTART_SESSION)
  }

  ghost function Answered(s: Server, r: Ref, peer: Peer, v: Verdict, random: nat, now: int, config: Config): Server {
    match v
    case Ignored => s
    case WrongVersion => Refuse(s, peer, WRONG_VERSION)
    case Dispatched(kind, k, payload) =>
      if kind == T_HEARTBEAT then Heard(s, peer, k, |payload|, now)
      else if kind == T_START_SESSION then Started(s, r, peer, payload, random, now, config)
      else Relayable(s, peer, k, payload)
  }

  /** One copy of the frame to the session at each of the keys. */
  ghost function Copies(s: Server, order: seq<Key>, frame: Bytes): seq<Datagram> {
    seq(|order|, i requires 0 <= i < |order| =>
      Datagram(if order[i] in s.mac then Deref(s, s.mac[order[i]]).address else Peer(0, 0, 0),
               Message.RelayData(frame)))
  }
}
