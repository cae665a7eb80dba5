/** The client object, handler by handler. */
module TunnelClientImpl {
  import opened Wire
  import opened DummyCryptoImpl
  import opened TunnelPath

  function Repeat(d: Bytes, n: nat): seq<Bytes> {
    if n == 0 then [] else Repeat(d, n - 1) + [d]
  }

  class TunnelClient {
    const server: Peer
    const identity: nat
    const crypto: DummyCrypto

    var stop: bool
    var wire: seq<Bytes>      // what was sent to the server
    var written: seq<Bytes>   // what was written to the virtual interface

    constructor (crypto: DummyCrypto, identity: nat, server: Peer)
      ensures !stop && wire == [] && written == []
      ensures this.crypto == crypto && this.identity == identity && this.server == server
    {
      this.crypto, this.identity, this.server := crypto, identity, server;
      stop, wire, written := false, [], [];
    }

    /** Frames, encrypts and returns one packet. */
    method Prepare(kind: nat, payload: Bytes) returns (d: Bytes)
      ensures d == Seal(crypto.key, kind, identity, payload)
    {
      var plain := Packet(kind, identity, payload);
      var buffer := new Byte[|plain|](i requires 0 <= i < |plain| => plain[i]);
      assert buffer[..] == plain;
      crypto.Encrypt(buffer, buffer.Length);
      assert plain[..|plain|] == plain && plain[|plain|..] == [];
      d := buffer[..];
    }

    /** handleVirtualEthernet, for one frame. */
    method HandleFrame(frame: Bytes)
      modifies this`wire
      ensures wire == old(wire) + [Seal(crypto.key, T_RELAY_DATA, identity, frame)]
    {
      var d := Prepare(T_RELAY_DATA, frame);
      wire := wire + [d];
    }

    /** sendHeartbeat: the packet is prepared once and sent every round. */
    method SendHeartbeats(now: nat, rounds: nat)
      modifies this`wire
      ensures wire == old(wire) + Repeat(Seal(crypto.key, T_HEARTBEAT, identity, Store(now, 4)), rounds)
    {
      var d := Prepare(T_HEARTBEAT, Store(now, 4));
      for i := 0 to rounds
        invariant wire == old(wire) + Repeat(d, i)
      {
        wire := wire + [d];
      }
    }

    /** handleNetworkDatagram, for one datagram of `size` bytes in the receive buffer. */
    method HandleDatagram(peer: Peer, packet: array<Byte>, size: nat)
      requires size <= packet.Length
      modifies this`stop, this`written, packet
      ensures var r := ClientReaction(crypto.key, server, peer, old(packet[..size]));
        && (stop <==> old(stop) || r.Stop?)
        && written == old(written) + (if r.Write? then [r.frame] else [])
    {
      if size < HEADER || !ValidDataSource(peer) {
        return;
      }
      ghost var datagram := packet[..size];
      crypto.Decrypt(packet, size);
      var plain := packet[..size];
      assert plain == Crypt(crypto.key, datagram);
      var header := GetHeader(plain);
      if header.kind == T_ERROR_DETAIL {
        stop := true;
        return;
      }
      if header.length < ETHERNET || header.length + HEADER != size {
        return;
      }
      assert plain[HEADER..HEADER + header.length] == plain[HEADER..];
      written := written + [plain[HEADER..HEADER + header.length]];
    }

    predicate ValidDataSource(peer: Peer) {
      peer.family == server.family && peer.ip == server.ip && peer.port == server.port
    }
  }
}
