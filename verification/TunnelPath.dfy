/** What a datagram means at either end, and the path of a frame from one virtual interface to the other. */
module TunnelPath {
  import opened Common
  import opened Wire
  import opened DummyCryptoImpl

  const MAX_ACCEPTED := 1600   // the server's own limit on a datagram

  // ----- Sending

  function Seal(key: nat, kind: nat, identity: nat, payload: Bytes): Bytes {
    Crypt(key, Packet(kind, identity, payload))
  }

  /** A server message as it leaves the socket. */
  function Emit(key: nat, server: nat, m: Message): Bytes {
    Seal(key, Kind(m), server, Payload(m))
  }

  /** A receive copies at most a buffer and drops the rest of the datagram. */
  function Receive(d: Bytes, buffer: nat): (r: Bytes)
    ensures |r| <= buffer
  {
    if |d| <= buffer then d else d[..buffer]
  }

  // ----- The server's gates

  datatype Verdict = Ignored | WrongVersion | Dispatched(kind: nat, identity: nat, payload: Bytes)

  /** The packet types that have a handler. */
  predicate Handled(kind: nat) {
    kind == T_HEARTBEAT || kind == T_START_SESSION || kind == T_RELAY_DATA
  }

  function Judge(p: Bytes): Verdict
    requires |p| >= HEADER
  {
    var h := GetHeader(p);
    if h.length + HEADER != |p| then Ignored
    else if h.version != VERSION then WrongVersion
    else if !Handled(h.kind) then Ignored
    else Dispatched(h.kind, h.identity, p[HEADER..])
  }

  function ServerVerdict(key: nat, d: Bytes): Verdict {
    if |d| < HEADER || |d| > MAX_ACCEPTED then Ignored else Judge(Crypt(key, d))
  }

  /** relayData: the frame the server writes to its interface, if any. */
  function Relayed(known: set<nat>, vmac: Key, v: Verdict): Option<Bytes> {
    if !v.Dispatched? || v.kind != T_RELAY_DATA || |v.payload| <= ETHERNET || v.identity !in known then None
    else if !IsGroup(v.payload) && Destination(v.payload) != vmac then None
    else Some(v.payload)
  }

  // ----- The client's gates

  datatype Reaction = Skip | Stop | Write(frame: Bytes)

  function ClientReaction(key: nat, server: Peer, peer: Peer, d: Bytes): Reaction {
    if |d| < HEADER || peer.family != server.family || !SameEndpoint(peer, server) then Skip
    else
      var p := Crypt(key, d);
      var h := GetHeader(p);
      if h.kind == T_ERROR_DETAIL then Stop
      else if h.length < ETHERNET || h.length + HEADER != |d| then Skip
      else Write(p[HEADER..])
  }

  // ----- Round trips

  predicate Carries(kind: nat, identity: nat, payload: Bytes) {
    kind < 256 && identity < 0x1_0000_0000 && |payload| < 65536
  }

  lemma OpenSeal(key: nat, kind: nat, identity: nat, payload: Bytes)
    requires Carries(kind, identity, payload)
    ensures var p := Crypt(key, Seal(key, kind, identity, payload));
      && |Seal(key, kind, identity, payload)| == |p| == HEADER + |payload|
      && GetHeader(p) == Header(kind, VERSION, |payload|, identity)
      && p[HEADER..] == payload
  {
    CryptTwice(key, Packet(kind, identity, payload));
    HeaderRoundTrip(Header(kind, VERSION, |payload|, identity), payload);
  }

  /** Cutting a datagram short leaves its header readable. */
  lemma OpenCut(key: nat, kind: nat, identity: nat, payload: Bytes, n: nat)
    requires Carries(kind, identity, payload) && n <= |payload|
    ensures var p := Crypt(key, Seal(key, kind, identity, payload)[..HEADER + n]);
      && GetHeader(p) == Header(kind, VERSION, |payload|, identity)
      && p[HEADER..] == payload[..n]
  {
    var s := Seal(key, kind, identity, payload);
    CryptPrefix(key, s, HEADER + n);
    CryptTwice(key, Packet(kind, identity, payload));
    var p := Packet(kind, identity, payload);
    assert p[..HEADER + n] == PutHeader(Header(kind, VERSION, |payload|, identity)) + payload[..n];
    HeaderRoundTrip(Header(kind, VERSION, |payload|, identity), payload[..n]);
  }

  /**
    What a client sends reaches the handler of its type, whole, exactly when it
    fits the server's limit and the type has a handler.
  */
  lemma ClientToServer(key: nat, kind: nat, identity: nat, payload: Bytes)
    requires Carries(kind, identity, payload)
    ensures ServerVerdict(key, Receive(Seal(key, kind, identity, payload), BUFFER)) ==
      if |payload| <= 1592 && kind in {1, 2, 4} then Dispatched(kind, identity, payload) else Ignored
  {
    OpenSeal(key, kind, identity, payload);
  }

  /**
    A frame read at a client is written at the server byte for byte exactly when
    it has 19 to 1592 bytes, its session is known and its destination is a group
    or the server itself; otherwise nothing is written.
  */
  lemma UplinkIdentity(key: nat, identity: nat, known: set<nat>, vmac: Key, frame: Bytes)
    requires identity < 0x1_0000_0000 && |frame| <= BUFFER
    ensures Relayed(known, vmac, ServerVerdict(key, Receive(Seal(key, T_RELAY_DATA, identity, frame), BUFFER))) ==
      if 19 <= |frame| <= 1592 && identity in known && (frame[0] % 2 == 1 || frame[..6] == vmac)
      then Some(frame) else None
  {
    ClientToServer(key, T_RELAY_DATA, identity, frame);
  }

  /** handleVirtualEthernet at the server: what goes out for a frame, if anything. */
  function Downlink(key: nat, server: nat, frame: Bytes): Option<Bytes> {
    if |frame| < ETHERNET then None else Some(Emit(key, server, RelayData(frame)))
  }

  /**
    A frame that the server sends is written at the client byte for byte exactly
    when it has 18 to 1992 bytes; a longer one is cut by the receive and dropped.
  */
  lemma DownlinkIdentity(key: nat, server: nat, endpoint: Peer, frame: Bytes)
    requires server < 0x1_0000_0000 && |frame| <= BUFFER
    ensures Downlink(key, server, frame).Some? <==> |frame| >= 18
    ensures |frame| >= 18 ==>
      ClientReaction(key, endpoint, endpoint, Receive(Downlink(key, server, frame).value, BUFFER)) ==
        if |frame| <= 1992 then Write(frame) else Skip
  {
    OpenSeal(key, T_RELAY_DATA, server, frame);
    if |frame| > 1992 {
      OpenCut(key, T_RELAY_DATA, server, frame, 1992);
    }
  }

  /** An error always stops the client; no other message does. */
  lemma OnlyErrorsStop(key: nat, server: nat, endpoint: Peer, m: Message)
    requires server < 0x1_0000_0000 && |Payload(m)| <= BUFFER
    ensures ClientReaction(key, endpoint, endpoint, Receive(Emit(key, server, m), BUFFER)) == Stop <==> m.ErrorDetail?
  {
    OpenSeal(key, Kind(m), server, Payload(m));
    if HEADER + |Payload(m)| > BUFFER {
      OpenCut(key, Kind(m), server, Payload(m), BUFFER - HEADER);
    }
  }

  /** What does not come from the server's own endpoint is skipped, whatever it is. */
  lemma StrangersSkipped(key: nat, server: Peer, peer: Peer, d: Bytes)
    requires peer.ip != server.ip || peer.port != server.port || peer.family != server.family
    ensures ClientReaction(key, server, peer, d) == Skip
  {
  }

  /** Session information that comes late or twice is not taken for a frame. */
  lemma SessionInfoSkipped(key: nat, server: nat, endpoint: Peer, m: Message)
    requires server < 0x1_0000_0000 && m.SessionInfo?
    ensures ClientReaction(key, endpoint, endpoint, Receive(Emit(key, server, m), BUFFER)) == Skip
  {
    OpenSeal(key, T_SESSION_INFO, server, Payload(m));
  }

  /** A decrypted packet of the server, by its bytes: type 5 stops the client, a whole frame is written. */
  lemma ReactionByBytes(key: nat, server: Peer, p: Bytes)
    ensures ClientReaction(key, server, server, Crypt(key, p)) ==
      if |p| < 8 then Skip
      else if p[0] == 5 then Stop
      else if FromBytes(p[2], p[3], 0, 0) < 18 || FromBytes(p[2], p[3], 0, 0) + 8 != |p| then Skip
      else Write(p[8..])
  {
    CryptTwice(key, p);
    if |p| >= 8 {
      HeaderByBytes(p);
    }
  }

  lemma HeaderByBytes(p: Bytes)
    requires |p| >= 8
    ensures var h := GetHeader(p);
      && h.kind == p[0] && h.version == p[1] && h.length == FromBytes(p[2], p[3], 0, 0)
      && h.identity == FromBytes(p[4], p[5], p[6], p[7])
  {
    Fetch1(p[0..1]);
    Fetch1(p[1..2]);
    Fetch2(p[2..4]);
    Fetch4(p[4..8]);
  }

  /** A decrypted packet at the server, by its bytes. */
  lemma VerdictByBytes(key: nat, p: Bytes)
    ensures ServerVerdict(key, Crypt(key, p)) ==
      if |p| < 8 || |p| > 1600 || FromBytes(p[2], p[3], 0, 0) + 8 != |p| then Ignored
      else if p[1] != 1 then WrongVersion
      else if p[0] != 1 && p[0] != 2 && p[0] != 4 then Ignored
      else Dispatched(p[0], FromBytes(p[4], p[5], p[6], p[7]), p[8..])
  {
    CryptTwice(key, p);
    if |p| >= 8 {
      HeaderByBytes(p);
    }
  }
}
