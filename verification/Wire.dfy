/** The packed layouts that client and server exchange, as bytes in memory. */
module Wire {
  type Byte = b: nat | b < 256
  type Bytes = seq<Byte>

  // ----- Little-endian fields

  function Pow256(k: nat): nat
    ensures Pow256(k) > 0
  {
    if k == 0 then 1 else 256 * Pow256(k - 1)
  }

  function Store(n: nat, k: nat): (s: Bytes)
    ensures |s| == k
  {
    if k == 0 then [] else [n % 256] + Store(n / 256, k - 1)
  }

  function Fetch(s: Bytes): (n: nat)
    ensures n < Pow256(|s|)
  {
    if s == [] then 0 else s[0] + 256 * Fetch(s[1..])
  }

  lemma {:induction false} FetchStore(n: nat, k: nat)
    requires n < Pow256(k)
    ensures Fetch(Store(n, k)) == n
  {
    if k > 0 {
      FetchStore(n / 256, k - 1);
      assert Store(n, k)[1..] == Store(n / 256, k - 1);
    }
  }

  /** The number with these bytes, the first being the least significant. */
  function FromBytes(a: nat, b: nat, c: nat, d: nat): nat {
    a + 256 * (b + 256 * (c + 256 * d))
  }

  // ----- Sizes

  const HEADER := 8         // PacketHeader
  const ETHERNET := 18      // EthernetHeader: two 8-byte MacAddress and a 2-byte union
  const START_SESSION := 8
  const SESSION_INFO := 16
  const HEARTBEAT := 4
  const BUFFER := 2000      // every receive and read buffer

  // ----- Packet types

  const T_HEARTBEAT := 1
  const T_START_SESSION := 2
  const T_SESSION_INFO := 3
  const T_RELAY_DATA := 4
  const T_ERROR_DETAIL := 5

  const VERSION := 1

  datatype Header = Header(kind: nat, version: nat, length: nat, identity: nat)

  predicate Fits(h: Header) {
    h.kind < 256 && h.version < 256 && h.length < 65536 && h.identity < 0x1_0000_0000
  }

  function PutHeader(h: Header): (s: Bytes)
    ensures |s| == HEADER
  {
    Store(h.kind, 1) + Store(h.version, 1) + Store(h.length, 2) + Store(h.identity, 4)
  }

  function GetHeader(s: Bytes): (h: Header)
    requires |s| >= HEADER
    ensures Fits(h)
  {
    assert Pow256(1) == 256 && Pow256(2) == 65536 && Pow256(4) == 0x1_0000_0000;
    Header(Fetch(s[0..1]), Fetch(s[1..2]), Fetch(s[2..4]), Fetch(s[4..8]))
  }

  lemma HeaderRoundTrip(h: Header, payload: Bytes)
    requires Fits(h)
    ensures GetHeader(PutHeader(h) + payload) == h
    ensures (PutHeader(h) + payload)[HEADER..] == payload
  {
    var s := PutHeader(h) + payload;
    assert Pow256(1) == 256 && Pow256(2) == 65536 && Pow256(4) == 0x1_0000_0000;
    assert s[0..1] == Store(h.kind, 1) && s[1..2] == Store(h.version, 1);
    assert s[2..4] == Store(h.length, 2) && s[4..8] == Store(h.identity, 4);
    FetchStore(h.kind, 1);
    FetchStore(h.version, 1);
    FetchStore(h.length, 2);
    FetchStore(h.identity, 4);
  }

  /** A packet: the header a sender writes, then the payload it describes. */
  function Packet(kind: nat, identity: nat, payload: Bytes): Bytes {
    PutHeader(Header(kind, VERSION, |payload|, identity)) + payload
  }

  // ----- Addresses

  /** A MAC address is compared and hashed by its six bytes; the two bytes of padding never count. */
  type Key = Bytes

  datatype Peer = Peer(family: nat, ip: nat, port: nat)

  predicate SameEndpoint(p: Peer, q: Peer) {
    p.ip == q.ip && p.port == q.port
  }

  function Destination(frame: Bytes): Key
    requires |frame| >= ETHERNET
  {
    frame[..6]
  }

  /** The individual/group bit: the low bit of the first byte of the destination. */
  predicate IsGroup(frame: Bytes)
    requires |frame| >= ETHERNET
  {
    frame[0] % 2 == 1
  }

  // ----- What the server sends

  const WRONG_VERSION := 1
  const RESTART_SESSION := 2

  datatype Message =
    | SessionInfo(address: nat, gateway: nat, netmask: nat, identity: nat)
    | ErrorDetail(code: nat)
    | RelayData(frame: Bytes)

  datatype Datagram = Datagram(to: Peer, message: Message)

  function Kind(m: Message): nat {
    match m
    case SessionInfo(_, _, _, _) => T_SESSION_INFO
    case ErrorDetail(_) => T_ERROR_DETAIL
    case RelayData(_) => T_RELAY_DATA
  }

  function Payload(m: Message): Bytes {
    match m
    case SessionInfo(a, g, n, i) => Store(a, 4) + Store(g, 4) + Store(n, 4) + Store(i, 4)
    case ErrorDetail(c) => Store(c, 2)
    case RelayData(f) => f
  }

  // ----- The layouts, byte by byte

  lemma Store2(n: nat)
    ensures Store(n, 2) == [n % 256, n / 256 % 256]
  {
    assert Store(n / 256, 1) == [n / 256 % 256] + Store(n / 256 / 256, 0);
  }

  lemma Store4(n: nat)
    ensures Store(n, 4) == [n % 256, n / 256 % 256, n / 65536 % 256, n / 16777216 % 256]
  {
    assert Store(n, 4) == [n % 256] + Store(n / 256, 3);
    assert Store(n / 256, 3) == [n / 256 % 256] + Store(n / 256 / 256, 2);
    Store2(n / 256 / 256);
  }

  lemma Fetch1(s: Bytes)
    requires |s| == 1
    ensures Fetch(s) == s[0]
  {
    assert Fetch(s[1..]) == 0;
  }

  lemma Fetch2(s: Bytes)
    requires |s| == 2
    ensures Fetch(s) == FromBytes(s[0], s[1], 0, 0)
  {
    Fetch1(s[1..]);
  }

  lemma Fetch4(s: Bytes)
    requires |s| == 4
    ensures Fetch(s) == FromBytes(s[0], s[1], s[2], s[3])
  {
    Fetch2(s[2..]);
    assert s[1..][1..] == s[2..];
  }

  /** Type, version, length and identity, each least significant byte first. */
  lemma PacketLayout(kind: nat, identity: nat, payload: Bytes)
    requires kind < 256
    ensures Packet(kind, identity, payload) ==
      [kind, 1, |payload| % 256, |payload| / 256 % 256,
       identity % 256, identity / 256 % 256, identity / 65536 % 256, identity / 16777216 % 256] + payload
  {
    assert Store(kind, 1) == [kind] && Store(VERSION, 1) == [1];
    Store2(|payload|);
    Store4(identity);
  }

  /** The fields of session information in order, and the two bytes of an error. */
  lemma PayloadLayout(m: Message)
    ensures m.SessionInfo? ==> |Payload(m)| == 16 && Kind(m) == 3
    ensures m.SessionInfo? ==>
      Payload(m)[0..4] == Store(m.address, 4) && Payload(m)[4..8] == Store(m.gateway, 4)
      && Payload(m)[8..12] == Store(m.netmask, 4) && Payload(m)[12..16] == Store(m.identity, 4)
    ensures m.ErrorDetail? ==> Payload(m) == [m.code % 256, m.code / 256 % 256] && Kind(m) == 5
    ensures m.RelayData? ==> Payload(m) == m.frame && Kind(m) == 4
  {
    if m.ErrorDetail? {
      Store2(m.code);
    }
  }
}
