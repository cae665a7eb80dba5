/**
  The shared state of the tunnel server and its critical sections, each as a
  function of that state: the address pool, the two session indexes and the
  session objects they point to.
*/
module Sessions {
  import opened Wire

  /** The address of a ClientInfo object.  Objects live in an explicit heap so that deleting one can be stated. */
  type Ref = nat

  datatype Client = Client(ip: nat, mac: Key, address: Peer, identity: nat, alive: int)

  /** Host-order bounds of the fresh range, and a stack of network-order addresses. */
  datatype Pool = Pool(upper: nat, current: nat, free: seq<nat>)

  datatype Server = Server(
    id: map<nat, Ref>,
    mac: map<Key, Ref>,
    clients: map<Ref, Client>,
    pool: Pool,
    sent: seq<Datagram>)

  const EXPIRY := 45        // seconds of silence

  datatype Config = Config(gateway: nat, netmask: nat)

  // ----- The address pool

  /** Byte order reversal of a 32-bit address. */
  function Htonl(n: nat): nat {
    FromBytes(n / 256 / 256 / 256 % 256, n / 256 / 256 % 256, n / 256 % 256, n % 256)
  }

  lemma FirstByte(a: nat, rest: nat)
    requires a < 256
    ensures (a + 256 * rest) % 256 == a && (a + 256 * rest) / 256 == rest
  {
  }

  lemma BytesOf(a: nat, b: nat, c: nat, d: nat)
    requires a < 256 && b < 256 && c < 256 && d < 256
    ensures var n := FromBytes(a, b, c, d);
      && n < 0x1_0000_0000
      && n % 256 == a && n / 256 % 256 == b && n / 256 / 256 % 256 == c && n / 256 / 256 / 256 % 256 == d
  {
    FirstByte(a, b + 256 * (c + 256 * d));
    FirstByte(b, c + 256 * d);
    FirstByte(c, d);
  }

  /** Every 32-bit number is four bytes. */
  lemma FourBytes(n: nat) returns (a: nat, b: nat, c: nat, d: nat)
    requires n < 0x1_0000_0000
    ensures a < 256 && b < 256 && c < 256 && d < 256 && n == FromBytes(a, b, c, d)
  {
    var n1 := n / 256;
    var n2 := n1 / 256;
    a, b, c, d := n % 256, n1 % 256, n2 % 256, n2 / 256;
    assert n1 == b + 256 * n2;
  }

  lemma HtonlBytes(a: nat, b: nat, c: nat, d: nat)
    requires a < 256 && b < 256 && c < 256 && d < 256
    ensures Htonl(FromBytes(a, b, c, d)) == FromBytes(d, c, b, a)
  {
    BytesOf(a, b, c, d);
  }

  lemma HtonlInvolution(n: nat)
    requires n < 0x1_0000_0000
    ensures Htonl(n) < 0x1_0000_0000
    ensures Htonl(Htonl(n)) == n
    ensures Htonl(n) == 0 <==> n == 0
  {
    var a, b, c, d := FourBytes(n);
    HtonlBytes(a, b, c, d);
    HtonlBytes(d, c, b, a);
    BytesOf(d, c, b, a);
  }

  function AllocateAddress(p: Pool): (Pool, nat) {
    if p.current < p.upper then (p.(current := p.current + 1), Htonl(p.current))
    else if p.free != [] then (p.(free := p.free[..|p.free| - 1]), p.free[|p.free| - 1])
    else (p, 0)
  }

  function ReleaseAddress(p: Pool, address: nat): Pool {
    p.(free := p.free + [address])
  }

  // ----- The indexes

  /** What a read through a pointer yields; through a dangling one, anything. */
  function Deref(s: Server, r: Ref): Client {
    if r in s.clients then s.clients[r] else Client(0, [], Peer(0, 0, 0), 0, 0)
  }

  /** std::unordered_map::insert leaves an existing binding alone. */
  function InsertNew<K(==)>(m: map<K, Ref>, k: K, r: Ref): map<K, Ref> {
    if k in m then m else m[k := r]
  }

  function Insert(s: Server, r: Ref, peer: Peer, config: Config): Server {
    var c := Deref(s, r);
    s.(id := InsertNew(s.id, c.identity, r),
       mac := InsertNew(s.mac, c.mac, r),
       sent := s.sent + [Datagram(peer, SessionInfo(c.ip, config.gateway, config.netmask, c.identity))])
  }

  function Beat(s: Server, r: Ref, peer: Peer, now: int): Server {
    var c := Deref(s, r);
    var address := if SameEndpoint(c.address, peer) then c.address else peer;
    s.(clients := s.clients[r := c.(alive := now, address := address)])
  }

  function Refuse(s: Server, peer: Peer, code: nat): Server {
    s.(sent := s.sent + [Datagram(peer, ErrorDetail(code))])
  }

  function Targets(s: Server, frame: Bytes): set<Key>
    requires |frame| >= ETHERNET
  {
    if IsGroup(frame) then s.mac.Keys
    else if Destination(frame) in s.mac then {Destination(frame)} else {}
  }

  function Relay(s: Server, r: Ref, frame: Bytes): Server {
    s.(sent := s.sent + [Datagram(Deref(s, r).address, RelayData(frame))])
  }

  predicate Expired(c: Client, now: int) {
    now - c.alive >= EXPIRY
  }

  /** Erasing by key: the MAC index loses whatever session is bound to that MAC. */
  function Unlink(s: Server, k: nat, r: Ref): Server {
    s.(mac := s.mac - {Deref(s, r).mac}, id := s.id - {k})
  }

  function Free(s: Server, r: Ref): Server {
    s.(pool := ReleaseAddress(s.pool, Deref(s, r).ip))
  }

  function Delete(s: Server, r: Ref): Server {
    s.(clients := s.clients - {r})
  }

  // ----- What the indexes say

  /** The object is reachable from one of the indexes. */
  predicate InId(s: Server, r: Ref) {
    var c := Deref(s, r);
    c.identity in s.id && s.id[c.identity] == r
  }

  predicate InMac(s: Server, r: Ref) {
    var c := Deref(s, r);
    c.mac in s.mac && s.mac[c.mac] == r
  }

  predicate Indexed(s: Server, r: Ref) {
    InId(s, r) || InMac(s, r)
  }

  /** Every entry points to a live object filed under that object's own key. */
  ghost predicate KeysAgree(s: Server) {
    && (forall k :: k in s.id ==> s.id[k] in s.clients && s.clients[s.id[k]].identity == k)
    && (forall k :: k in s.mac ==> s.mac[k] in s.clients && s.clients[s.mac[k]].mac == k)
  }

  /** Every session in the MAC index is in the identity index. */
  ghost predicate MacWithinId(s: Server) {
    forall k :: k in s.mac ==> InId(s, s.mac[k])
  }

  ghost predicate IdWithinMac(s: Server) {
    forall k :: k in s.id ==> InMac(s, s.id[k])
  }

  /** Which keys are taken decides, exactly, whether the indexes stay nested or equal. */
  lemma InsertAgreement(s: Server, r: Ref, peer: Peer, config: Config)
    requires KeysAgree(s) && r in s.clients && !Indexed(s, r)
    ensures var c := s.clients[r];
      && KeysAgree(Insert(s, r, peer, config))
      && (MacWithinId(s) ==> (MacWithinId(Insert(s, r, peer, config)) <==> c.identity !in s.id || c.mac in s.mac))
      && (IdWithinMac(s) ==> (IdWithinMac(Insert(s, r, peer, config)) <==> c.mac !in s.mac || c.identity in s.id))
  {
    var s' := Insert(s, r, peer, config);
    var c := s.clients[r];
    assert c.mac !in s.mac ==> s'.mac[c.mac] == r;
    assert c.identity !in s.id ==> s'.id[c.identity] == r;
  }

  /** Unlinking the session bound to `k` keeps the keys right and, if they held, the nestings. */
  lemma UnlinkAgreement(s: Server, k: nat)
    requires KeysAgree(s) && k in s.id
    ensures var s' := Unlink(s, k, s.id[k]);
      && KeysAgree(s') && !Indexed(s', s.id[k])
      && (MacWithinId(s) ==> MacWithinId(s'))
      && (MacWithinId(s) && IdWithinMac(s) ==> IdWithinMac(s'))
  {
  }
}
