/**
  The client's handshake: up to three requests, each answered by at most one
  datagram that is judged by its length alone.
*/
module Handshake {
  import opened Common
  import opened Wire
  import opened DummyCryptoImpl
  import opened TunnelPath

  const TRIES := 3
  const REPLY := 24   // PacketHeader and SessionInfo, and the size of the receive buffer

  datatype Info = Info(address: nat, gateway: nat, netmask: nat, identity: nat)

  /** The four fields of a SessionInfo, whatever bytes they are read from. */
  function ReadInfo(s: Bytes): Info
    requires |s| >= SESSION_INFO
  {
    Info(Fetch(s[0..4]), Fetch(s[4..8]), Fetch(s[8..12]), Fetch(s[12..16]))
  }

  /** What the client makes of one datagram.  The receive returns the number of bytes copied into the buffer. */
  function Adopts(key: nat, d: Bytes): Option<Info> {
    var r := Receive(d, REPLY);
    if |r| == REPLY then Some(ReadInfo(Crypt(key, r)[HEADER..])) else None
  }

  /** The first reply that is adopted; a timeout counts as an empty datagram. */
  function FirstAdopted(key: nat, replies: seq<Bytes>): Option<Info> {
    if replies == [] then None
    else if Adopts(key, replies[0]).Some? then Adopts(key, replies[0])
    else FirstAdopted(key, replies[1..])
  }

  lemma {:induction false} FirstAdoptedAppend(key: nat, replies: seq<Bytes>, d: Bytes)
    ensures FirstAdopted(key, replies + [d]) ==
      if FirstAdopted(key, replies).Some? then FirstAdopted(key, replies) else Adopts(key, d)
  {
    if replies == [] {
      assert [d][1..] == [] && [] + [d] == [d];
    } else {
      assert (replies + [d])[1..] == replies[1..] + [d];
      FirstAdoptedAppend(key, replies[1..], d);
    }
  }

  /** How many requests it takes until a reply is adopted. */
  function Tries(key: nat, replies: seq<Bytes>): nat {
    if replies == [] then 0
    else if Adopts(key, replies[0]).Some? then 1
    else 1 + Tries(key, replies[1..])
  }

  lemma {:induction false} TriesAppend(key: nat, replies: seq<Bytes>, rest: seq<Bytes>)
    requires FirstAdopted(key, replies).None?
    ensures Tries(key, replies + rest) == |replies| + Tries(key, rest)
  {
    if replies == [] {
      assert replies + rest == rest;
    } else {
      assert (replies + rest)[1..] == replies[1..] + rest;
      TriesAppend(key, replies[1..], rest);
    }
  }

  /**
    startSession in the client, with the interface's MAC address as it lies in the
    request: ask, up to three times, until a reply has the right size.
  */
  method StartSession(key: nat, mac: Bytes, replies: seq<Bytes>) returns (ok: bool, info: Info, wire: seq<Bytes>)
    requires |replies| == 3 && |mac| == START_SESSION
    ensures ok == FirstAdopted(key, replies).Some?
    ensures ok ==> info == FirstAdopted(key, replies).value
    ensures wire == seq(Tries(key, replies), _ => Seal(key, 2, 0, mac))
  {
    info, wire := Info(0, 0, 0, 0), [];
    var request := Crypt(key, Packet(T_START_SESSION, 0, mac));
    for i := 0 to TRIES
      invariant FirstAdopted(key, replies[..i]).None?
      invariant wire == seq(i, _ => request)
    {
      wire := wire + [request];
      var response := Receive(replies[i], REPLY);
      FirstAdoptedAppend(key, replies[..i], replies[i]);
      FirstAdoptedStays(key, replies, i + 1);
      assert replies[..i] + [replies[i]] == replies[..i + 1];
      assert replies[..i] + replies[i..] == replies;
      TriesAppend(key, replies[..i], replies[i..]);
      if |response| == REPLY {
        var plain := Crypt(key, response);
        return true, ReadInfo(plain[HEADER..]), wire;
      }
    }
    assert replies[..TRIES] == replies && replies + [] == replies;
    TriesAppend(key, replies, []);
    return false, info, wire;
  }

  lemma {:induction false} FirstAdoptedStays(key: nat, replies: seq<Bytes>, i: nat)
    requires i <= |replies|
    ensures FirstAdopted(key, replies[..i]).Some? ==> FirstAdopted(key, replies) == FirstAdopted(key, replies[..i])
  {
    if i > 0 {
      assert replies[..i][1..] == replies[1..][..i - 1];
      FirstAdoptedStays(key, replies[1..], i - 1);
    }
  }

  // ----- Against what the server emits

  /** A relayed frame is an Ethernet frame as the server accepts it from its interface. */
  predicate Emittable(m: Message) {
    match m
    case SessionInfo(a, g, n, i) =>
      a < 0x1_0000_0000 && g < 0x1_0000_0000 && n < 0x1_0000_0000 && i < 0x1_0000_0000
    case ErrorDetail(_) => true
    case RelayData(f) => ETHERNET <= |f| <= BUFFER
  }

  /** Session information is 24 bytes on the wire, an error 10, and a relayed frame at least 26. */
  lemma Lengths(key: nat, server: nat, m: Message)
    requires Emittable(m)
    ensures |Emit(key, server, m)| == 24 <==> m.SessionInfo?
    ensures |Emit(key, server, m)| == 10 <==> m.ErrorDetail?
    ensures |Emit(key, server, m)| >= 26 <==> m.RelayData?
  {
  }

  function AsInfo(m: Message): Info
    requires m.SessionInfo?
  {
    Info(m.address, m.gateway, m.netmask, m.identity)
  }

  /**
    The length test cannot tell session information from a relayed frame: the
    receive cuts the frame to the size it expects, and the client adopts the
    first sixteen bytes of the frame.
  */
  lemma AdoptsEmission(key: nat, server: nat, m: Message)
    requires Emittable(m) && server < 0x1_0000_0000
    ensures Adopts(key, Emit(key, server, m)) ==
      match m
      case SessionInfo(_, _, _, _) => Some(AsInfo(m))
      case ErrorDetail(_) => None
      case RelayData(f) => Some(ReadInfo(f[..SESSION_INFO]))
  {
    match m {
      case SessionInfo(a, g, n, i) =>
        OpenSeal(key, T_SESSION_INFO, server, Payload(m));
        ReadBack(m);
      case ErrorDetail(_) =>
      case RelayData(f) => OpenCut(key, T_RELAY_DATA, server, f, SESSION_INFO);
    }
  }

  lemma ReadBack(m: Message)
    requires m.SessionInfo? && Emittable(m)
    ensures ReadInfo(Payload(m)) == AsInfo(m)
  {
    var s := Payload(m);
    assert Pow256(4) == 0x1_0000_0000;
    assert s[0..4] == Store(m.address, 4) && s[4..8] == Store(m.gateway, 4);
    assert s[8..12] == Store(m.netmask, 4) && s[12..16] == Store(m.identity, 4);
    FetchStore(m.address, 4);
    FetchStore(m.gateway, 4);
    FetchStore(m.netmask, 4);
    FetchStore(m.identity, 4);
  }

  /** What reaches the client during one handshake: nothing, or one server message. */
  type Replies = seq<Option<Message>>

  function OnWire(key: nat, server: nat, rs: Replies): (d: seq<Bytes>)
    ensures |d| == |rs|
  {
    seq(|rs|, i requires 0 <= i < |rs| => if rs[i].Some? then Emit(key, server, rs[i].value) else [])
  }

  predicate AllEmittable(rs: Replies) {
    forall i :: 0 <= i < |rs| && rs[i].Some? ==> Emittable(rs[i].value)
  }

  /** Whatever the client adopts was sent to it as session information. */
  ghost predicate Sound(key: nat, server: nat, rs: Replies) {
    FirstAdopted(key, OnWire(key, server, rs)).Some? ==>
      exists i :: 0 <= i < |rs| && rs[i].Some? && rs[i].value.SessionInfo?
        && FirstAdopted(key, OnWire(key, server, rs)).value == AsInfo(rs[i].value)
  }

  datatype Kind = Lost | Information | Failure | Frame

  function KindOf(r: Option<Message>): Kind {
    match r
    case None => Lost
    case Some(SessionInfo(_, _, _, _)) => Information
    case Some(ErrorDetail(_)) => Failure
    case Some(RelayData(_)) => Frame
  }

  function Kinds(rs: Replies): (ks: seq<Kind>)
    ensures |ks| == |rs|
  {
    seq(|rs|, i requires 0 <= i < |rs| => KindOf(rs[i]))
  }

  /** No relayed frame arrives before the first session information. */
  predicate InfoFirst(ks: seq<Kind>) {
    ks == [] || ks[0].Information? || (!ks[0].Frame? && InfoFirst(ks[1..]))
  }

  /** A reply that is not adopted does not matter. */
  lemma SoundLater(key: nat, server: nat, rs: Replies)
    requires rs != [] && Adopts(key, OnWire(key, server, rs)[0]).None? && Sound(key, server, rs[1..])
    ensures Sound(key, server, rs)
  {
    var got := FirstAdopted(key, OnWire(key, server, rs[1..]));
    assert OnWire(key, server, rs)[1..] == OnWire(key, server, rs[1..]);
    if got.Some? {
      var i :| 0 <= i < |rs[1..]| && rs[1..][i].Some? && rs[1..][i].value.SessionInfo?
        && got.value == AsInfo(rs[1..][i].value);
      assert rs[i + 1] == rs[1..][i];
    }
  }

  lemma {:induction false} InfoFirstIsSound(key: nat, server: nat, rs: Replies)
    requires AllEmittable(rs) && server < 0x1_0000_0000 && InfoFirst(Kinds(rs))
    ensures Sound(key, server, rs)
  {
    if rs != [] {
      if rs[0].Some? {
        AdoptsEmission(key, server, rs[0].value);
      }
      if !Kinds(rs)[0].Information? {
        assert Kinds(rs)[1..] == Kinds(rs[1..]);
        InfoFirstIsSound(key, server, rs[1..]);
        SoundLater(key, server, rs);
      }
    }
  }

  // ----- A handshake that goes wrong

  const BLANK_INFO := SessionInfo(0, 0, 0, 0)

  /** A frame to destination 01:01:01:01:01:01. */
  function SomeFrame(): (f: Bytes)
    ensures |f| == ETHERNET
  {
    seq(ETHERNET, _ => 1)
  }

  function Example(k: Kind, frame: Bytes): Option<Message> {
    match k
    case Lost => None
    case Information => Some(BLANK_INFO)
    case Failure => Some(ErrorDetail(RESTART_SESSION))
    case Frame => Some(RelayData(frame))
  }

  /** Replies of these kinds, in which every frame is `frame`. */
  function Examples(ks: seq<Kind>, frame: Bytes): (rs: Replies)
    ensures |rs| == |ks|
  {
    seq(|ks|, i requires 0 <= i < |ks| => Example(ks[i], frame))
  }

  lemma FrameReadsAsNonsense()
    ensures ReadInfo(SomeFrame()[..SESSION_INFO]) != AsInfo(BLANK_INFO)
  {
  }

  /** Whatever the frame that comes first, its first sixteen bytes are adopted. */
  lemma {:induction false} FrameFirstIsAdopted(key: nat, server: nat, ks: seq<Kind>, frame: Bytes)
    requires server < 0x1_0000_0000 && !InfoFirst(ks) && ETHERNET <= |frame| <= BUFFER
    ensures FirstAdopted(key, OnWire(key, server, Examples(ks, frame))) == Some(ReadInfo(frame[..SESSION_INFO]))
  {
    var rs := Examples(ks, frame);
    var ds := OnWire(key, server, rs);
    if rs[0].Some? {
      AdoptsEmission(key, server, rs[0].value);
    }
    if !ks[0].Frame? {
      assert rs[1..] == Examples(ks[1..], frame) && ds[1..] == OnWire(key, server, rs[1..]);
      FrameFirstIsAdopted(key, server, ks[1..], frame);
    }
  }

  lemma NeverInformed(key: nat, server: nat, rs: Replies, got: Info)
    requires FirstAdopted(key, OnWire(key, server, rs)) == Some(got) && got != AsInfo(BLANK_INFO)
    requires forall i :: 0 <= i < |rs| && rs[i].Some? && rs[i].value.SessionInfo? ==> rs[i].value == BLANK_INFO
    ensures !Sound(key, server, rs)
  {
  }

  lemma ExamplesFit(ks: seq<Kind>, frame: Bytes)
    requires ETHERNET <= |frame| <= BUFFER
    ensures var rs := Examples(ks, frame);
      && Kinds(rs) == ks && AllEmittable(rs)
      && forall i :: 0 <= i < |rs| && rs[i].Some? && rs[i].value.SessionInfo? ==> rs[i].value == BLANK_INFO
  {
  }

  lemma FrameFirstIsUnsound(key: nat, server: nat, ks: seq<Kind>, frame: Bytes)
    requires server < 0x1_0000_0000 && !InfoFirst(ks) && ETHERNET <= |frame| <= BUFFER
    requires ReadInfo(frame[..SESSION_INFO]) != AsInfo(BLANK_INFO)
    ensures var rs := Examples(ks, frame);
      Kinds(rs) == ks && AllEmittable(rs) && !Sound(key, server, rs)
  {
    FrameFirstIsAdopted(key, server, ks, frame);
    ExamplesFit(ks, frame);
    NeverInformed(key, server, Examples(ks, frame), ReadInfo(frame[..SESSION_INFO]));
  }

  /**
    The exact condition.  Over all contents, a handshake adopts only what the
    server sent as session information iff no relayed frame comes before it.
  */
  lemma SoundIff(key: nat, server: nat, ks: seq<Kind>)
    requires server < 0x1_0000_0000
    ensures InfoFirst(ks) <==>
      forall rs: Replies :: Kinds(rs) == ks && AllEmittable(rs) ==> Sound(key, server, rs)
  {
    if InfoFirst(ks) {
      forall rs: Replies | Kinds(rs) == ks && AllEmittable(rs)
        ensures Sound(key, server, rs)
      {
        InfoFirstIsSound(key, server, rs);
      }
    } else {
      FrameReadsAsNonsense();
      FrameFirstIsUnsound(key, server, ks, SomeFrame());
    }
  }
}
