/**
  Runs in which a session is registered under a key that is taken.  Two sessions
  with one MAC, as a retried handshake makes them: the sweep that drops the silent
  one takes the route of the live one with it.  Two with one identity: the second
  is out of reach of heartbeats and sweeps.
*/
module SharedKeyRuns {
  import opened Wire
  import opened Sessions
  import opened ServerProtocol
  import opened HandlersAlone
  import Orphans

  lemma {:induction false} Join(s0: System, a: seq<Label>, s1: System, b: seq<Label>, s2: System)
    requires Leads(s0, a, s1) && Leads(s1, b, s2)
    ensures Leads(s0, a + b, s2)
    decreases |a|
  {
    if a == [] {
      assert a + b == b;
    } else {
      assert (a + b)[0] == a[0] && (a + b)[1..] == a[1..] + b;
      Join(Apply(s0, a[0]), a[1..], s1, b, s2);
    }
  }

  lemma TickTo(s0: System, ls: seq<Label>, s: System, now: int) returns (ls': seq<Label>)
    requires Leads(s0, ls, s) && s.clock <= now
    ensures Leads(s0, ls', s.(clock := now))
  {
    Extend(s0, ls, s, Tick(now));
    ls' := ls + [Tick(now)];
  }

  /** The sessions with identities 1 to `count` were all started with one MAC; the first has its entry. */
  ghost predicate SameMac(s: System, mac: Key, count: nat) {
    && s.th == [RESTING] && s.clock == 0 && s.next == count
    && (forall k :: k in s.srv.id <==> 1 <= k <= count)
    && s.srv.mac == (if count == 0 then map[] else map[mac := 0])
    && (forall k :: k in s.srv.id ==>
          s.srv.id[k] == k - 1 && s.srv.id[k] in s.srv.clients
          && s.srv.clients[k - 1].mac == mac && s.srv.clients[k - 1].identity == k && s.srv.clients[k - 1].alive == 0)
  }

  lemma OneMoreSession(s: System, peer: Peer, packet: Bytes, count: nat) returns (ls: seq<Label>, e: System)
    requires |packet| == START_SESSION && SameMac(s, packet[..6], count)
    requires 0 < s.srv.pool.current < s.srv.pool.upper <= 0x1_0000_0000
    ensures Leads(s, ls, e) && SameMac(e, packet[..6], count + 1)
    ensures e.srv.pool == s.srv.pool.(current := s.srv.pool.current + 1)
  {
    HtonlInvolution(s.srv.pool.current);
    ls, e := StartSessionAlone(s, 0, peer, packet, count + 1);
  }

  /** Two StartSessions with one MAC: the second session is filed by identity alone. */
  lemma TwoSessions(config: Config, lower: nat, upper: nat, peer: Peer, packet: Bytes)
    returns (ls: seq<Label>, e: System)
    requires |packet| == START_SESSION && 0 < lower && lower + 2 <= upper <= 0x1_0000_0000
    ensures Leads(Start(1, lower, upper, 0, config), ls, e) && SameMac(e, packet[..6], 2)
    ensures MacWithinId(e.srv) && !IdWithinMac(e.srv)
  {
    var s := Start(1, lower, upper, 0, config);
    ls, e := OneMoreSession(s, peer, packet, 0);
    var more, f := OneMoreSession(e, peer, packet, 1);
    Join(s, ls, e, more, f);
    ls, e := ls + more, f;
    assert e.srv.id[1] == 0 && e.srv.id[2] == 1;
    assert !InMac(e.srv, e.srv.id[2]);
  }

  /**
    The first session is heard one second before the sweep and stays bound to its
    identity; its MAC leads nowhere afterwards.
  */
  lemma RouteLost(config: Config, lower: nat, upper: nat, peer: Peer, packet: Bytes)
    returns (before: seq<Label>, s: System, after: seq<Label>, e: System)
    requires |packet| == START_SESSION && 0 < lower && lower + 2 <= upper <= 0x1_0000_0000
    ensures Leads(Start(1, lower, upper, 0, config), before, s) && Leads(s, after, e)
    ensures 1 in s.srv.id && InMac(s.srv, s.srv.id[1]) && s.clock == 45 && Deref(s.srv, s.srv.id[1]).alive == 44
    ensures 2 in s.srv.id && Deref(s.srv, s.srv.id[2]).alive == 0 && 2 !in e.srv.id
    ensures 1 in e.srv.id && e.srv.id[1] == s.srv.id[1] && e.srv.id[1] in e.srv.clients && packet[..6] !in e.srv.mac
  {
    before, s := TwoSessions(config, lower, upper, peer, packet);
    var s0, late := Start(1, lower, upper, 0, config), s.(clock := 44);
    before := TickTo(s0, before, s, 44);
    var beat, heard := HeartbeatAlone(late, 0, peer, 1);
    Join(s0, before, late, beat, heard);
    before := TickTo(s0, before + beat, heard, 45);
    s := heard.(clock := 45);
    var dropped: seq<nat>;
    after, e, dropped := SweepAlone(s, 0);
    assert 2 in dropped;
  }

  /** Two StartSessions that draw the same identity: the second session is an orphan from then on. */
  lemma OneIdentity(config: Config, lower: nat, upper: nat, peer: Peer, first: Bytes, second: Bytes)
    returns (ls: seq<Label>, e: System)
    requires |first| == |second| == START_SESSION && first[..6] != second[..6]
    requires 0 < lower && lower + 2 <= upper <= 0x1_0000_0000
    ensures Leads(Start(1, lower, upper, 0, config), ls, e)
    ensures Orphans.Orphan(e, 1) && !MacWithinId(e.srv)
  {
    var s := Start(1, lower, upper, 0, config);
    ls, e := OneMoreSession(s, peer, first, 0);
    HtonlInvolution(lower + 1);
    var more, f := StartSessionAlone(e, 0, peer, second, 1);
    Join(s, ls, e, more, f);
    ls, e := ls + more, f;
    assert e.srv.id[1] == 0 && e.srv.mac[second[..6]] == 1;
  }
}
