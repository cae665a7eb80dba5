/** A whole sweep, as the sessions it drops in the order it comes to them. */
module SweepSpec {
  import opened Common
  import opened Sessions

  /** One expired session: out of both indexes, its address back on the stack, its object gone. */
  function Drop(s: Server, k: nat): Server
    requires k in s.id
  {
    var r := s.id[k];
    Delete(Free(Unlink(s, k, r), r), r)
  }

  /** Identities that can be dropped one after the other. */
  predicate Droppable(s: Server, ks: seq<nat>) {
    Distinct(ks) && forall k :: k in ks ==> k in s.id
  }

  function Addresses(s: Server, ks: seq<nat>): (a: seq<nat>)
    requires forall k :: k in ks ==> k in s.id
    ensures |a| == |ks|
  {
    seq(|ks|, i requires 0 <= i < |ks| => Deref(s, s.id[ks[i]]).ip)
  }

  /** What a sweep that drops exactly `ks` leaves behind. */
  function Without(s: Server, ks: seq<nat>): Server
    requires Droppable(s, ks)
  {
    s.(id := s.id - (set k | k in ks),
       mac := s.mac - (set k | k in ks :: Deref(s, s.id[k]).mac),
       clients := s.clients - (set k | k in ks :: s.id[k]),
       pool := s.pool.(free := s.pool.free + Addresses(s, ks)))
  }

  lemma WithoutNone(s: Server)
    ensures Without(s, []) == s
  {
  }

  /** Sessions not yet dropped look just as they did at the start of the sweep. */
  lemma Untouched(s: Server, ks: seq<nat>, k: nat)
    requires KeysAgree(s) && Droppable(s, ks) && k in s.id && k !in ks
    ensures var s' := Without(s, ks);
      k in s'.id && s'.id[k] == s.id[k] && s.id[k] in s'.clients && s'.clients[s.id[k]] == s.clients[s.id[k]]
  {
  }

  lemma WithoutOneMore(s: Server, ks: seq<nat>, k: nat)
    requires KeysAgree(s) && Droppable(s, ks) && k in s.id && k !in ks
    ensures Droppable(s, ks + [k]) && k in Without(s, ks).id
    ensures Drop(Without(s, ks), k) == Without(s, ks + [k])
  {
    Untouched(s, ks, k);
    SetsOneMore(s, ks, k);
    assert Addresses(s, ks + [k]) == Addresses(s, ks) + [s.clients[s.id[k]].ip];
    var d := Drop(Without(s, ks), k);
    var w := Without(s, ks + [k]);
    assert d.id == w.id;
    assert d.mac == w.mac;
    assert d.clients == w.clients;
    assert d.pool.free == w.pool.free;
  }

  lemma SetsOneMore(s: Server, ks: seq<nat>, k: nat)
    requires k in s.id && forall x :: x in ks ==> x in s.id
    ensures (set x | x in ks + [k]) == (set x | x in ks) + {k}
    ensures (set x | x in ks + [k] :: Deref(s, s.id[x]).mac)
      == (set x | x in ks :: Deref(s, s.id[x]).mac) + {Deref(s, s.id[k]).mac}
    ensures (set x | x in ks + [k] :: s.id[x]) == (set x | x in ks :: s.id[x]) + {s.id[k]}
  {
  }

  /** Dropping sessions keeps every remaining entry right. */
  lemma WithoutAgrees(s: Server, ks: seq<nat>)
    requires KeysAgree(s) && Droppable(s, ks)
    ensures KeysAgree(Without(s, ks))
  {
  }
}
