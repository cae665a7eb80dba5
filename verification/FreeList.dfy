/** Lists threaded through the first word of free objects. */
module FreeList {
  /** Words of memory by address; address 0 is null. */
  type Memory = map<nat, nat>

  function Read(m: Memory, p: nat): nat {
    if p in m then m[p] else 0
  }

  /** The links from `head` on are exactly the nodes `s`, then null. */
  predicate List(m: Memory, head: nat, s: seq<nat>)
    decreases |s|
  {
    if s == [] then head == 0 else head != 0 && head == s[0] && List(m, Read(m, head), s[1..])
  }

  /** Writing a word that is not a node of the list leaves the list intact. */
  lemma {:induction false} Frame(m: Memory, head: nat, s: seq<nat>, p: nat, v: nat)
    requires List(m, head, s) && p !in s
    ensures List(m[p := v], head, s)
    decreases |s|
  {
    if s != [] {
      Frame(m, Read(m, head), s[1..], p, v);
    }
  }

  /** StackNode::push: link the node to the old head. */
  lemma Push(m: Memory, head: nat, s: seq<nat>, p: nat)
    requires List(m, head, s) && p !in s && p != 0
    ensures List(m[p := head], p, [p] + s)
  {
    Frame(m, head, s, p, head);
    assert ([p] + s)[1..] == s;
  }

  /** append: pushes the nodes one by one. */
  function PushAll(m: Memory, head: nat, nodes: seq<nat>): (Memory, nat)
    decreases |nodes|
  {
    if nodes == [] then (m, head) else PushAll(m[nodes[0] := head], nodes[0], nodes[1..])
  }

  /** Memory and head determine the list. */
  lemma {:induction false} Unique(m: Memory, head: nat, s: seq<nat>, t: seq<nat>)
    requires List(m, head, s) && List(m, head, t)
    ensures s == t
    decreases |s|
  {
    if s != [] && t != [] {
      Unique(m, Read(m, head), s[1..], t[1..]);
      assert s == [s[0]] + s[1..] && t == [t[0]] + t[1..];
    }
  }
}
