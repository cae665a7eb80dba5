/** One allocator and the memory its arenas lie in, as its owner thread sees them. */
module ArenaAllocatorImpl {
  import opened Common
  import opened FreeList
  import opened Arena

  /** Memory shared by all allocators. */
  class Store {
    var word: Memory

    constructor ()
      ensures word == map[]
    {
      word := map[];
    }
  }

  function Reverse(s: seq<nat>): seq<nat> {
    if s == [] then [] else Reverse(s[1..]) + [s[0]]
  }

  lemma {:induction false} ReverseMembers(s: seq<nat>)
    ensures |Reverse(s)| == |s| && forall p :: p in Reverse(s) <==> p in s
    ensures Distinct(s) ==> Distinct(Reverse(s))
  {
    if s != [] {
      ReverseMembers(s[1..]);
      assert s == [s[0]] + s[1..];
      assert Distinct(s) ==> s[0] !in s[1..];
    }
  }

  /** Pushing nodes one by one puts them in front of the list, the last one first. */
  lemma {:induction false} PushAllReverses(m: Memory, head: nat, s: seq<nat>, nodes: seq<nat>)
    requires List(m, head, s)
    requires Distinct(nodes) && 0 !in nodes && forall n :: n in nodes ==> n !in s
    ensures var (m', head') := PushAll(m, head, nodes); List(m', head', Reverse(nodes) + s)
    decreases |nodes|
  {
    if nodes == [] {
      assert Reverse(nodes) + s == s;
    } else {
      Push(m, head, s, nodes[0]);
      assert nodes == [nodes[0]] + nodes[1..];
      PushAllReverses(m[nodes[0] := head], nodes[0], [nodes[0]] + s, nodes[1..]);
      assert Reverse(nodes[1..]) + ([nodes[0]] + s) == Reverse(nodes) + s;
    }
  }

  ghost predicate IsObject(l: Layout, arenas: set<nat>, p: nat)
    requires Sensible(l)
  {
    exists a :: a in arenas && p in Objects(l, a)
  }

  lemma ObjectWithin(l: Layout, arenas: set<nat>, p: nat) returns (a: nat)
    requires Sensible(l) && IsObject(l, arenas, p)
    ensures a in arenas && Within(p, a) && p in Objects(l, a)
  {
    a :| a in arenas && p in Objects(l, a);
    ObjectsPlaced(l, a);
  }

  lemma {:induction false} ListAgrees(m: Memory, m': Memory, head: nat, s: seq<nat>)
    requires List(m, head, s) && forall p :: p in s ==> Read(m', p) == Read(m, p)
    ensures List(m', head, s)
    decreases |s|
  {
    if s != [] {
      ListAgrees(m, m', Read(m, head), s[1..]);
    }
  }

  /** Only words of one arena have changed. */
  ghost predicate ChangedWithin(m: Memory, m': Memory, arena: nat) {
    forall p: nat :: !(arena <= p < arena + ARENA_SIZE) ==> Read(m', p) == Read(m, p)
  }

  lemma ChangedMore(m: Memory, m': Memory, arena: nat, p: nat, v: nat)
    requires ChangedWithin(m, m', arena) && arena <= p < arena + ARENA_SIZE
    ensures ChangedWithin(m, m'[p := v], arena)
  {
  }

  lemma ChangedTwice(m0: Memory, m1: Memory, m2: Memory, arena: nat)
    requires ChangedWithin(m0, m1, arena) && ChangedWithin(m1, m2, arena)
    ensures ChangedWithin(m0, m2, arena)
  {
  }

  lemma {:induction false} PushAllWithin(m: Memory, head: nat, nodes: seq<nat>, arena: nat)
    requires forall n :: n in nodes ==> Within(n, arena)
    ensures ChangedWithin(m, PushAll(m, head, nodes).0, arena)
    ensures Read(PushAll(m, head, nodes).0, arena) == Read(m, arena)
    decreases |nodes|
  {
    if nodes != [] {
      var n := m[nodes[0] := head];
      assert Within(nodes[0], arena);
      ChangedMore(m, m, arena, nodes[0], head);
      PushAllWithin(n, nodes[0], nodes[1..], arena);
      ChangedTwice(m, n, PushAll(n, nodes[0], nodes[1..]).0, arena);
    }
  }

  /** The objects of a new arena are none of the old ones. */
  lemma NewObjects(l: Layout, arenas: set<nat>, arena: nat, s: seq<nat>)
    requires Sensible(l) && Aligned(arena) && arena !in arenas && forall a :: a in arenas ==> Aligned(a)
    requires forall p :: p in s ==> IsObject(l, arenas, p)
    ensures forall p :: p in s ==> !(arena <= p < arena + ARENA_SIZE) && IsObject(l, arenas + {arena}, p)
    ensures forall p :: p in Objects(l, arena) ==> p !in s && IsObject(l, arenas + {arena}, p)
  {
    forall p | p in s
      ensures !(arena <= p < arena + ARENA_SIZE) && IsObject(l, arenas + {arena}, p)
    {
      var a := ObjectWithin(l, arenas, p);
      ArenasApart(a, arena);
      assert a in arenas + {arena};
    }
    ObjectsPlaced(l, arena);
    assert arena in arenas + {arena};
  }

  lemma DistinctConcat(a: seq<nat>, b: seq<nat>)
    requires Distinct(a) && Distinct(b) && forall p :: p in a ==> p !in b
    ensures Distinct(a + b)
  {
    var s := a + b;
    forall i, j | 0 <= i < j < |s|
      ensures s[i] != s[j]
    {
      if i < |a| <= j {
        assert s[i] in a && s[j] in b;
      } else if |a| <= i {
        assert s[i] == b[i - |a|] && s[j] == b[j - |a|];
      }
    }
  }

  lemma Members(a: seq<nat>, b: seq<nat>)
    ensures forall p :: p in a || p in b ==> p in a + b
  {
  }

  lemma DistinctInsert(a: seq<nat>, x: nat, b: seq<nat>)
    requires Distinct(a + b) && x !in a && x !in b
    ensures Distinct(a + ([x] + b)) && forall p :: p in a + ([x] + b) <==> p == x || p in a + b
  {
    var s, t := a + b, a + ([x] + b);
    assert forall i :: 0 <= i < |t| ==> t[i] == if i < |a| then a[i] else if i == |a| then x else b[i - |a| - 1];
    forall i, j | 0 <= i < j < |t|
      ensures t[i] != t[j]
    {
      var i', j' := if i < |a| then i else i - 1, if j < |a| then j else j - 1;
      assert i != |a| ==> t[i] == s[i'];
      assert j != |a| ==> t[j] == s[j'];
    }
  }

  lemma DistinctTail(x: nat, t: seq<nat>)
    requires Distinct([x] + t)
    ensures Distinct(t) && x !in t
  {
    var s := [x] + t;
    forall i | 0 <= i < |t|
      ensures t[i] == s[i + 1] != s[0]
    {
    }
  }

  /**
    Whatever one allocator does inside an arena of its own leaves the lists and
    the headers of every other allocator as they were.
  */
  lemma ElsewhereIntact(l: Layout, arenas: set<nat>, arena: nat, m: Memory, m': Memory, head: nat, s: seq<nat>)
    requires Sensible(l) && Aligned(arena) && arena !in arenas && forall a :: a in arenas ==> Aligned(a)
    requires ChangedWithin(m, m', arena)
    requires List(m, head, s) && forall p :: p in s ==> IsObject(l, arenas, p)
    ensures List(m', head, s)
    ensures forall a :: a in arenas ==> Read(m', a) == Read(m, a)
  {
    NewObjects(l, arenas, arena, s);
    ListAgrees(m, m', head, s);
    forall a | a in arenas
      ensures Read(m', a) == Read(m, a)
    {
      ArenasApart(a, arena);
    }
  }

  class ArenaAllocator {
    const self: nat       // the address of this object
    const layout: Layout
    const memory: Store
    var local: nat
    var global: nat
    ghost var free: seq<nat>      // the local list
    ghost var returned: seq<nat>  // the shared stack
    ghost var arenas: set<nat>

    /** Every arena is aligned, does not contain this object and has its address in the first word. */
    ghost predicate Headers(m: Memory)
      reads this
    {
      forall a :: a in arenas ==> Aligned(a) && !(a <= self < a + ARENA_SIZE) && Read(m, a) == self
    }

    /** The lists of this allocator and its headers are right in the memory `m`. */
    ghost predicate ValidIn(m: Memory)
      reads this
    {
      && Sensible(layout) && self != 0
      && List(m, local, free) && List(m, global, returned)
      && Distinct(free + returned)
      && (forall n :: n in free + returned ==> IsObject(layout, arenas, n))
      && Headers(m)
    }

    ghost predicate Valid()
      reads this, memory
    {
      ValidIn(memory.word)
    }

    constructor (self: nat, layout: Layout, memory: Store)
      requires Sensible(layout) && self != 0
      ensures Valid() && free == [] && returned == [] && arenas == {}
      ensures this.self == self && this.layout == layout && this.memory == memory
    {
      this.self, this.layout, this.memory := self, layout, memory;
      local, global := 0, 0;
      free, returned, arenas := [], [], {};
    }

    /** A new arena as the page allocator hands it out. */
    predicate Supplies(arena: nat) {
      Aligned(arena) && !(arena <= self < arena + ARENA_SIZE)
    }

    /** StackNode::push. */
    method PushNode(n: nat, p: nat, ghost rest: seq<nat>) returns (r: nat)
      modifies memory
      ensures r == p && memory.word == old(memory.word)[p := n]
      ensures old(List(memory.word, n, rest)) && p !in rest && p != 0 ==> List(memory.word, r, [p] + rest)
    {
      if List(memory.word, n, rest) && p !in rest && p != 0 {
        Push(memory.word, n, rest, p);
      }
      memory.word := memory.word[p := n];
      r := p;
    }

    /** The loop of append: pushes the objects of the arena in increasing address order. */
    method Carve(arena: nat) returns (l: nat)
      requires Sensible(layout) && List(memory.word, local, free)
      requires forall p :: p in free ==> !(arena <= p < arena + ARENA_SIZE)
      modifies memory
      ensures (memory.word, l) == PushAll(old(memory.word), local, Objects(layout, arena))
      ensures List(memory.word, l, Reverse(Objects(layout, arena)) + free)
      ensures ChangedWithin(old(memory.word), memory.word, arena)
      ensures Read(memory.word, arena) == old(Read(memory.word, arena))
    {
      ghost var nodes := Objects(layout, arena);
      ghost var pos := Positions(layout, arena);
      var begin := Align(arena + LINK, layout.alignment);
      l := local;
      ghost var i := 0;
      assert nodes[0..] == nodes;
      while begin < arena + ARENA_SIZE - layout.size
        invariant i < |pos| && begin == pos[i]
        invariant PushAll(memory.word, l, nodes[i..]) == PushAll(old(memory.word), local, nodes)
        decreases |pos| - i
      {
        assert pos[..|nodes|][i] == nodes[i] && nodes[i..][1..] == nodes[i + 1..];
        assert Follows(layout, pos, i);
        l := PushNode(l, begin, []);
        begin := Align(begin + layout.size, layout.alignment);
        i := i + 1;
      }
      ObjectsPlaced(layout, arena);
      PushAllReverses(old(memory.word), local, free, nodes);
      PushAllWithin(old(memory.word), local, nodes, arena);
    }

    method Append(arena: nat)
      requires Valid() && Supplies(arena) && arena !in arenas
      modifies this`local, this`free, this`arenas, memory
      ensures Valid()
      ensures free == Reverse(Objects(layout, arena)) + old(free)
      ensures arenas == old(arenas) + {arena}
      ensures (memory.word, local) ==
        PushAll(old(memory.word)[arena := self], old(local), Objects(layout, arena))
      ensures ChangedWithin(old(memory.word), memory.word, arena)
    {
      ghost var m, nodes := memory.word, Objects(layout, arena);
      NewObjects(layout, arenas, arena, free + returned);
      Members(free, returned);
      ChangedMore(m, m, arena, arena, self);
      memory.word := memory.word[arena := self];
      ghost var headed := memory.word;
      ListAgrees(m, headed, local, free);
      local := Carve(arena);
      ChangedTwice(m, headed, memory.word, arena);
      ListAgrees(m, memory.word, global, returned);
      KeepHeaders(arena, m);
      AppendObjects(arena);
      free, arenas := Reverse(nodes) + free, arenas + {arena};
    }

    lemma AppendObjects(arena: nat)
      requires Sensible(layout) && Aligned(arena) && arena !in arenas && forall a :: a in arenas ==> Aligned(a)
      requires Distinct(free + returned) && forall p :: p in free + returned ==> IsObject(layout, arenas, p)
      ensures var s := Reverse(Objects(layout, arena)) + free + returned;
        Distinct(s) && forall p :: p in s ==> IsObject(layout, arenas + {arena}, p)
    {
      var nodes := Objects(layout, arena);
      NewObjects(layout, arenas, arena, free + returned);
      ReverseMembers(nodes);
      ObjectsPlaced(layout, arena);
      DistinctConcat(Reverse(nodes), free + returned);
      assert Reverse(nodes) + free + returned == Reverse(nodes) + (free + returned);
    }

    lemma KeepHeaders(arena: nat, m: Memory)
      requires Supplies(arena) && arena !in arenas && ChangedWithin(m, memory.word, arena)
      requires Read(memory.word, arena) == self
      requires forall a :: a in arenas ==> Aligned(a) && !(a <= self < a + ARENA_SIZE) && Read(m, a) == self
      ensures forall a :: a in arenas + {arena} ==>
        Aligned(a) && !(a <= self < a + ARENA_SIZE) && Read(memory.word, a) == self
    {
    }

    /**
      The first object of the local list, refilled from the shared stack and then
      from a new arena at `supply`.  An arena too small for one object leaves
      nothing to take: ArenaAllocator.hpp then reads through a null pointer.
    */
    method Allocate(supply: nat) returns (p: Option<nat>)
      requires Valid() && Supplies(supply) && supply !in arenas
      modifies this`local, this`global, this`free, this`returned, this`arenas, memory
      ensures Valid()
      ensures var all :=
          if old(free) != [] then old(free)
          else if old(returned) != [] then old(returned)
          else Reverse(Objects(layout, supply));
        if all == [] then p == None && free == [] else p == Some(all[0]) && free == all[1..]
      ensures returned == if old(free) != [] then old(returned) else []
      ensures arenas == old(arenas) + (if old(free) == [] && old(returned) == [] then {supply} else {})
      ensures memory.word ==
        if old(free) == [] && old(returned) == [] then
          PushAll(old(memory.word)[supply := self], 0, Objects(layout, supply)).0
        else old(memory.word)
      ensures ChangedWithin(old(memory.word), memory.word, supply)
      ensures p.Some? ==> HeldBy(p.value) && Read(memory.word, p.value) != self
    {
      if local == 0 {
        local, global := global, local;
        free, returned := returned, free;
        assert old(free) + old(returned) == free + returned;
      }
      if local == 0 {
        Append(supply);
        assert Reverse(Objects(layout, supply)) + [] == Reverse(Objects(layout, supply));
      }
      if local == 0 {
        return None;
      }
      TakeFirst();
      p := Some(local);
      local := Read(memory.word, local);
      free := free[1..];
    }

    /** An object of this allocator that is in use: on neither list. */
    ghost predicate HeldBy(p: nat)
      reads this
      requires Sensible(layout)
    {
      IsObject(layout, arenas, p) && p !in free && p !in returned
    }

    /** The link of the first free object is null or another object, never the allocator. */
    lemma TakeFirst()
      requires Valid() && local != 0
      ensures free != [] && free[0] == local && List(memory.word, Read(memory.word, local), free[1..])
      ensures IsObject(layout, arenas, local) && local !in free[1..] && local !in returned
      ensures Read(memory.word, local) != self
      ensures Distinct(free[1..] + returned)
    {
      assert free + returned == [local] + (free[1..] + returned);
      DistinctTail(local, free[1..] + returned);
      if Read(memory.word, local) != 0 {
        var n := Read(memory.word, local);
        assert List(memory.word, n, free[1..]);
        assert free[1..][0] == n && n in free + returned;
        var a := ObjectWithin(layout, arenas, n);
      }
    }

    /** The allocator that the header names. */
    lemma HeaderNamesOwner(p: nat)
      requires Valid() && IsObject(layout, arenas, p)
      ensures Read(memory.word, HeaderOf(p)) == self
    {
      var a := ObjectWithin(layout, arenas, p);
      HeaderFound(p, a);
    }

    /**
      The lookup as written reads the object's own first word; it finds the owner
      only if the user of the object happened to leave the owner's address there.
    */
    lemma LookupAsWritten(p: nat)
      requires Valid() && IsObject(layout, arenas, p)
      ensures Read(memory.word, p) == Read(memory.word, HeaderOf(p)) <==> Read(memory.word, p) == self
    {
      HeaderNamesOwner(p);
    }

    /**
      release as written, for an object of any allocator: it goes by the first word
      of the object.  Another allocator's object that happens to hold this one's
      address ends up on the local list, where it does not belong.
    */
    method Release(p: nat) returns (foreign: Option<nat>)
      requires Valid() && !Aligned(p) && p !in free && p !in returned
      modifies this`local, this`free, memory
      ensures arenas == old(arenas) && returned == old(returned)
      ensures var owner := old(Read(memory.word, p));
        if owner == self then
          && foreign == None && free == [p] + old(free) && memory.word == old(memory.word)[p := old(local)]
          && List(memory.word, local, free) && (Valid() <==> IsObject(layout, arenas, p))
        else
          foreign == Some(owner) && free == old(free) && memory.word == old(memory.word) && Valid()
    {
      var owner := Read(memory.word, p);
      if owner == self {
        PushLocal(p);
        return None;
      }
      return Some(owner);
    }

    method PushLocal(p: nat)
      requires Valid() && !Aligned(p) && p !in free && p !in returned
      modifies this`local, this`free, memory
      ensures free == [p] + old(free) && memory.word == old(memory.word)[p := old(local)]
      ensures List(memory.word, local, free) && (Valid() <==> IsObject(layout, arenas, p))
    {
      Frame(memory.word, global, returned, p, local);
      local := PushNode(local, p, free);
      assert [p] + free + returned == [p] + (free + returned);
      DistinctConcat([p], free + returned);
      free := [p] + free;
      assert p in free + returned;
    }

    method ReleaseLocal(p: nat)
      requires Valid() && HeldBy(p)
      modifies this`local, this`free, memory
      ensures Valid() && free == [p] + old(free) && memory.word == old(memory.word)[p := old(local)]
    {
      var a := ObjectWithin(layout, arenas, p);
      NotAligned(p, a);
      PushLocal(p);
    }

    /** compare_exchange_weak of the shared head against the link of `p`; it may fail without reason. */
    method CompareExchange(p: nat, spurious: bool) returns (done: bool)
      modifies this`global, memory
      ensures done == (!spurious && old(global) == old(Read(memory.word, p)))
      ensures global == if done then p else old(global)
      ensures memory.word == if done then old(memory.word) else old(memory.word)[p := old(global)]
    {
      done := !spurious && global == Read(memory.word, p);
      if done {
        global := p;
      } else {
        memory.word := memory.word[p := global];
      }
    }

    /**
      The loop with which another thread gives `p` back, while no third thread
      comes between: however often the exchange fails, the object ends up on top.
    */
    method ReleaseForeign(p: nat, failures: nat)
      requires Valid() && HeldBy(p)
      modifies this`global, this`returned, memory
      ensures Valid() && global == p && returned == [p] + old(returned)
      ensures memory.word == old(memory.word)[p := old(global)]
    {
      var a := ObjectWithin(layout, arenas, p);
      HeadersApart(a, p);
      Frame(memory.word, local, free, p, global);
      Push(memory.word, global, returned, p);
      DistinctInsert(free, p, returned);
      memory.word := memory.word[p := global];
      var left, done := failures, false;
      while !done
        invariant memory.word == old(memory.word)[p := old(global)] && returned == old(returned)
        invariant global == if done then p else old(global)
        decreases !done, left
      {
        done := CompareExchange(p, left > 0);
        left := if left > 0 then left - 1 else 0;
      }
      returned := [p] + returned;
    }

    /** No header word is an object. */
    lemma HeadersApart(a: nat, p: nat)
      requires Valid() && a in arenas && Within(p, a)
      ensures p != 0 && p !in arenas
    {
    }

    /** One object goes back: to the local list if its own thread brings it, else to the shared stack. */
    method GiveBack(me: nat, p: nat, failures: nat) returns (ghost arena: nat)
      requires Valid() && HeldBy(p)
      modifies this, memory
      ensures Valid() && arenas == old(arenas)
      ensures free == (if me == self then [p] else []) + old(free)
      ensures returned == (if me == self then [] else [p]) + old(returned)
      ensures arena in arenas && Within(p, arena) && ChangedWithin(old(memory.word), memory.word, arena)
    {
      arena := ObjectWithin(layout, arenas, p);
      ghost var m := memory.word;
      if me == self {
        ReleaseLocal(p);
      } else {
        ReleaseForeign(p, failures);
      }
      ChangedMore(m, m, arena, p, Read(memory.word, p));
    }

    /** Writes to an arena of another allocator leave this one as it was. */
    lemma Unaffected(m: Memory, m': Memory, arena: nat)
      requires ValidIn(m) && Aligned(arena) && arena !in arenas && ChangedWithin(m, m', arena)
      ensures ValidIn(m')
    {
      Members(free, returned);
      ElsewhereIntact(layout, arenas, arena, m, m', local, free);
      ElsewhereIntact(layout, arenas, arena, m, m', global, returned);
    }
  }

  // ----- Many allocators

  /** All allocators by address; they share the memory but no arena. */
  ghost predicate Family(all: map<nat, ArenaAllocator>, memory: Store)
    reads all.Values, memory
  {
    && (forall k :: k in all ==> all[k].self == k && all[k].memory == memory && all[k].Valid())
    && (forall j, k :: j in all && k in all && j != k ==> all[j].arenas !! all[k].arenas)
  }

  /**
    release with the lookup it is meant to do: the owner is found in the header of
    the arena.  The thread of allocator `me` gives back an object that `owner`
    handed out; it ends up on the local list or the shared stack of its owner, and
    every allocator stays as it should be.
  */
  method ReleaseByHeader(all: map<nat, ArenaAllocator>, memory: Store, me: nat, p: nat, failures: nat,
                         ghost owner: nat)
    requires Family(all, memory) && me in all && owner in all && all[owner].HeldBy(p)
    modifies all[owner], memory
    ensures Family(all, memory)
    ensures all[owner].free == (if owner == me then [p] else []) + old(all[owner].free)
    ensures all[owner].returned == (if owner == me then [] else [p]) + old(all[owner].returned)
    ensures all[owner].arenas == old(all[owner].arenas)
  {
    ghost var m := memory.word;
    all[owner].HeaderNamesOwner(p);
    var named := Read(memory.word, HeaderOf(p));
    ghost var arena := all[named].GiveBack(me, p, failures);
    forall k | k in all && k != owner
      ensures all[k].Valid()
    {
      all[k].Unaffected(m, memory.word, arena);
    }
  }
}
