/**
  The allocator object and the stack of returned objects meet: each method of the
  object is a run of steps of the concurrent model, on the words of its objects.
*/
module AllocatorRuns {
  import opened Common
  import opened FreeList
  import opened Arena
  import opened ArenaAllocatorImpl
  import R = ReturnStack

  /** The memory as far as these addresses go. */
  function Restrict(m: Memory, s: set<nat>): Memory {
    map p | p in m && p in s :: m[p]
  }

  function CarvedFrom(l: Layout, arenas: set<nat>): (s: set<nat>)
    requires Sensible(l)
    ensures forall p :: p in s <==> IsObject(l, arenas, p)
  {
    set a, p | a in arenas && p in Objects(l, a) :: p
  }

  /** The state of the concurrent model that an allocator is in, when callers hold `held`. */
  ghost function View(a: ArenaAllocator, held: set<nat>, pc: seq<R.PC>): R.State
    reads a, a.memory
    requires Sensible(a.layout)
  {
    var carved := CarvedFrom(a.layout, a.arenas);
    R.State(Restrict(a.memory.word, carved), a.local, a.global, carved, held, pc)
  }

  ghost predicate Leads(s: R.State, ls: seq<R.Label>, e: R.State) {
    R.Legal(s, ls) && R.Exec(s, ls) == e
  }

  lemma {:induction false} Extend(s0: R.State, ls: seq<R.Label>, s: R.State, l: R.Label)
    requires Leads(s0, ls, s) && R.Enabled(s, l)
    ensures Leads(s0, ls + [l], R.Apply(s, l))
    decreases |ls|
  {
    if ls == [] {
      assert [] + [l] == [l] && [l][1..] == [];
      assert R.Legal(R.Apply(s, l), []);
    } else {
      assert (ls + [l])[0] == ls[0] && (ls + [l])[1..] == ls[1..] + [l];
      Extend(R.Apply(s0, ls[0]), ls[1..], s, l);
    }
  }

  // ----- Carving, as far as the objects go

  /** Pushing nodes writes exactly their links, whatever else is in memory. */
  lemma {:induction false} PushAllWords(m: Memory, n: Memory, head: nat, nodes: seq<nat>)
    ensures PushAll(m, head, nodes).1 == PushAll(n, head, nodes).1
    ensures forall p :: p in PushAll(m, head, nodes).0 <==> p in m || p in nodes
    ensures forall p :: p in nodes ==>
      p in PushAll(n, head, nodes).0 && PushAll(m, head, nodes).0[p] == PushAll(n, head, nodes).0[p]
    ensures forall p :: p in m && p !in nodes ==> PushAll(m, head, nodes).0[p] == m[p]
    decreases |nodes|
  {
    if nodes != [] {
      var m', n', rest := m[nodes[0] := head], n[nodes[0] := head], nodes[1..];
      assert nodes == [nodes[0]] + rest;
      PushAllWords(m', n', nodes[0], rest);
      PushAllWords(n', m', nodes[0], rest);
    }
  }

  lemma RestrictPushAll(m: Memory, s: set<nat>, arena: nat, owner: nat, head: nat, nodes: seq<nat>)
    requires arena !in s && arena !in nodes && forall p :: p in nodes ==> p !in s
    ensures var pushed := PushAll(m[arena := owner], head, nodes);
      && PushAll(Restrict(m, s), head, nodes).0 == Restrict(pushed.0, s + (set p | p in nodes))
      && PushAll(Restrict(m, s), head, nodes).1 == pushed.1
  {
    var w, n := m[arena := owner], Restrict(m, s);
    PushAllWords(w, n, head, nodes);
    PushAllWords(n, w, head, nodes);
    var x, y := PushAll(n, head, nodes).0, Restrict(PushAll(w, head, nodes).0, s + (set p | p in nodes));
    forall p
      ensures p in x <==> p in y
      ensures p in x ==> x[p] == y[p]
    {
      assert p in x <==> p in n || p in nodes;
      assert p in PushAll(w, head, nodes).0 <==> p in w || p in nodes;
    }
    assert x == y;
  }

  lemma NewArena(l: Layout, arenas: set<nat>, arena: nat)
    requires Sensible(l) && Aligned(arena) && arena !in arenas && forall a :: a in arenas ==> Aligned(a)
    ensures var nodes := Objects(l, arena);
      && Distinct(nodes) && 0 !in nodes && arena !in nodes
      && (forall p :: p in nodes ==> p !in CarvedFrom(l, arenas))
      && CarvedFrom(l, arenas + {arena}) == CarvedFrom(l, arenas) + (set p | p in nodes)
      && arena !in CarvedFrom(l, arenas)
  {
    ObjectsPlaced(l, arena);
    forall p | IsObject(l, arenas, p)
      ensures p !in Objects(l, arena) && p != arena && IsObject(l, arenas + {arena}, p)
    {
      var a := ObjectWithin(l, arenas, p);
      ArenasApart(a, arena);
      assert a in arenas + {arena};
    }
    assert arena in arenas + {arena};
  }

  // ----- The methods

  /** The local list empty: take all that was returned; that empty too: carve. */
  lemma Refill(s: R.State, free: seq<nat>, returned: seq<nat>, nodes: seq<nat>)
    returns (ls: seq<R.Label>, e: R.State)
    requires List(s.mem, s.local, free) && List(s.mem, s.global, returned)
    requires Distinct(nodes) && 0 !in nodes && forall n :: n in nodes ==> n !in s.carved
    ensures Leads(s, ls, e)
    ensures ls == (if free != [] then [] else [R.TakeAll]) + (if free + returned != [] then [] else [R.Carve(nodes)])
    ensures e ==
      if free != [] then s
      else if returned != [] then s.(local := s.global, global := 0)
      else R.Apply(s.(local := 0, global := 0), R.Carve(nodes))
  {
    ls, e := [], s;
    assert Leads(s, ls, e);
    if free == [] {
      Extend(s, ls, e, R.TakeAll);
      ls, e := [] + [R.TakeAll], R.Apply(s, R.TakeAll);
      if returned == [] {
        Extend(s, ls, e, R.Carve(nodes));
        ls, e := ls + [R.Carve(nodes)], R.Apply(e, R.Carve(nodes));
      }
    }
  }

  /** What carving leaves, on the words of the objects. */
  lemma CarvedView(s: R.State, l: Layout, arenas: set<nat>, m: Memory, arena: nat, owner: nat)
    requires Sensible(l) && Aligned(arena) && arena !in arenas && forall a :: a in arenas ==> Aligned(a)
    requires s.local == 0 && s.carved == CarvedFrom(l, arenas) && s.mem == Restrict(m, s.carved)
    ensures var nodes := Objects(l, arena);
      var (m', head) := PushAll(m[arena := owner], 0, nodes);
      var carved := CarvedFrom(l, arenas + {arena});
      R.Enabled(s, R.Carve(nodes)) &&
      R.Apply(s, R.Carve(nodes)) == s.(mem := Restrict(m', carved), local := head, carved := carved)
  {
    NewArena(l, arenas, arena);
    RestrictPushAll(m, s.carved, arena, owner, 0, Objects(l, arena));
  }

  /** The words of an allocator's objects determine its lists. */
  lemma ListOfObjects(l: Layout, arenas: set<nat>, m: Memory, head: nat, s: seq<nat>)
    requires Sensible(l) && List(m, head, s) && forall p :: p in s ==> IsObject(l, arenas, p)
    ensures List(Restrict(m, CarvedFrom(l, arenas)), head, s)
  {
    ListAgrees(m, Restrict(m, CarvedFrom(l, arenas)), head, s);
  }

  /** The memory, the arenas and the local list from which the next object is popped. */
  ghost function Refilled(a: ArenaAllocator, supply: nat): (Memory, set<nat>, seq<nat>)
    reads a, a.memory
    requires Sensible(a.layout)
  {
    if a.free != [] then (a.memory.word, a.arenas, a.free)
    else if a.returned != [] then (a.memory.word, a.arenas, a.returned)
    else
      (PushAll(a.memory.word[supply := a.self], 0, Objects(a.layout, supply)).0,
       a.arenas + {supply}, Reverse(Objects(a.layout, supply)))
  }

  lemma RefillView(a: ArenaAllocator, supply: nat, held: set<nat>, pc: seq<R.PC>)
    returns (ls: seq<R.Label>, e: R.State)
    requires a.Valid() && a.Supplies(supply) && supply !in a.arenas
    ensures Leads(View(a, held, pc), ls, e)
    ensures ls == (if a.free != [] then [] else [R.TakeAll])
                  + (if a.free + a.returned != [] then [] else [R.Carve(Objects(a.layout, supply))])
    ensures var (m, arenas, all) := Refilled(a, supply);
      var carved := CarvedFrom(a.layout, arenas);
      && e == R.State(Restrict(m, carved), e.local, if a.free != [] then a.global else 0, carved, held, pc)
      && List(m, e.local, all)
  {
    var s, m, nodes := View(a, held, pc), a.memory.word, Objects(a.layout, supply);
    NewArena(a.layout, a.arenas, supply);
    ListOfObjects(a.layout, a.arenas, m, a.local, a.free);
    ListOfObjects(a.layout, a.arenas, m, a.global, a.returned);
    ls, e := Refill(s, a.free, a.returned, nodes);
    if a.free + a.returned == [] {
      CarvedView(s.(local := 0, global := 0), a.layout, a.arenas, m, supply, a.self);
      PushAllReverses(m[supply := a.self], 0, [], nodes);
      assert Reverse(nodes) + [] == Reverse(nodes);
    }
  }

  /** allocate: refill the local list if it is empty, then pop if there is anything. */
  method Allocate(a: ArenaAllocator, supply: nat, ghost held: set<nat>, ghost pc: seq<R.PC>)
    returns (p: Option<nat>, ghost ls: seq<R.Label>)
    requires a.Valid() && a.Supplies(supply) && supply !in a.arenas
    modifies a, a.memory
    ensures a.Valid()
    ensures Leads(old(View(a, held, pc)), ls, View(a, held + (if p.Some? then {p.value} else {}), pc))
    ensures ls == (if old(a.free) != [] then [] else [R.TakeAll])
                  + (if old(a.free) + old(a.returned) != [] then [] else [R.Carve(Objects(a.layout, supply))])
                  + (if p.Some? then [R.Pop] else [])
  {
    ghost var s := View(a, held, pc);
    ghost var e: R.State;
    ghost var (m, arenas, all) := Refilled(a, supply);
    ls, e := RefillView(a, supply, held, pc);
    p := a.Allocate(supply);
    AfterAllocate(a, e, m, all, p, held, pc);
    if p.Some? {
      Extend(s, ls, e, R.Pop);
      ls := ls + [R.Pop];
    }
  }

  /** From the refilled state `e`, popping the first object or finding none leads to where the allocator is. */
  lemma AfterAllocate(a: ArenaAllocator, e: R.State, m: Memory, all: seq<nat>, p: Option<nat>,
                      held: set<nat>, pc: seq<R.PC>)
    requires a.Valid() && m == a.memory.word && List(m, e.local, all)
    requires e == View(a, held, pc).(local := e.local)
    requires if all == [] then p == None && a.free == []
      else p == Some(all[0]) && a.free == all[1..] && a.HeldBy(all[0])
    ensures p.Some? ==> R.Enabled(e, R.Pop)
    ensures View(a, held + (if p.Some? then {p.value} else {}), pc) == if p.Some? then R.Apply(e, R.Pop) else e
  {
    if p.Some? {
      assert all == [p.value] + a.free;
      Popped(a, e, p.value, held, pc);
    }
  }

  /** What was popped from `e` was its first object, and the local list is what follows. */
  lemma Popped(a: ArenaAllocator, e: R.State, p: nat, held: set<nat>, pc: seq<R.PC>)
    requires a.Valid() && a.HeldBy(p)
    requires e == View(a, held, pc).(local := p) && List(a.memory.word, p, [p] + a.free)
    ensures R.Enabled(e, R.Pop) && R.Apply(e, R.Pop) == View(a, held + {p}, pc)
  {
  }

  /** release by the owner. */
  method Release(a: ArenaAllocator, p: nat, ghost held: set<nat>, ghost pc: seq<R.PC>)
    returns (foreign: Option<nat>, ghost ls: seq<R.Label>)
    requires a.Valid() && a.HeldBy(p) && p in held
    modifies a, a.memory
    ensures a.Valid()
    ensures Leads(old(View(a, held, pc)), ls, View(a, held - (if foreign.None? then {p} else {}), pc))
    ensures ls == if foreign.None? then [R.ReleaseLocal(p)] else []
  {
    ghost var s := View(a, held, pc);
    assert Leads(s, [], s);
    Extend(s, [], s, R.ReleaseLocal(p));
    ghost var arena := ObjectWithin(a.layout, a.arenas, p);
    NotAligned(p, arena);
    foreign := a.Release(p);
    ls := if foreign.None? then [] + [R.ReleaseLocal(p)] else [];
  }

  /** One attempt of a thread that is giving back `p`. */
  method CompareExchange(a: ArenaAllocator, t: R.Tid, p: nat, spurious: bool, ghost held: set<nat>, ghost pc: seq<R.PC>)
    returns (done: bool, ghost l: R.Label)
    requires Sensible(a.layout) && IsObject(a.layout, a.arenas, p) && t < |pc| && pc[t] == R.Trying(p)
    modifies a, a.memory
    ensures a.arenas == old(a.arenas) && l == if done then R.Swap(t) else R.Fail(t)
    ensures Leads(old(View(a, held, pc)), [l], View(a, held, if done then pc[t := R.Idle] else pc))
  {
    ghost var s := View(a, held, pc);
    assert Leads(s, [], s);
    done := a.CompareExchange(p, spurious);
    l := if done then R.Swap(t) else R.Fail(t);
    Extend(s, [], s, l);
    assert [] + [l] == [l];
  }

  /** Failed attempts while nobody else comes between change nothing. */
  lemma {:induction false} Failures(s0: R.State, ls: seq<R.Label>, s: R.State, t: R.Tid, n: nat)
    requires Leads(s0, ls, s) && t < |s.pc| && s.pc[t].Trying?
    requires s.pc[t].node in s.mem && s.mem[s.pc[t].node] == s.global
    ensures Leads(s0, ls + seq(n, _ => R.Fail(t)), s)
  {
    if n == 0 {
      assert ls + seq(n, _ => R.Fail(t)) == ls;
    } else {
      Failures(s0, ls, s, t, n - 1);
      var more := ls + seq(n - 1, _ => R.Fail(t));
      Extend(s0, more, s, R.Fail(t));
      assert R.Apply(s, R.Fail(t)).mem == s.mem;
      assert more + [R.Fail(t)] == ls + seq(n, _ => R.Fail(t));
    }
  }

  /** release by another thread: load, fail as often as may be, swap. */
  method ReleaseForeign(a: ArenaAllocator, t: R.Tid, p: nat, failures: nat, ghost held: set<nat>, ghost pc: seq<R.PC>)
    returns (ghost ls: seq<R.Label>)
    requires a.Valid() && a.HeldBy(p) && p in held && t < |pc| && pc[t].Idle?
    modifies a, a.memory
    ensures a.Valid()
    ensures ls == [R.Load(t, p)] + seq(failures, _ => R.Fail(t)) + [R.Swap(t)]
    ensures Leads(old(View(a, held, pc)), ls, View(a, held - {p}, pc))
  {
    ghost var s := View(a, held, pc);
    assert Leads(s, [], s);
    Extend(s, [], s, R.Load(t, p));
    ghost var e := R.Apply(s, R.Load(t, p));
    ls := [] + [R.Load(t, p)];
    Failures(s, ls, e, t, failures);
    ls := ls + seq(failures, _ => R.Fail(t));
    Extend(s, ls, e, R.Swap(t));
    ls := ls + [R.Swap(t)];
    a.ReleaseForeign(p, failures);
    assert pc[t := R.Trying(p)][t := R.Idle] == pc;
  }
}
