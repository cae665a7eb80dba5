/**
  The free lists of one allocator under concurrency: its owner takes objects from
  a private list and refills it with everything on a shared stack at once; any
  number of other threads push onto that stack by compare-and-swap.
*/
module ReturnStack {
  import opened Common
  import opened FreeList

  type Tid = nat

  datatype PC = Idle | Trying(node: nat)   // the node's link holds the expected head

  datatype State = State(
    mem: Memory,
    local: nat,
    global: nat,
    carved: set<nat>,   // every object ever cut from an arena
    held: set<nat>,     // objects in the hands of callers
    pc: seq<PC>)

  datatype Label =
    | Pop                           // allocate: the first local object
    | TakeAll                       // allocate: exchange the shared stack for null
    | Carve(nodes: seq<nat>)        // allocate: append a new arena
    | ReleaseLocal(p: nat)          // release by the owner
    | Load(t: Tid, p: nat)          // release by another thread: read the head into the link
    | Swap(t: Tid)                  // ... the exchange succeeds
    | Fail(t: Tid)                  // ... it fails, perhaps spuriously, and reloads the head
    | Scribble(p: nat, v: nat)      // a caller writes to an object it holds

  predicate Enabled(s: State, l: Label) {
    match l
    case Pop => s.local != 0
    case TakeAll => s.local == 0
    case Carve(nodes) =>
      s.local == 0 && Distinct(nodes) && 0 !in nodes && forall n :: n in nodes ==> n !in s.carved
    case ReleaseLocal(p) => p in s.held
    case Load(t, p) => t < |s.pc| && s.pc[t].Idle? && p in s.held
    case Swap(t) => t < |s.pc| && s.pc[t].Trying? && s.global == Read(s.mem, s.pc[t].node)
    case Fail(t) => t < |s.pc| && s.pc[t].Trying?
    case Scribble(p, _) => p in s.held
  }

  function Apply(s: State, l: Label): State
    requires Enabled(s, l)
  {
    match l
    case Pop => s.(local := Read(s.mem, s.local), held := s.held + {s.local})
    case TakeAll => s.(local := s.global, global := 0)
    case Carve(nodes) =>
      var (m, head) := PushAll(s.mem, s.local, nodes);
      s.(mem := m, local := head, carved := s.carved + (set n | n in nodes))
    case ReleaseLocal(p) => s.(mem := s.mem[p := s.local], local := p, held := s.held - {p})
    case Load(t, p) => s.(mem := s.mem[p := s.global], held := s.held - {p}, pc := s.pc[t := Trying(p)])
    case Swap(t) => s.(global := s.pc[t].node, pc := s.pc[t := Idle])
    case Fail(t) => s.(mem := s.mem[s.pc[t].node := s.global])
    case Scribble(p, v) => s.(mem := s.mem[p := v])
  }

  function Start(n: nat): State {
    State(map[], 0, 0, {}, {}, seq(n, _ => Idle))
  }

  predicate Legal(s: State, ls: seq<Label>)
    decreases |ls|
  {
    ls == [] || (Enabled(s, ls[0]) && Legal(Apply(s, ls[0]), ls[1..]))
  }

  function Exec(s: State, ls: seq<Label>): State
    requires Legal(s, ls)
    decreases |ls|
  {
    if ls == [] then s else Exec(Apply(s, ls[0]), ls[1..])
  }

  // ----- Conservation

  function Own(p: PC): multiset<nat> {
    if p.Trying? then multiset{p.node} else multiset{}
  }

  /** The nodes that releases under way keep to themselves. */
  function InFlight(pc: seq<PC>): multiset<nat> {
    if pc == [] then multiset{} else InFlight(pc[1..]) + Own(pc[0])
  }

  lemma Exchange(a: multiset<nat>, b: multiset<nat>, c: multiset<nat>)
    ensures a + b + c == a + c + b
  {
  }

  lemma AddBoth(a: multiset<nat>, b: multiset<nat>, m: multiset<nat>, x: multiset<nat>, y: multiset<nat>)
    requires a + x == b + y
    ensures a + m + x == b + m + y
  {
    assert a + m + x == (a + x) + m && b + m + y == (b + y) + m;
  }

  lemma Regroup(a: multiset<nat>, b: multiset<nat>, c: multiset<nat>, d: multiset<nat>)
    ensures a + b + (c + d) == a + (b + d) + c
  {
  }

  lemma InFlightFirst(pc: seq<PC>)
    requires pc != []
    ensures InFlight(pc) == InFlight(pc[1..]) + Own(pc[0])
  {
  }

  lemma {:induction false} InFlightUpdate(pc: seq<PC>, t: nat, x: PC)
    requires t < |pc|
    ensures InFlight(pc[t := x]) + Own(pc[t]) == InFlight(pc) + Own(x)
  {
    var a, b := pc, pc[t := x];
    InFlightFirst(a);
    InFlightFirst(b);
    if t == 0 {
      assert b[1..] == a[1..];
    } else {
      var rest := a[1..];
      assert b[1..] == rest[t - 1 := x] && rest[t - 1] == a[t];
      InFlightUpdate(rest, t - 1, x);
      AddBoth(InFlight(b[1..]), InFlight(rest), Own(a[0]), Own(a[t]), Own(x));
    }
  }

  lemma {:induction false} InFlightHas(pc: seq<PC>, t: nat)
    requires t < |pc| && pc[t].Trying?
    ensures pc[t].node in InFlight(pc)
  {
    InFlightFirst(pc);
    if t > 0 {
      InFlightHas(pc[1..], t - 1);
    }
  }

  /**
    Each object is at exactly one place: on the local list, on the shared stack,
    with a release under way, or with a caller.
  */
  ghost predicate Conserved(s: State, local: seq<nat>, global: seq<nat>) {
    && List(s.mem, s.local, local)
    && List(s.mem, s.global, global)
    && 0 !in s.carved
    && multiset(local) + multiset(global) + InFlight(s.pc) + multiset(s.held) == multiset(s.carved)
  }

  /** A place's nodes are at no other place. */
  lemma Apart(s: State, local: seq<nat>, global: seq<nat>, p: nat)
    requires Conserved(s, local, global)
    requires p in s.held || p in InFlight(s.pc)
    ensures p !in local && p !in global && p != 0 && p in s.carved
    ensures p in s.held ==> p !in InFlight(s.pc)
  {
    var all := multiset(local) + multiset(global) + InFlight(s.pc) + multiset(s.held);
    assert all[p] == multiset(s.carved)[p] <= 1;
    assert p in local ==> multiset(local)[p] >= 1;
    assert p in global ==> multiset(global)[p] >= 1;
  }

  lemma {:induction false} PushAllList(m: Memory, head: nat, s: seq<nat>, other: nat, o: seq<nat>, nodes: seq<nat>)
    returns (r: seq<nat>)
    requires List(m, head, s) && List(m, other, o)
    requires Distinct(nodes) && 0 !in nodes && forall n :: n in nodes ==> n !in s && n !in o
    ensures var (m', head') := PushAll(m, head, nodes);
      List(m', head', r) && List(m', other, o) && multiset(r) == multiset(s) + multiset(nodes)
    decreases |nodes|
  {
    if nodes == [] {
      r := s;
    } else {
      Push(m, head, s, nodes[0]);
      Frame(m, other, o, nodes[0], head);
      assert nodes == [nodes[0]] + nodes[1..];
      r := PushAllList(m[nodes[0] := head], nodes[0], [nodes[0]] + s, other, o, nodes[1..]);
    }
  }

  lemma {:induction false} DistinctMultiset(s: seq<nat>)
    requires Distinct(s)
    ensures multiset(s) == multiset(set n | n in s)
    decreases |s|
  {
    if s != [] {
      var rest := s[1..];
      DistinctMultiset(rest);
      assert s == [s[0]] + rest && s[0] !in rest;
      assert (set n | n in s) == {s[0]} + (set n | n in rest);
      assert multiset(set n | n in s) == multiset{s[0]} + multiset(set n | n in rest);
    }
  }

  lemma CarveStep(s: State, nodes: seq<nat>, local: seq<nat>, global: seq<nat>) returns (local': seq<nat>)
    requires Conserved(s, local, global) && Enabled(s, Carve(nodes))
    ensures Conserved(Apply(s, Carve(nodes)), local', global)
  {
    forall n | n in nodes
      ensures n !in local && n !in global
    {
      assert multiset(s.carved)[n] == 0;
    }
    local' := PushAllList(s.mem, s.local, local, s.global, global, nodes);
    DistinctMultiset(nodes);
    var added := set n | n in nodes;
    assert multiset(s.carved + added) == multiset(s.carved) + multiset(added);
  }

  lemma PopStep(s: State, local: seq<nat>, global: seq<nat>)
    requires Conserved(s, local, global) && Enabled(s, Pop)
    ensures Conserved(Apply(s, Pop), local[1..], global)
  {
    var p := s.local;
    assert local == [p] + local[1..];
    assert multiset(local) == multiset{p} + multiset(local[1..]);
    assert (multiset(local) + multiset(s.held))[p] <= multiset(s.carved)[p];
    assert p !in s.held;
    assert multiset(s.held + {p}) == multiset(s.held) + multiset{p};
  }

  lemma TakeAllStep(s: State, local: seq<nat>, global: seq<nat>)
    requires Conserved(s, local, global) && Enabled(s, TakeAll)
    ensures Conserved(Apply(s, TakeAll), global, [])
  {
  }

  lemma ReleaseLocalStep(s: State, p: nat, local: seq<nat>, global: seq<nat>)
    requires Conserved(s, local, global) && Enabled(s, ReleaseLocal(p))
    ensures Conserved(Apply(s, ReleaseLocal(p)), [p] + local, global)
  {
    Apart(s, local, global, p);
    Push(s.mem, s.local, local, p);
    Frame(s.mem, s.global, global, p, s.local);
    assert multiset(s.held) == multiset(s.held - {p}) + multiset{p};
  }

  lemma LoadStep(s: State, t: Tid, p: nat, local: seq<nat>, global: seq<nat>)
    requires Conserved(s, local, global) && Enabled(s, Load(t, p))
    ensures Conserved(Apply(s, Load(t, p)), local, global)
  {
    Apart(s, local, global, p);
    Frame(s.mem, s.local, local, p, s.global);
    Frame(s.mem, s.global, global, p, s.global);
    InFlightUpdate(s.pc, t, Trying(p));
    var pc' := s.pc[t := Trying(p)];
    assert InFlight(pc') == InFlight(s.pc) + multiset{p};
    assert multiset(s.held) == multiset(s.held - {p}) + multiset{p};
    Regroup(multiset(local) + multiset(global), InFlight(s.pc), multiset(s.held - {p}), multiset{p});
  }

  /** Whatever became of the head since it was read, it is the head now: reuse does no harm. */
  lemma SwapStep(s: State, t: Tid, local: seq<nat>, global: seq<nat>)
    requires Conserved(s, local, global) && Enabled(s, Swap(t))
    ensures Conserved(Apply(s, Swap(t)), local, [s.pc[t].node] + global)
  {
    var p := s.pc[t].node;
    InFlightHas(s.pc, t);
    InFlightUpdate(s.pc, t, Idle);
    Apart(s, local, global, p);
    assert ([p] + global)[1..] == global;
    assert multiset([p] + global) == multiset{p} + multiset(global);
    var rest := InFlight(s.pc[t := Idle]);
    assert InFlight(s.pc) == rest + multiset{p};
    assert multiset(local) + multiset([p] + global) == multiset(local) + multiset(global) + multiset{p};
    Exchange(multiset(local) + multiset(global), multiset{p}, rest);
    assert multiset(local) + multiset(global) + InFlight(s.pc)
      == multiset(local) + multiset([p] + global) + rest;
  }

  /** Writing to a node that is on neither list, in flight or in use, disturbs nothing. */
  lemma WriteStep(s: State, p: nat, v: nat, local: seq<nat>, global: seq<nat>)
    requires Conserved(s, local, global) && (p in s.held || p in InFlight(s.pc))
    ensures Conserved(s.(mem := s.mem[p := v]), local, global)
  {
    Apart(s, local, global, p);
    Frame(s.mem, s.local, local, p, v);
    Frame(s.mem, s.global, global, p, v);
  }

  lemma ConservedStep(s: State, l: Label, local: seq<nat>, global: seq<nat>)
    returns (local': seq<nat>, global': seq<nat>)
    requires Conserved(s, local, global) && Enabled(s, l)
    ensures Conserved(Apply(s, l), local', global')
  {
    local', global' := local, global;
    match l {
      case Pop =>
        PopStep(s, local, global);
        local' := local[1..];
      case TakeAll =>
        TakeAllStep(s, local, global);
        local', global' := global, [];
      case Carve(nodes) => local' := CarveStep(s, nodes, local, global);
      case ReleaseLocal(p) =>
        ReleaseLocalStep(s, p, local, global);
        local' := [p] + local;
      case Load(t, p) => LoadStep(s, t, p, local, global);
      case Swap(t) =>
        SwapStep(s, t, local, global);
        global' := [s.pc[t].node] + global;
      case Fail(t) =>
        InFlightHas(s.pc, t);
        WriteStep(s, s.pc[t].node, s.global, local, global);
      case Scribble(p, v) => WriteStep(s, p, v, local, global);
    }
  }

  lemma {:induction false} ConservedRun(s: State, ls: seq<Label>, local: seq<nat>, global: seq<nat>)
    returns (local': seq<nat>, global': seq<nat>)
    requires Conserved(s, local, global) && Legal(s, ls)
    ensures Conserved(Exec(s, ls), local', global')
    decreases |ls|
  {
    local', global' := local, global;
    if ls != [] {
      local', global' := ConservedStep(s, ls[0], local, global);
      local', global' := ConservedRun(Apply(s, ls[0]), ls[1..], local', global');
    }
  }

  lemma {:induction false} NothingInFlight(n: nat)
    ensures InFlight(Start(n).pc) == multiset{}
  {
    if n > 0 {
      assert Start(n).pc[1..] == Start(n - 1).pc;
      NothingInFlight(n - 1);
    }
  }

  lemma {:induction false} NoDuplicates(s: seq<nat>, c: set<nat>)
    requires multiset(s) <= multiset(c)
    ensures Distinct(s)
  {
    forall i, j | 0 <= i < j < |s|
      ensures s[i] != s[j]
    {
      assert s == s[..i] + [s[i]] + s[i + 1..j] + [s[j]] + s[j + 1..];
      assert multiset(s)[s[i]] <= multiset(c)[s[i]] <= 1;
    }
  }

  /**
    In every run, with any number of releasing threads, spurious failures and
    heads that leave and come back: both lists are finite and free of
    duplicates, and together with the objects in flight and in use they make up
    the carved objects, each exactly once.
  */
  lemma Conservation(n: nat, ls: seq<Label>) returns (local: seq<nat>, global: seq<nat>)
    requires Legal(Start(n), ls)
    ensures var s := Exec(Start(n), ls);
      && List(s.mem, s.local, local) && Distinct(local)
      && List(s.mem, s.global, global) && Distinct(global)
      && multiset(local) + multiset(global) + InFlight(s.pc) + multiset(s.held) == multiset(s.carved)
  {
    NothingInFlight(n);
    local, global := ConservedRun(Start(n), ls, [], []);
    var s := Exec(Start(n), ls);
    NoDuplicates(local, s.carved);
    NoDuplicates(global, s.carved);
  }
}
