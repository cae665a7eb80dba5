/** Rounding up to an alignment, and where the objects of one arena lie. */
module Arena {
  import opened Common

  const ARENA_SIZE: nat := 1024 * 1024
  const LINK: nat := 8   // sizeof(void*)

  function Align(address: nat, alignment: nat): nat
    requires alignment > 0
  {
    (address + alignment - 1) / alignment * alignment
  }

  /** Rounding up yields the least multiple that is not smaller. */
  lemma AlignLeast(x: nat, a: nat)
    requires a > 0
    ensures Align(x, a) % a == 0 && x <= Align(x, a) < x + a
  {
    var n := x + a - 1;
    DivMod(n, a);
    MultipleMod(n / a, a);
  }

  lemma DivMod(n: nat, a: nat)
    requires a > 0
    ensures n == n / a * a + n % a && 0 <= n % a < a
  {
  }

  lemma MultipleMod(k: nat, a: nat)
    requires a > 0
    ensures k * a % a == 0 && k * a / a == k
  {
    if k > 0 {
      MultipleMod(k - 1, a);
      assert k * a == (k - 1) * a + a;
      AddWhole((k - 1) * a, a);
    }
  }

  lemma AddWhole(n: nat, a: nat)
    requires a > 0
    ensures (n + a) % a == n % a && (n + a) / a == n / a + 1
  {
    DivMod(n, a);
    Quotient(n + a, n / a + 1, n % a, a);
  }

  /** A quotient and a remainder determine one another. */
  lemma Quotient(n: nat, q: nat, r: nat, a: nat)
    requires a > 0 && n == q * a + r && r < a
    ensures n / a == q && n % a == r
  {
    DivMod(n, a);
    var p := n / a;
    if p < q {
      Times(p + 1, q, a);
    } else if p > q {
      Times(q + 1, p, a);
    }
  }

  lemma Times(p: nat, q: nat, a: nat)
    requires p <= q
    ensures p * a <= q * a
    ensures (p + 1) * a == p * a + a
  {
  }

  /** Rounding up past an aligned address adds the rounded size. */
  lemma AlignFrom(x: nat, size: nat, a: nat)
    requires a > 0 && x % a == 0
    ensures Align(x + size, a) == x + Align(size, a)
  {
    DivMod(x, a);
    var n := size + a - 1;
    DivMod(n, a);
    assert x + n == (x / a + n / a) * a + n % a;
    Quotient(x + n, x / a + n / a, n % a, a);
    assert (x / a + n / a) * a == x + n / a * a;
  }

  lemma AlignedSum(x: nat, k: nat, step: nat, a: nat)
    requires a > 0 && x % a == 0 && step % a == 0
    ensures (x + k * step) % a == 0
  {
    DivMod(x, a);
    DivMod(step, a);
    var q := x / a + k * (step / a);
    assert k * step == k * (step / a) * a;
    assert x + k * step == q * a;
    MultipleMod(q, a);
  }

  // ----- The objects of an arena

  datatype Layout = Layout(size: nat, alignment: nat)

  /** What the template asserts, and what rounding needs. */
  predicate Sensible(l: Layout) {
    l.size >= LINK && l.alignment > 0
  }

  function Stride(l: Layout): (s: nat)
    requires Sensible(l)
    ensures s >= l.size
  {
    AlignLeast(l.size, l.alignment);
    Align(l.size, l.alignment)
  }

  function First(l: Layout, arena: nat): nat
    requires Sensible(l)
  {
    Align(arena + LINK, l.alignment)
  }

  /** Carving stops at the first object that does not end before this point plus its size. */
  function Limit(l: Layout, arena: nat): int {
    arena + ARENA_SIZE - l.size
  }

  function Node(l: Layout, arena: nat, i: nat): nat
    requires Sensible(l)
  {
    First(l, arena) + i * Stride(l)
  }

  /** How many objects an arena yields: the room over the stride, rounded up. */
  function Count(l: Layout, arena: nat): nat
    requires Sensible(l)
  {
    var room := Limit(l, arena) - First(l, arena);
    if room <= 0 then 0 else (room + Stride(l) - 1) / Stride(l)
  }

  lemma CeilDiv(i: nat, x: nat, y: nat)
    requires y > 0
    ensures i < (x + y - 1) / y <==> i * y < x
  {
    var q := (x + y - 1) / y;
    DivMod(x + y - 1, y);
    Times(q, q, y);
    if i < q {
      Times(i + 1, q, y);
      Times(i, i, y);
    } else {
      Times(q, i, y);
    }
  }

  lemma CountExact(l: Layout, arena: nat, i: nat)
    requires Sensible(l)
    ensures i < Count(l, arena) <==> Node(l, arena, i) < Limit(l, arena)
  {
    var room := Limit(l, arena) - First(l, arena);
    if room > 0 {
      CeilDiv(i, room, Stride(l));
    } else {
      Times(0, i, Stride(l));
    }
  }

  lemma NextNode(l: Layout, arena: nat, i: nat)
    requires Sensible(l)
    ensures Node(l, arena, i) % l.alignment == 0
    ensures Align(Node(l, arena, i) + l.size, l.alignment) == Node(l, arena, i + 1) == Node(l, arena, i) + Stride(l)
  {
    AlignLeast(arena + LINK, l.alignment);
    AlignLeast(l.size, l.alignment);
    AlignedSum(First(l, arena), i, Stride(l), l.alignment);
    AlignFrom(Node(l, arena, i), l.size, l.alignment);
    Times(i, i, Stride(l));
  }

  /**
    Where the objects of an arena are: aligned, clear of the header word, inside
    the arena, and each clear of all later ones.
  */
  lemma Placement(l: Layout, arena: nat, i: nat, j: nat)
    requires Sensible(l) && i < j && i < Count(l, arena)
    ensures Node(l, arena, i) % l.alignment == 0
    ensures arena + LINK <= Node(l, arena, i) && Node(l, arena, i) + l.size < arena + ARENA_SIZE
    ensures Node(l, arena, i) + l.size <= Node(l, arena, j)
  {
    AlignLeast(arena + LINK, l.alignment);
    NextNode(l, arena, i);
    CountExact(l, arena, i);
    Times(i + 1, j, Stride(l));
    Times(i, i, Stride(l));
    Times(0, i, Stride(l));
  }

  /** The objects of an arena in address order. */
  function Objects(l: Layout, arena: nat): (s: seq<nat>)
    requires Sensible(l)
    ensures |s| == Count(l, arena)
  {
    seq(Count(l, arena), i requires 0 <= i < Count(l, arena) => Node(l, arena, i))
  }

  /** Past the header word of the arena and before its end. */
  predicate Within(p: nat, arena: nat) {
    arena + LINK <= p < arena + ARENA_SIZE
  }

  predicate Aligned(arena: nat) {
    arena % ARENA_SIZE == 0
  }

  /**
    For every size from a pointer up and every positive alignment: the objects of
    an arena are aligned, clear of the header, inside the arena with all their
    bytes, and do not overlap.
  */
  lemma ObjectsPlaced(l: Layout, arena: nat)
    requires Sensible(l)
    ensures var s := Objects(l, arena);
      && Distinct(s)
      && (forall p :: p in s ==> Within(p, arena) && p + l.size < arena + ARENA_SIZE && p % l.alignment == 0)
      && (forall i, j :: 0 <= i < j < |s| ==> s[i] + l.size <= s[j])
  {
    var s := Objects(l, arena);
    forall i | 0 <= i < |s|
      ensures Within(s[i], arena) && s[i] + l.size < arena + ARENA_SIZE && s[i] % l.alignment == 0
    {
      Placement(l, arena, i, i + 1);
    }
    forall i, j | 0 <= i < j < |s|
      ensures s[i] + l.size <= s[j]
    {
      Placement(l, arena, i, j);
    }
  }

  /** An arena yields nothing exactly if the first object would not end before the end of the arena. */
  lemma NoObjectsIff(l: Layout, arena: nat)
    requires Sensible(l)
    ensures Objects(l, arena) == [] <==> arena + 1024 * 1024 - l.size <= Align(arena + 8, l.alignment)
  {
    CountExact(l, arena, 0);
  }

  /** One object that would just fill what the header leaves is already too large. */
  lemma TooLargeByNothing(arena: nat)
    ensures Objects(Layout(1024 * 1024 - 8, 1), arena) == []
  {
    NoObjectsIff(Layout(ARENA_SIZE - LINK, 1), arena);
  }

  predicate Follows(l: Layout, pos: seq<nat>, i: nat)
    requires Sensible(l) && i + 1 < |pos|
  {
    Align(pos[i] + l.size, l.alignment) == pos[i + 1]
  }

  /** The values that `begin` takes: every object, then the first address past the limit. */
  lemma Positions(l: Layout, arena: nat) returns (pos: seq<nat>)
    requires Sensible(l)
    ensures |pos| == Count(l, arena) + 1 && pos[..Count(l, arena)] == Objects(l, arena)
    ensures pos[0] == Align(arena + 8, l.alignment)
    ensures forall i :: 0 <= i < |pos| ==> (i < |pos| - 1 <==> pos[i] < arena + 1024 * 1024 - l.size)
    ensures forall i :: 0 <= i < |pos| - 1 ==> Follows(l, pos, i)
  {
    pos := seq(Count(l, arena) + 1, i requires 0 <= i => Node(l, arena, i));
    forall i | 0 <= i < |pos|
      ensures i < |pos| - 1 <==> pos[i] < arena + ARENA_SIZE - l.size
    {
      CountExact(l, arena, i);
    }
    forall i | 0 <= i < |pos| - 1
      ensures Follows(l, pos, i)
    {
      NextNode(l, arena, i);
    }
  }

  lemma ArenasApart(a: nat, b: nat)
    requires Aligned(a) && Aligned(b) && a != b
    ensures a + ARENA_SIZE <= b || b + ARENA_SIZE <= a
  {
  }

  lemma NotAligned(p: nat, arena: nat)
    requires Aligned(arena) && Within(p, arena)
    ensures !Aligned(p)
  {
    if Aligned(p) {
      ArenasApart(p, arena);
    }
  }

  /** The header's address, from that of any object: round down to the arena size. */
  function HeaderOf(p: nat): nat {
    p / ARENA_SIZE * ARENA_SIZE
  }

  lemma HeaderFound(p: nat, arena: nat)
    requires Aligned(arena) && Within(p, arena)
    ensures HeaderOf(p) == arena
  {
  }
}
