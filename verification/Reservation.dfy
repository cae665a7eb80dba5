/** Reserving more than asked for, aligning, and trimming both ends. */
module Reservation {
  import Arena

  const PAGE: nat := 4096

  /** The addresses from `low` up to but not including `high`. */
  function Range(low: nat, high: nat): (r: set<nat>)
    ensures forall a :: a in r <==> low <= a < high
    decreases high - low
  {
    if low >= high then {} else {low} + Range(low + 1, high)
  }

  /** The address as AlignedAllocator_win32 computes it. */
  function ByQuotient(base: nat, alignment: nat): nat
    requires alignment > 0
  {
    base / alignment * alignment + alignment
  }

  /** The address as AlignedAllocator_unix computes it. */
  function ByRemainder(base: nat, alignment: nat): nat
    requires alignment > 0
  {
    base % alignment * alignment + alignment
  }

  /** The block after the address fits the over-reservation. */
  predicate Inside(base: nat, aligned: nat, alignment: nat) {
    base < aligned <= base + alignment
  }

  lemma QuotientInside(base: nat, alignment: nat)
    requires alignment > 0
    ensures ByQuotient(base, alignment) % alignment == 0
    ensures Inside(base, ByQuotient(base, alignment), alignment)
  {
    Arena.DivMod(base, alignment);
    Arena.Times(base / alignment, base / alignment, alignment);
    Arena.MultipleMod(base / alignment + 1, alignment);
  }

  /** The remainder formula stays inside the reservation exactly when remainder and quotient coincide. */
  lemma RemainderInsideIff(base: nat, alignment: nat)
    requires alignment > 0
    ensures Inside(base, ByRemainder(base, alignment), alignment) <==> base % alignment == base / alignment
  {
    var q, r := base / alignment, base % alignment;
    Arena.DivMod(base, alignment);
    Arena.Times(q, q, alignment);
    if r < q {
      Arena.Times(r + 1, q, alignment);
      Arena.Times(r, r, alignment);
    } else if r > q {
      Arena.Times(q + 1, r, alignment);
    }
  }

  lemma QuotientAtLeast(base: nat, alignment: nat)
    requires alignment > 0 && base >= alignment * alignment
    ensures base / alignment >= alignment
  {
    var q := base / alignment;
    Arena.DivMod(base, alignment);
    if q < alignment {
      Arena.Times(q + 1, alignment, alignment);
      Arena.Times(q, q, alignment);
    }
  }

  /** From the square of the alignment on, it always misses: 2^40 for one-megabyte arenas. */
  lemma RemainderMissesHighAddresses(base: nat, alignment: nat)
    requires alignment > 0 && base >= alignment * alignment
    ensures !Inside(base, ByRemainder(base, alignment), alignment)
  {
    RemainderInsideIff(base, alignment);
    QuotientAtLeast(base, alignment);
  }

  lemma PageMultiples(a: nat, b: nat)
    requires a % PAGE == 0 && b % PAGE == 0
    ensures (a + b) % PAGE == 0 && (a >= b ==> (a - b) % PAGE == 0)
  {
  }

  lemma AlignedPage(x: nat, alignment: nat)
    requires alignment > 0 && x % alignment == 0 && alignment % PAGE == 0
    ensures x % PAGE == 0
  {
    Arena.DivMod(x, alignment);
    Arena.AlignedSum(0, x / alignment, alignment, PAGE);
  }

  /** The pages of the process. */
  class AddressSpace {
    ghost var mapped: set<nat>

    /** mmap: where the pages go is the kernel's choice, but they were free. */
    method Map(size: nat, base: nat) returns (p: nat)
      requires size > 0 && base % PAGE == 0 && Range(base, base + size) !! mapped
      modifies this
      ensures p == base && mapped == old(mapped) + Range(base, base + size)
    {
      mapped := mapped + Range(base, base + size);
      p := base;
    }

    /** munmap: fails for an unaligned address or an empty length. */
    method Unmap(p: nat, size: nat)
      requires size > 0 && size % PAGE == 0 && p % PAGE == 0
      modifies this
      ensures mapped == old(mapped) - Range(p, p + size)
    {
      mapped := mapped - Range(p, p + size);
    }
  }

  class AlignedAllocator {
    const alignment: nat
    const space: AddressSpace

    constructor (align: nat, space: AddressSpace)
      requires align % PAGE == 0 && align > 0
      ensures alignment == align && this.space == space
    {
      alignment, this.space := align, space;
    }

    /**
      Reserve, align by the quotient, trim the head and, unless the reservation
      was aligned already, the tail.  Exactly the block remains.
    */
    method Reserve(size: nat, base: nat) returns (aligned: nat)
      requires alignment % PAGE == 0 && alignment > 0
      requires size % PAGE == 0 && size > 0
      requires base % PAGE == 0 && Range(base, base + (size + alignment)) !! space.mapped
      modifies space
      ensures aligned % alignment == 0 && base < aligned <= base + alignment
      ensures space.mapped == old(space.mapped) + Range(aligned, aligned + size)
    {
      var pointer := space.Map(size + alignment, base);
      aligned := ByQuotient(pointer, alignment);
      QuotientInside(base, alignment);
      AlignedPage(aligned, alignment);
      PageMultiples(aligned, base);
      space.Unmap(pointer, aligned - pointer);
      if aligned - pointer < alignment {
        PageMultiples(alignment, aligned - pointer);
        PageMultiples(aligned, size);
        space.Unmap(aligned + size, alignment - (aligned - pointer));
      }
    }
  }
}
