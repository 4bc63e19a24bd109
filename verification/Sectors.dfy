/** Dividing an address space into equal sectors.  The start of a sector is defined by counting
    rather than by division, which keeps the proofs that use it linear. */
module Sectors {

  /** Where the sector of an address begins. */
  function BaseOf(addr: nat, sector: nat): (base: nat)
    requires sector > 0
    ensures base <= addr < base + sector
  {
    if addr < sector then 0 else sector + BaseOf(addr - sector, sector)
  }

  predicate Aligned(b: nat, sector: nat)
    requires sector > 0
  {
    BaseOf(b, sector) == b
  }

  /** That is rounding down to a multiple. */
  lemma {:induction false} BaseIs(addr: nat, sector: nat) returns (k: nat)
    requires sector > 0
    ensures BaseOf(addr, sector) == k * sector <= addr < k * sector + sector
    decreases addr
  {
    k := 0;
    if addr >= sector {
      k := BaseIs(addr - sector, sector);
      assert (k + 1) * sector == k * sector + sector;
      k := k + 1;
    }
  }

  lemma {:induction false} AlignedIsBase(a: nat, b: nat, sector: nat)
    requires sector > 0 && Aligned(b, sector) && b <= a < b + sector
    ensures BaseOf(a, sector) == b
    decreases a
  {
    if b > 0 { AlignedIsBase(a - sector, b - sector, sector); }
  }

  lemma AlignedNext(b: nat, sector: nat)
    requires sector > 0 && Aligned(b, sector)
    ensures Aligned(b + sector, sector)
  {
  }

  lemma {:induction false} BaseAligned(a: nat, sector: nat)
    requires sector > 0
    ensures Aligned(BaseOf(a, sector), sector)
    decreases a
  {
    if a >= sector { BaseAligned(a - sector, sector); }
  }

  /** Different sectors do not overlap. */
  lemma {:induction false} SectorsApart(b: nat, e: nat, sector: nat)
    requires sector > 0 && Aligned(b, sector) && Aligned(e, sector) && b < e
    ensures b + sector <= e
    decreases b
  {
    if b > 0 { SectorsApart(b - sector, e - sector, sector); }
  }

  /** The sector of an address of the array lies in the array. */
  lemma BaseInside(addr: nat, sector: nat, size: nat)
    requires sector > 0 && Aligned(size, sector) && addr < size
    ensures BaseOf(addr, sector) + sector <= size
  {
    BaseAligned(addr, sector);
    SectorsApart(BaseOf(addr, sector), size, sector);
  }

  lemma BaseNotBefore(a: nat, b: nat, sector: nat)
    requires sector > 0 && Aligned(b, sector) && b <= a
    ensures b <= BaseOf(a, sector)
  {
    BaseAligned(a, sector);
    if BaseOf(a, sector) < b { SectorsApart(BaseOf(a, sector), b, sector); }
  }

  /** The length of n sectors. */
  function Span(n: nat, sector: nat): nat {
    if n == 0 then 0 else sector + Span(n - 1, sector)
  }

  lemma {:induction false} SpanIs(n: nat, sector: nat)
    ensures Span(n, sector) == n * sector
    decreases n
  {
    if n > 0 {
      SpanIs(n - 1, sector);
      assert n * sector == (n - 1) * sector + sector;
    }
  }

  lemma {:induction false} SpanAligned(n: nat, sector: nat)
    requires sector > 0
    ensures Aligned(Span(n, sector), sector)
    decreases n
  {
    if n > 0 { SpanAligned(n - 1, sector); }
  }

  lemma MultipleAligned(n: nat, sector: nat)
    requires sector > 0
    ensures Aligned(n * sector, sector)
  {
    SpanIs(n, sector);
    SpanAligned(n, sector);
  }
}
