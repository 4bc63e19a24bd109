/** What writing to a sector-erased flash is meant to do: a specification on byte arrays that
    knows nothing of commands, pages or frames. */
module FlashSpec {
  import opened Bytes
  import opened NorFlash
  import opened Sectors
  import opened Words

  // ---------------------------------------------------------------- comparison

  /** memcmp of n bytes of a from i on with n bytes of b from j on, reduced to its sign. */
  function Memcmp(a: seq<byte>, i: nat, b: seq<byte>, j: nat, n: nat): int
    requires i + n <= |a| && j + n <= |b|
    decreases n
  {
    if n == 0 then 0
    else if a[i] < b[j] then -1
    else if a[i] > b[j] then 1
    else Memcmp(a, i + 1, b, j + 1, n - 1)
  }

  /** It is zero just when the bytes are the same. */
  lemma {:induction false} MemcmpZero(a: seq<byte>, i: nat, b: seq<byte>, j: nat, n: nat)
    requires i + n <= |a| && j + n <= |b|
    ensures Memcmp(a, i, b, j, n) == 0 <==> forall k :: i <= k < i + n ==> a[k] == b[k - i + j]
    decreases n
  {
    if n > 0 { MemcmpZero(a, i + 1, b, j + 1, n - 1); }
  }

  /** Comparing in pieces is comparing the whole. */
  lemma {:induction false} MemcmpSplit(a: seq<byte>, i: nat, b: seq<byte>, j: nat, n: nat, m: nat)
    requires i + n + m <= |a| && j + n + m <= |b|
    ensures Memcmp(a, i, b, j, n + m) ==
      if Memcmp(a, i, b, j, n) != 0 then Memcmp(a, i, b, j, n) else Memcmp(a, i + n, b, j + n, m)
    decreases n
  {
    if n > 0 && a[i] == b[j] { MemcmpSplit(a, i + 1, b, j + 1, n - 1, m); }
  }

  /** Only the bytes compared matter. */
  lemma {:induction false} MemcmpSame(a: seq<byte>, i: nat, b: seq<byte>, j: nat, c: seq<byte>, h: nat, n: nat)
    requires i + n <= |a| && j + n <= |b| && h + n <= |c|
    requires forall k :: j <= k < j + n ==> b[k] == c[k - j + h]
    ensures Memcmp(a, i, b, j, n) == Memcmp(a, i, c, h, n)
    decreases n
  {
    if n > 0 { MemcmpSame(a, i + 1, b, j + 1, c, h + 1, n - 1); }
  }

  // ---------------------------------------------------------------- what a write should leave

  /** The part of the write that falls in the sector at b, and where it ends. */
  function From(b: nat, offset: nat): nat {
    if b < offset then offset else b
  }

  function To(b: nat, sector: nat, offset: nat, src: seq<byte>): nat {
    Min(b + sector, offset + |src|)
  }

  /** Some byte to be written to the sector at b differs from what is there. */
  predicate Differs(mem: seq<byte>, sector: nat, offset: nat, src: seq<byte>, b: nat)
    requires b + sector <= |mem|
  {
    exists i :: From(b, offset) <= i < To(b, sector, offset, src) && mem[i] != src[i - offset]
  }

  /** What should be at address a, which lies in the sector at b, after src was written at
      offset: the source byte where there is one; elsewhere 0xFF if the sector had to be
      rewritten, and the old byte otherwise. */
  function Expected(mem: seq<byte>, sector: nat, offset: nat, src: seq<byte>, a: nat, b: nat): byte
    requires b <= a < b + sector <= |mem|
  {
    if offset <= a < offset + |src| then src[a - offset]
    else if Differs(mem, sector, offset, src, b) then 0xFF else mem[a]
  }

  /** What should be at address a once the sectors below `bound` have been dealt with. */
  function Target(was: seq<byte>, sector: nat, offset: nat, src: seq<byte>, bound: nat, a: nat): byte
    requires sector > 0 && Aligned(|was|, sector) && a < |was|
  {
    BaseInside(a, sector, |was|);
    if a < bound then Expected(was, sector, offset, src, a, BaseOf(a, sector)) else was[a]
  }

  /** mem is what writing src at offset has made of `was`, as far as `bound`. */
  predicate WrittenBelow(was: seq<byte>, sector: nat, offset: nat, src: seq<byte>, bound: nat, mem: seq<byte>)
    requires sector > 0 && Aligned(|was|, sector)
  {
    |mem| == |was| && forall a :: 0 <= a < |was| ==> mem[a] == Target(was, sector, offset, src, bound, a)
  }

  /** mem is what writing src at offset should make of `was`. */
  predicate Written(was: seq<byte>, sector: nat, offset: nat, src: seq<byte>, mem: seq<byte>)
    requires sector > 0 && Aligned(|was|, sector)
  {
    WrittenBelow(was, sector, offset, src, |was|, mem)
  }

  // ---------------------------------------------------------------- writing sector by sector

  /** One sector's share of the write: it is left alone if it already matches, and otherwise
      erased and rewritten; the other sectors stay. */
  predicate SectorWritten(mem: seq<byte>, sector: nat, offset: nat, src: seq<byte>, b: nat, mem1: seq<byte>)
    requires b + sector <= |mem|
  {
    && |mem1| == |mem|
    && forall a :: 0 <= a < |mem| ==>
      mem1[a] == if b <= a < b + sector then Expected(mem, sector, offset, src, a, b) else mem[a]
  }

  /** Only the sector's own bytes decide what is expected of it. */
  lemma ExpectedLocal(mem: seq<byte>, was: seq<byte>, sector: nat, offset: nat, src: seq<byte>, a: nat, b: nat)
    requires b <= a < b + sector <= |mem| == |was|
    requires forall i :: b <= i < b + sector ==> mem[i] == was[i]
    ensures Expected(mem, sector, offset, src, a, b) == Expected(was, sector, offset, src, a, b)
  {
  }

  /** A sector that holds none of the bytes to be written is to stay as it is. */
  lemma ExpectedIdle(was: seq<byte>, sector: nat, offset: nat, src: seq<byte>, a: nat, b: nat)
    requires b <= a < b + sector <= |was| && From(b, offset) >= To(b, sector, offset, src)
    ensures Expected(was, sector, offset, src, a, b) == was[a]
  {
  }

  lemma StartWritten(was: seq<byte>, sector: nat, offset: nat, src: seq<byte>)
    requires sector > 0 && Aligned(|was|, sector)
    ensures WrittenBelow(was, sector, offset, src, 0, was)
  {
  }

  lemma SectorTarget(was: seq<byte>, b: nat, sector: nat, offset: nat, src: seq<byte>, a: nat)
    requires sector > 0 && Aligned(|was|, sector) && Aligned(b, sector) && b + sector <= |was| && a < |was|
    ensures Target(was, sector, offset, src, b + sector, a) ==
      if b <= a < b + sector then Expected(was, sector, offset, src, a, b)
      else Target(was, sector, offset, src, b, a)
  {
    if b <= a < b + sector { AlignedIsBase(a, b, sector); }
  }

  /** Dealing with one more sector. */
  lemma SectorDone(was: seq<byte>, mem: seq<byte>, b: nat, sector: nat, offset: nat, src: seq<byte>, mem1: seq<byte>)
    requires sector > 0 && Aligned(|was|, sector) && Aligned(b, sector) && b + sector <= |was|
    requires WrittenBelow(was, sector, offset, src, b, mem)
    requires SectorWritten(mem, sector, offset, src, b, mem1)
    ensures WrittenBelow(was, sector, offset, src, b + sector, mem1)
  {
    forall a | 0 <= a < |was| ensures mem1[a] == Target(was, sector, offset, src, b + sector, a) {
      SectorTarget(was, b, sector, offset, src, a);
      assert mem[a] == Target(was, sector, offset, src, b, a);
      if b <= a < b + sector { ExpectedLocal(mem, was, sector, offset, src, a, b); }
    }
  }

  /** Passing over one that holds nothing to be written. */
  lemma SectorIdle(was: seq<byte>, mem: seq<byte>, b: nat, sector: nat, offset: nat, src: seq<byte>)
    requires sector > 0 && Aligned(|was|, sector) && Aligned(b, sector) && b + sector <= |was|
    requires WrittenBelow(was, sector, offset, src, b, mem)
    requires From(b, offset) >= To(b, sector, offset, src)
    ensures WrittenBelow(was, sector, offset, src, b + sector, mem)
  {
    forall a | 0 <= a < |was| ensures mem[a] == Target(was, sector, offset, src, b + sector, a) {
      SectorTarget(was, b, sector, offset, src, a);
      assert mem[a] == Target(was, sector, offset, src, b, a);
      if b <= a < b + sector { ExpectedIdle(was, sector, offset, src, a, b); }
    }
  }

  /** Once the last byte is written, so is everything. */
  lemma RestIdle(was: seq<byte>, mem: seq<byte>, b: nat, sector: nat, offset: nat, src: seq<byte>)
    requires sector > 0 && Aligned(|was|, sector) && Aligned(b, sector)
    requires WrittenBelow(was, sector, offset, src, b, mem) && offset + |src| <= b
    ensures Written(was, sector, offset, src, mem)
  {
    forall a | 0 <= a < |was| ensures mem[a] == Target(was, sector, offset, src, |was|, a) {
      assert mem[a] == Target(was, sector, offset, src, b, a);
      if b <= a { IdleTarget(was, b, sector, offset, src, a); }
    }
  }

  lemma IdleTarget(was: seq<byte>, b: nat, sector: nat, offset: nat, src: seq<byte>, a: nat)
    requires sector > 0 && Aligned(|was|, sector) && Aligned(b, sector)
    requires offset + |src| <= b <= a < |was|
    ensures Target(was, sector, offset, src, |was|, a) == was[a]
  {
    BaseInside(a, sector, |was|);
    BaseNotBefore(a, b, sector);
    ExpectedIdle(was, sector, offset, src, a, BaseOf(a, sector));
  }

  /** A completed write that lies inside the array is all there. */
  lemma WrittenStores(was: seq<byte>, sector: nat, offset: nat, src: seq<byte>, mem: seq<byte>)
    requires sector > 0 && Aligned(|was|, sector)
    requires Written(was, sector, offset, src, mem) && offset + |src| <= |was|
    ensures Part(mem, offset, |src|) == src
  {
    forall i | offset <= i < offset + |src| ensures mem[i] == src[i - offset] {
      assert mem[i] == Target(was, sector, offset, src, |was|, i);
    }
  }

  /** A sector whose bytes already match is left as it was. */
  lemma WrittenSpares(was: seq<byte>, sector: nat, offset: nat, src: seq<byte>, mem: seq<byte>, b: nat)
    requires sector > 0 && Aligned(|was|, sector) && Written(was, sector, offset, src, mem)
    requires Aligned(b, sector) && b + sector <= |was| && !Differs(was, sector, offset, src, b)
    ensures Part(mem, b, sector) == Part(was, b, sector)
  {
    forall a | b <= a < b + sector ensures mem[a] == was[a] {
      assert mem[a] == Target(was, sector, offset, src, |was|, a);
      AlignedIsBase(a, b, sector);
      assert !(From(b, offset) <= a < To(b, sector, offset, src) && was[a] != src[a - offset]);
    }
  }

  // ---------------------------------------------------------------- the commands sent

  /** The log after the page programs that write what is left of the data, `done` bytes of which
      are written, at addr. */
  function Pages(log: seq<Op>, addr: nat, data: seq<byte>, done: nat): seq<Op>
    requires done <= |data|
    decreases |data| - done
  {
    if done == |data| then log
    else
      var n := Min(PageEnd(addr + done) - addr - done, |data| - done);
      Pages(log + [Programmed(addr + done, Part(data, done, n))], addr, data, done + n)
  }

  /** After the commands for the sector at b: none if it already matches. */
  function SectorOps(log: seq<Op>, was: seq<byte>, sector: nat, offset: nat, src: seq<byte>, b: nat): seq<Op>
    requires b + sector <= |was|
  {
    if Differs(was, sector, offset, src, b) then
      var lo, hi := From(b, offset), To(b, sector, offset, src);
      Pages(log + [Erased(b)], lo, Part(src, lo - offset, hi - lo), 0)
    else log
  }

  /** After the commands for the sectors from b on. */
  function OpsFrom(log: seq<Op>, was: seq<byte>, sector: nat, offset: nat, src: seq<byte>, b: nat): seq<Op>
    requires sector > 0
    decreases |was| - b
  {
    if b + sector > |was| then log
    else OpsFrom(SectorOps(log, was, sector, offset, src, b), was, sector, offset, src, b + sector)
  }

  /** Sectors past the last byte to be written need none. */
  lemma {:induction false} OpsIdle(log: seq<Op>, was: seq<byte>, sector: nat, offset: nat, src: seq<byte>, b: nat)
    requires sector > 0 && offset + |src| <= b
    ensures OpsFrom(log, was, sector, offset, src, b) == log
    decreases |was| - b
  {
    if b + sector <= |was| {
      OpsIdle(log, was, sector, offset, src, b + sector);
    }
  }

  /** The sector's own bytes decide which commands it needs. */
  lemma OpsLocal(log: seq<Op>, mem: seq<byte>, was: seq<byte>, sector: nat, offset: nat, src: seq<byte>, b: nat)
    requires b + sector <= |mem| == |was|
    requires forall i :: b <= i < b + sector ==> mem[i] == was[i]
    ensures SectorOps(log, mem, sector, offset, src, b) == SectorOps(log, was, sector, offset, src, b)
  {
    assert Differs(mem, sector, offset, src, b) == Differs(was, sector, offset, src, b);
  }

  /** A program of some of the data at its place, all of it inside one page. */
  predicate PageOp(op: Op, addr: nat, data: seq<byte>) {
    && op.Programmed?
    && addr <= op.addr && op.addr + |op.data| <= addr + |data|
    && (forall i :: 0 <= i < |op.data| ==> op.data[i] == data[op.addr - addr + i])
    && op.data != [] && op.addr + |op.data| <= PageEnd(op.addr)
  }

  /** A command that a write needs: an erase of a sector that differs, or a program of some of
      the source bytes at their place that stays inside one page. */
  predicate Needed(was: seq<byte>, sector: nat, offset: nat, src: seq<byte>, op: Op) {
    match op
    case Erased(b) => b + sector <= |was| && Differs(was, sector, offset, src, b)
    case Programmed(_, _) => PageOp(op, offset, src)
  }

  /** log1 is log and then commands that the write needs. */
  predicate OnlyNeeded(was: seq<byte>, sector: nat, offset: nat, src: seq<byte>, log: seq<Op>, log1: seq<Op>) {
    && |log| <= |log1| && (forall i :: 0 <= i < |log| ==> log1[i] == log[i])
    && forall i :: |log| <= i < |log1| ==> Needed(was, sector, offset, src, log1[i])
  }

  lemma NeedOneMore(was: seq<byte>, sector: nat, offset: nat, src: seq<byte>, log: seq<Op>, op: Op, log1: seq<Op>)
    requires Needed(was, sector, offset, src, op) && OnlyNeeded(was, sector, offset, src, log + [op], log1)
    ensures OnlyNeeded(was, sector, offset, src, log, log1)
  {
    forall i | 0 <= i < |log| ensures log1[i] == log[i] {
      assert log1[i] == (log + [op])[i];
    }
    assert log1[|log|] == (log + [op])[|log|];
  }

  lemma {:induction false} PagesNeeded(was: seq<byte>, sector: nat, offset: nat, src: seq<byte>, log: seq<Op>, lo: nat,
                                       data: seq<byte>, done: nat)
    requires offset <= lo && lo + |data| <= offset + |src| && done <= |data|
    requires forall i :: 0 <= i < |data| ==> data[i] == src[lo - offset + i]
    ensures OnlyNeeded(was, sector, offset, src, log, Pages(log, lo, data, done))
    decreases |data| - done
  {
    if done < |data| {
      var n := Min(PageEnd(lo + done) - lo - done, |data| - done);
      var op := Programmed(lo + done, Part(data, done, n));
      PagesNeeded(was, sector, offset, src, log + [op], lo, data, done + n);
      NeedOneMore(was, sector, offset, src, log, op, Pages(log + [op], lo, data, done + n));
    }
  }

  lemma SectorNeeds(log: seq<Op>, was: seq<byte>, sector: nat, offset: nat, src: seq<byte>, b: nat)
    requires b + sector <= |was|
    ensures OnlyNeeded(was, sector, offset, src, log, SectorOps(log, was, sector, offset, src, b))
  {
    if Differs(was, sector, offset, src, b) {
      var lo, hi := From(b, offset), To(b, sector, offset, src);
      var data, log1 := Part(src, lo - offset, hi - lo), log + [Erased(b)];
      PagesNeeded(was, sector, offset, src, log1, lo, data, 0);
      NeedOneMore(was, sector, offset, src, log, Erased(b), Pages(log1, lo, data, 0));
    }
  }

  lemma NeedsChain(was: seq<byte>, sector: nat, offset: nat, src: seq<byte>, log: seq<Op>, log1: seq<Op>, log2: seq<Op>)
    requires OnlyNeeded(was, sector, offset, src, log, log1) && OnlyNeeded(was, sector, offset, src, log1, log2)
    ensures OnlyNeeded(was, sector, offset, src, log, log2)
  {
    forall i | |log| <= i < |log2| ensures Needed(was, sector, offset, src, log2[i]) {
      if i < |log1| { assert log2[i] == log1[i]; }
    }
  }

  /** A write sends no command it does not need. */
  lemma {:induction false} OpsAreNeeded(log: seq<Op>, was: seq<byte>, sector: nat, offset: nat, src: seq<byte>, b: nat)
    requires sector > 0
    ensures OnlyNeeded(was, sector, offset, src, log, OpsFrom(log, was, sector, offset, src, b))
    decreases |was| - b
  {
    if b + sector <= |was| {
      var log1 := SectorOps(log, was, sector, offset, src, b);
      SectorNeeds(log, was, sector, offset, src, b);
      OpsAreNeeded(log1, was, sector, offset, src, b + sector);
      NeedsChain(was, sector, offset, src, log, log1, OpsFrom(log1, was, sector, offset, src, b + sector));
    }
  }
}
