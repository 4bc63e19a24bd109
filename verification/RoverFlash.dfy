/** The rover's flash library (lib/flash.c): finding a block in the region table, and writing a
    buffer block by block. */
module RoverFlash {

  import opened Words

  datatype Region = Region(blocks: nat, blockSize: nat)

  function Rep(n: nat, x: nat): (s: seq<nat>)
    ensures |s| == n && forall i :: 0 <= i < n ==> s[i] == x
  {
    seq(n, i => x)
  }

  /** The sizes of all blocks of the first r regions, in order. */
  function Sizes(regions: seq<Region>, r: nat): seq<nat>
    requires r <= |regions|
  {
    if r == 0 then [] else Sizes(regions, r - 1) + Rep(regions[r - 1].blocks, regions[r - 1].blockSize)
  }

  function Sum(sizes: seq<nat>, k: nat): nat
    requires k <= |sizes|
  {
    if k == 0 then 0 else Sum(sizes, k - 1) + sizes[k - 1]
  }

  lemma {:induction false} SumPrefix(a: seq<nat>, b: seq<nat>, k: nat)
    requires a <= b && k <= |a|
    ensures Sum(a, k) == Sum(b, k)
    decreases k
  {
    if k > 0 { SumPrefix(a, b, k - 1); }
  }

  lemma {:induction false} SumGrows(a: seq<nat>, j: nat, k: nat)
    requires j <= k <= |a|
    ensures Sum(a, j) <= Sum(a, k)
    decreases k
  {
    if j < k { SumGrows(a, j, k - 1); }
  }

  lemma {:induction false} SizesPrefix(regions: seq<Region>, r: nat, n: nat)
    requires r <= n <= |regions|
    ensures Sizes(regions, r) <= Sizes(regions, n)
    decreases n
  {
    if r < n { SizesPrefix(regions, r, n - 1); }
  }

  /** `seen` is what the loops over regions and blocks have passed, i blocks into region r. */
  ghost predicate Seen(regions: seq<Region>, r: nat, i: nat, seen: seq<nat>) {
    r < |regions| && i <= regions[r].blocks && seen == Sizes(regions, r) + Rep(i, regions[r].blockSize)
  }

  lemma SeeMore(regions: seq<Region>, r: nat, i: nat, seen: seq<nat>)
    requires Seen(regions, r, i, seen) && i < regions[r].blocks
    ensures Seen(regions, r, i + 1, seen + [regions[r].blockSize])
    ensures Sum(seen + [regions[r].blockSize], |seen| + 1) == Sum(seen, |seen|) + regions[r].blockSize
    ensures forall k :: 0 <= k <= |seen| ==> Sum(seen + [regions[r].blockSize], k) == Sum(seen, k)
  {
    var more := seen + [regions[r].blockSize];
    forall k | 0 <= k <= |seen| ensures Sum(more, k) == Sum(seen, k) { SumPrefix(seen, more, k); }
    assert Rep(i + 1, regions[r].blockSize) == Rep(i, regions[r].blockSize) + [regions[r].blockSize];
  }

  // ---------------------------------------------------------------- finding a block

  /** Where the search stands: the block is among those seen, or they have all been counted. */
  ghost predicate Searching(seen: seq<nat>, index: nat, found: bool, count: nat, offset: nat, length: nat) {
    && found == (index < |seen|)
    && (found ==> count == index && offset == Sum(seen, index) && length == seen[index])
    && (!found ==> count == |seen| && offset == Sum(seen, |seen|))
  }

  /** Flash_GetBlockInfo: it succeeds just for the indices of blocks, and gives where the block
      starts and how long it is. */
  method GetBlockInfo(regions: seq<Region>, index: nat) returns (found: bool, offset: nat, length: nat)
    ensures var all := Sizes(regions, |regions|);
      && found == (index < |all|)
      && (found ==> offset == Sum(all, index) && length == all[index])
  {
    found, offset, length := false, 0, 0;
    var count, r := 0, 0;
    ghost var seen: seq<nat> := [];
    while r < |regions| && !found
      invariant r <= |regions| && seen == Sizes(regions, r) && Searching(seen, index, found, count, offset, length)
    {
      assert Rep(0, regions[r].blockSize) == [];
      for i := 0 to regions[r].blocks
        invariant Seen(regions, r, i, seen) && Searching(seen, index, found, count, offset, length)
      {
        SeeMore(regions, r, i, seen);
        if count == index {
          found := true;
          length := regions[r].blockSize;
        } else {
          offset := offset + regions[r].blockSize;
          count := count + 1;
        }
        seen := seen + [regions[r].blockSize];
      }
      r := r + 1;
    }
    SizesPrefix(regions, r, |regions|);
    if found { SumPrefix(seen, Sizes(regions, |regions|), index); }
  }

  // ---------------------------------------------------------------- writing

  /** A call of alt_write_flash_block: `len` bytes of the source from `from` on, to `at`, said to
      lie in the block at `block`, which is `size` long. */
  datatype Call = Call(block: nat, size: nat, at: nat, from: nat, len: nat)

  /** The calls cover a first part of the source and the same stretch of the flash from offset on,
      in order, without gap or overlap. */
  predicate Tiled(calls: seq<Call>, offset: nat) {
    && (forall i :: 0 <= i < |calls| ==> calls[i].at == offset + calls[i].from)
    && (forall i :: 0 <= i < |calls| ==> calls[i].from == if i == 0 then 0 else calls[i - 1].from + calls[i - 1].len)
  }

  predicate Inside(c: Call) {
    c.block <= c.at && c.at + c.len <= c.block + c.size
  }

  /** Where the calls end in the source. */
  function Written(calls: seq<Call>): nat {
    if calls == [] then 0 else calls[|calls| - 1].from + calls[|calls| - 1].len
  }

  /** The block a call names is block j of the table. */
  predicate Names(c: Call, sizes: seq<nat>, j: nat) {
    j < |sizes| && c.block == Sum(sizes, j) && c.size == sizes[j]
  }

  ghost predicate Named(c: Call, sizes: seq<nat>) {
    exists j: nat :: Names(c, sizes, j)
  }

  ghost predicate AllNamed(calls: seq<Call>, sizes: seq<nat>) {
    forall i :: 0 <= i < |calls| ==> Named(calls[i], sizes)
  }

  predicate AllInside(calls: seq<Call>) {
    forall i :: 0 <= i < |calls| ==> Inside(calls[i])
  }

  /** Whether call k of alt_write_flash_block will succeed. */
  predicate Succeeds(answers: seq<bool>, k: nat) {
    k >= |answers| || answers[k]
  }

  predicate AllSucceed(answers: seq<bool>, n: nat) {
    forall k :: 0 <= k < n ==> Succeeds(answers, k)
  }

  /** What has been written when the loops have come to `bound`: all that lies below it.  An offset
      past the first block makes the subtraction on the first turn wrap, and everything is
      written at once. */
  function Reach(seen: seq<nat>, offset: nat, size: nat): nat {
    if seen == [] then 0
    else if offset > seen[0] then size
    else
      var bound := Sum(seen, |seen|);
      if bound <= offset then 0 else if size < bound - offset then size else bound - offset
  }

  /** Flash_Write.  Its calls tile what it writes, each for a block of the table.  It goes on until
      a call fails; if none does, it has written the whole source if that ends inside the table,
      and it reports success even if the table ended first.  Every call stays inside its block
      if and only if the offset does not lie beyond the first block. */
  method Write(regions: seq<Region>, offset: nat, size: nat, answers: seq<bool>)
      returns (success: bool, calls: seq<Call>)
    requires forall r :: 0 <= r < |regions| ==> regions[r].blockSize > 0
    requires offset + size < 0x8000_0000 && Sum(Sizes(regions, |regions|), |Sizes(regions, |regions|)|) < 0x8000_0000
    ensures var all := Sizes(regions, |regions|);
      && Tiled(calls, offset) && AllNamed(calls, all)
      && success == AllSucceed(answers, |calls|)
      && (success ==> Written(calls) == Reach(all, offset, size))
      && (!success ==> calls != [] && AllSucceed(answers, |calls| - 1))
      && (all != [] && size > 0 ==> (AllInside(calls) <==> offset <= all[0]))
  {
    success, calls := true, [];
    var block: nat, count: nat, r := 0, 0, 0;
    ghost var seen: seq<nat> := [];
    while r < |regions| && success
      invariant r <= |regions| && seen <= Sizes(regions, r) && (success ==> seen == Sizes(regions, r))
      invariant WritingTo(seen, offset, size, calls, count, block) && Answered(calls, answers, success)
      invariant !success ==> seen != []
    {
      success, calls, count, block, seen := WriteRegion(regions, r, offset, size, answers, calls, count, block, seen);
      r := r + 1;
    }
    SizesPrefix(regions, r, |regions|);
    NamedInAll(calls, seen, Sizes(regions, |regions|));
  }

  /** The loop over the blocks of one region. */
  method WriteRegion(regions: seq<Region>, r: nat, offset: nat, size: nat, answers: seq<bool>, before: seq<Call>,
                     done: nat, start: nat, ghost passed: seq<nat>)
      returns (success: bool, calls: seq<Call>, count: nat, block: nat, ghost seen: seq<nat>)
    requires r < |regions| && regions[r].blockSize > 0 && passed == Sizes(regions, r)
    requires offset + size < 0x8000_0000 && Sum(Sizes(regions, |regions|), |Sizes(regions, |regions|)|) < 0x8000_0000
    requires WritingTo(passed, offset, size, before, done, start) && Answered(before, answers, true)
    ensures seen <= Sizes(regions, r + 1) && (success ==> seen == Sizes(regions, r + 1))
    ensures WritingTo(seen, offset, size, calls, count, block) && Answered(calls, answers, success)
    ensures !success ==> seen != []
  {
    success, calls, count, block, seen := true, before, done, start, passed;
    var blockSize := regions[r].blockSize;
    assert Rep(0, blockSize) == [];
    var i := 0;
    while i < regions[r].blocks && success
      invariant Seen(regions, r, i, seen)
      invariant WritingTo(seen, offset, size, calls, count, block) && Answered(calls, answers, success)
      invariant !success ==> seen != []
    {
      SeeMore(regions, r, i, seen);
      Bounded(regions, r, i, seen);
      success, calls, count := WriteBlock(seen, offset, size, answers, calls, count, block, blockSize);
      block := block + blockSize;
      seen := seen + [blockSize];
      i := i + 1;
    }
    SeenPrefix(regions, r, i, seen);
  }

  /** The calls made so far have succeeded, but for the last if success is false. */
  predicate Answered(calls: seq<Call>, answers: seq<bool>, success: bool) {
    && success == AllSucceed(answers, |calls|)
    && (!success ==> calls != [] && AllSucceed(answers, |calls| - 1))
  }

  /** The body of the loop over blocks. */
  method WriteBlock(ghost seen: seq<nat>, offset: nat, size: nat, answers: seq<bool>, before: seq<Call>, done: nat,
                    block: nat, blockSize: nat)
    returns (success: bool, calls: seq<Call>, count: nat)
    requires WritingTo(seen, offset, size, before, done, block) && blockSize > 0
    requires Sum(seen + [blockSize], |seen| + 1) == Sum(seen, |seen|) + blockSize
    requires offset + size < 0x8000_0000 && block + blockSize < 0x8000_0000 && Answered(before, answers, true)
    ensures WritingTo(seen + [blockSize], offset, size, calls, count, block + blockSize)
    ensures Answered(calls, answers, success)
  {
    success, calls, count := true, before, done;
    WriteMore(seen, offset, size, calls, count, block, blockSize);
    if offset + count >= block && count < size {
      var len := ThisSize(offset, size, count, block, blockSize);
      calls := calls + [Call(block, blockSize, offset + count, count, len)];
      success := Succeeds(answers, |before|);
      count := count + len;
    }
  }

  /** Where the loops of Flash_Write stand. */
  ghost predicate WritingTo(seen: seq<nat>, offset: nat, size: nat, calls: seq<Call>, count: nat, block: nat) {
    && block == Sum(seen, |seen|) && Tiled(calls, offset) && count == Written(calls) == Reach(seen, offset, size)
    && (seen != [] && size > 0 ==> (AllInside(calls) <==> offset <= seen[0]))
    && AllNamed(calls, seen)
    && (seen == [] ==> calls == [])
  }

  lemma SeenPrefix(regions: seq<Region>, r: nat, i: nat, seen: seq<nat>)
    requires Seen(regions, r, i, seen)
    ensures seen <= Sizes(regions, r + 1) && (i == regions[r].blocks ==> seen == Sizes(regions, r + 1))
  {
    var part, whole := Rep(i, regions[r].blockSize), Rep(regions[r].blocks, regions[r].blockSize);
    assert whole == part + whole[i..];
    assert Sizes(regions, r + 1) == seen + whole[i..];
  }

  lemma NamedInAll(calls: seq<Call>, seen: seq<nat>, all: seq<nat>)
    requires AllNamed(calls, seen) && seen <= all
    ensures AllNamed(calls, all)
  {
    forall i | 0 <= i < |calls| ensures Named(calls[i], all) {
      var j: nat :| Names(calls[i], seen, j);
      SumPrefix(seen, all, j);
      assert seen[j] == all[j];
      assert Names(calls[i], all, j);
    }
  }

  lemma NamedMore(calls: seq<Call>, seen: seq<nat>, c: Call, blockSize: nat)
    requires AllNamed(calls, seen) && c.block == Sum(seen, |seen|) && c.size == blockSize
    ensures AllNamed(calls, seen + [blockSize]) && AllNamed(calls + [c], seen + [blockSize])
  {
    var more := seen + [blockSize];
    NamedInAll(calls, seen, more);
    SumPrefix(seen, more, |seen|);
    assert Names(c, more, |seen|);
    forall i | 0 <= i < |calls| + 1 ensures Named((calls + [c])[i], more) {
      if i < |calls| { assert Named(calls[i], more); }
    }
  }

  lemma TileMore(calls: seq<Call>, offset: nat, c: Call)
    requires Tiled(calls, offset) && c.from == Written(calls) && c.at == offset + c.from
    ensures Tiled(calls + [c], offset) && Written(calls + [c]) == Written(calls) + c.len
  {
  }

  lemma WriteMore(seen: seq<nat>, offset: nat, size: nat, calls: seq<Call>, count: nat, block: nat, blockSize: nat)
    requires WritingTo(seen, offset, size, calls, count, block) && blockSize > 0
    requires Sum(seen + [blockSize], |seen| + 1) == Sum(seen, |seen|) + blockSize
    ensures count <= size
    ensures var more := seen + [blockSize];
      if offset + count >= block && count < size then
        var len := NextSize(offset, size, count, block, blockSize);
        WritingTo(more, offset, size, calls + [Call(block, blockSize, offset + count, count, len)], count + len,
                  block + blockSize)
      else WritingTo(more, offset, size, calls, count, block + blockSize)
  {
    ReachMore(seen, offset, size, blockSize);
    var c := Call(block, blockSize, offset + count, count, NextSize(offset, size, count, block, blockSize));
    NamedMore(calls, seen, c, blockSize);
    if offset + count >= block && count < size {
      TileMore(calls, offset, c);
      InsideMore(seen, offset, size, calls, count, block, blockSize, c);
    }
  }

  /** One more call leaves it so that all are inside exactly if the offset was not too far. */
  lemma InsideMore(seen: seq<nat>, offset: nat, size: nat, calls: seq<Call>, count: nat, block: nat, blockSize: nat,
                   c: Call)
    requires WritingTo(seen, offset, size, calls, count, block) && count < size && offset + count >= block
    requires c == Call(block, blockSize, offset + count, count, NextSize(offset, size, count, block, blockSize))
    ensures AllInside(calls + [c]) <==> offset <= (seen + [blockSize])[0]
  {
    if offset <= (seen + [blockSize])[0] {
      NextInside(seen, offset, size, count, block, blockSize, c);
    } else if seen == [] {
      assert !Inside((calls + [c])[0]);
    }
  }

  /** The next call stays in its block, if the offset was in the first block or at its end. */
  lemma NextInside(seen: seq<nat>, offset: nat, size: nat, count: nat, block: nat, blockSize: nat, c: Call)
    requires count == Reach(seen, offset, size) < size && block == Sum(seen, |seen|) && offset + count >= block
    requires c == Call(block, blockSize, offset + count, count, NextSize(offset, size, count, block, blockSize))
    requires (seen + [blockSize])[0] >= offset
    ensures Inside(c)
  {
    if seen != [] {
      SumGrows(seen, 1, |seen|);
      assert Sum(seen, 1) == Sum(seen, 0) + seen[0];
    }
  }

  /** How much goes into one call; the subtraction is done in unsigned 32-bit arithmetic. */
  method ThisSize(offset: nat, size: nat, count: nat, block: nat, blockSize: nat) returns (len: nat)
    requires offset + size < 0x8000_0000 && block + blockSize < 0x8000_0000 && count < size
    ensures len == NextSize(offset, size, count, block, blockSize)
  {
    len := size - count;
    if count == 0 {
      var room := (block + blockSize - offset) % WORD;
      if len > room {
        len := room;
      }
    } else if len > blockSize {
      len := blockSize;
    }
  }

  function NextSize(offset: nat, size: nat, count: nat, block: nat, blockSize: nat): nat
    requires count <= size
  {
    if count > 0 then Min(size - count, blockSize)
    else if offset > block + blockSize then size
    else Min(size, block + blockSize - offset)
  }

  /** What one more block adds to what has been written. */
  lemma ReachMore(seen: seq<nat>, offset: nat, size: nat, blockSize: nat)
    requires blockSize > 0
    requires Sum(seen + [blockSize], |seen| + 1) == Sum(seen, |seen|) + blockSize
    ensures var count, block := Reach(seen, offset, size), Sum(seen, |seen|);
      && count <= size
      && Reach(seen + [blockSize], offset, size) ==
           (if offset + count >= block && count < size then count + NextSize(offset, size, count, block, blockSize)
            else count)
      && (seen != [] && offset <= seen[0] && count < size ==> offset + count == block)
  {
    var more := seen + [blockSize];
    assert |more| == |seen| + 1 && more[0] == if seen == [] then blockSize else seen[0];
    if seen != [] {
      SumGrows(seen, 1, |seen|);
      assert Sum(seen, 1) == Sum(seen, 0) + seen[0];
    }
  }

  lemma Bounded(regions: seq<Region>, r: nat, i: nat, seen: seq<nat>)
    requires Seen(regions, r, i, seen) && i < regions[r].blocks
    requires Sum(Sizes(regions, |regions|), |Sizes(regions, |regions|)|) < 0x8000_0000
    ensures Sum(seen, |seen|) + regions[r].blockSize < 0x8000_0000
  {
    var all, more := Sizes(regions, |regions|), seen + [regions[r].blockSize];
    SeeMore(regions, r, i, seen);
    SizesPrefix(regions, r + 1, |regions|);
    assert more <= Sizes(regions, r + 1);
    SumPrefix(more, all, |more|);
    SumGrows(all, |more|, |all|);
  }
}
