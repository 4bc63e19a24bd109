/** altera_avalon_epcs_flash_controller.c: the device table, reading, comparing, erasing and
    writing, over the commands of EpcsCommands. */
module EpcsFlash {
  import opened Bytes
  import opened EpcsCommands
  import opened FlashSpec
  import opened NorFlash
  import opened Options
  import opened Sectors
  import opened Words

  const EIO := 5

  type int32 = x: int | -0x8000_0000 <= x < 0x8000_0000

  datatype Region = Region(size: nat, blocks: nat, blockSize: nat, fourBytes: bool)

  /** alt_epcs_flash_query: the erase region of the chip that answers so to the two identity commands. */
  function Identify(signature: byte, deviceId: nat): Option<Region> {
    if signature == 0x16 then Some(Region(64 * 1024 * 1024 / 8, 128, 65536, false))
    else if signature == 0x14 then Some(Region(16 * 1024 * 1024 / 8, 32, 65536, false))
    else if signature == 0x13 then Some(Region(8 * 1024 * 1024 / 8, 16, 65536, false))
    else if signature == 0x12 then Some(Region(4 * 1024 * 1024 / 8, 8, 65536, false))
    else if signature == 0x10 then Some(Region(1 * 1024 * 1024 / 8, 4, 32768, false))
    else if deviceId % 0x1000000 == 0x20BA18 then Some(Region(128 * 1024 * 1024 / 8, 256, 65536, false))
    else if deviceId % 0x100 == 0x18 then Some(Region(128 * 1024 * 1024 / 8, 64, 262144, false))
    else if deviceId % 0x100 == 0x19 then Some(Region(256 * 1024 * 1024 / 8, 512, 65536, true))
    else None
  }

  /** Whole blocks of whole pages, and 4-byte addresses exactly where 3 bytes cannot reach. */
  predicate RegionOk(r: Region) {
    && r.size > 0 && r.blockSize > 0 && r.size == Span(r.blocks, r.blockSize) && Aligned(r.size, r.blockSize)
    && Aligned(r.blockSize, PAGE) && Aligned(r.size, PAGE)
    && (r.fourBytes <==> r.size > 0x1000000) && r.size < 0x8000_0000
  }

  lemma RegionFits(r: Region)
    requires r.size == r.blocks * r.blockSize && r.blockSize > 0 && 0 < r.size < 0x8000_0000
    requires r.blockSize % PAGE == 0 && r.size % PAGE == 0 && (r.fourBytes <==> r.size > 0x1000000)
    ensures RegionOk(r)
  {
    SpanIs(r.blocks, r.blockSize);
    SpanAligned(r.blocks, r.blockSize);
    MultipleAligned(r.blockSize / PAGE, PAGE);
    MultipleAligned(r.size / PAGE, PAGE);
  }

  /** Every device in the table has as many bytes as its blocks, and the address size it needs. */
  lemma EveryRegionOk(signature: byte, deviceId: nat)
    requires Identify(signature, deviceId).Some?
    ensures var r := Identify(signature, deviceId).value; r.size == r.blocks * r.blockSize && RegionOk(r)
  {
    RegionFits(Identify(signature, deviceId).value);
  }

  function PowerOfTwo(n: nat): nat {
    if n == 0 then 1 else 2 * PowerOfTwo(n - 1)
  }

  /** Which devices are known, and that each is as large as its density code says: 2^(s + 1) bytes for
      a signature s, 2^d for a device id with density d; and that its blocks are of 64 KB, but for the
      EPCS1, with 32 KB, and the EPCS128, with 256 KB. */
  lemma DensityTells(signature: byte, deviceId: nat)
    ensures Identify(signature, deviceId).Some? <==>
      signature in [0x10, 0x12, 0x13, 0x14, 0x16] || deviceId % 0x100 in [0x18, 0x19]
    ensures Identify(signature, deviceId).Some? ==>
      Identify(signature, deviceId).value.size ==
        if signature in [0x10, 0x12, 0x13, 0x14, 0x16] then PowerOfTwo(signature + 1) else PowerOfTwo(deviceId % 0x100)
    ensures Identify(signature, deviceId).Some? ==>
      Identify(signature, deviceId).value.blockSize ==
        if signature == 0x10 then 0x8000
        else if signature !in [0x12, 0x13, 0x14, 0x16] && deviceId % 0x100 == 0x18 && deviceId % 0x1000000 != 0x20BA18
        then 0x4_0000
        else 0x1_0000
  {
    assert PowerOfTwo(10) == 1024;
    assert PowerOfTwo(17) == 0x2_0000 && PowerOfTwo(19) == 0x8_0000 && PowerOfTwo(20) == 0x10_0000;
    assert PowerOfTwo(21) == 0x20_0000 && PowerOfTwo(23) == 0x80_0000;
    assert PowerOfTwo(24) == 0x100_0000 && PowerOfTwo(25) == 0x200_0000;
  }

  // ---------------------------------------------------------------- comparing in chunks

  const CHUNK: nat := 32

  /** What comparing the source from `done` on finds chunk by chunk, reading past the end as the chip does. */
  function ChunkCompare(mem: seq<byte>, offset: int, src: seq<byte>, done: nat): int
    requires |mem| > 0 && done <= |src|
    decreases |src| - done
  {
    if done == |src| then 0
    else if !(0 <= offset + done < |mem|) then -1
    else
      var n := Min(CHUNK, |src| - done);
      var c := Memcmp(src, done, Wrapped(mem, offset + done, n), 0, n);
      if c != 0 then c else ChunkCompare(mem, offset, src, done + n)
  }

  /** Inside the array nothing wraps. */
  lemma MemcmpWrapped(src: seq<byte>, done: nat, mem: seq<byte>, addr: nat, n: nat)
    requires addr + n <= |mem| && |mem| > 0 && done + n <= |src|
    ensures Memcmp(src, done, Wrapped(mem, addr, n), 0, n) == Memcmp(src, done, mem, addr, n)
  {
    var chunk := Wrapped(mem, addr, n);
    assert forall k :: 0 <= k < n ==> chunk[k] == mem[Around(addr + k, |mem|)] == mem[k - 0 + addr];
    MemcmpSame(src, done, chunk, 0, mem, addr, n);
  }

  /** Inside the array, that is comparing the whole at once. */
  lemma {:induction false} ChunkCompareIsMemcmp(mem: seq<byte>, offset: nat, src: seq<byte>, done: nat)
    requires offset + |src| <= |mem| && |mem| > 0 && done <= |src|
    ensures ChunkCompare(mem, offset, src, done) == Memcmp(src, done, mem, offset + done, |src| - done)
    decreases |src| - done
  {
    if done < |src| {
      var n := Min(CHUNK, |src| - done);
      MemcmpWrapped(src, done, mem, offset + done, n);
      MemcmpSplit(src, done, mem, offset + done, n, |src| - done - n);
      ChunkCompareIsMemcmp(mem, offset, src, done + n);
    }
  }

  // ---------------------------------------------------------------- programming page by page

  lemma AndedAppend(mem: seq<byte>, addr: nat, d1: seq<byte>, d2: seq<byte>)
    requires addr + |d1| + |d2| <= |mem|
    ensures Anded(Anded(mem, addr, d1), addr + |d1|, d2) == Anded(mem, addr, d1 + d2)
  {
  }

  /** Where the page of addr ends, as the driver computes it with a mask. */
  lemma NextPage(addr: nat)
    ensures (addr + PAGE) / PAGE * PAGE == PageEnd(addr)
  {
    var k := BaseIs(addr, PAGE);
  }

  /** Of the data, the first `done` bytes are in the array and the programs for them in the log. */
  ghost predicate Programming(mem: seq<byte>, log: seq<Op>, mem1: seq<byte>, log1: seq<Op>, addr: nat, data: seq<byte>,
                              done: nat)
  {
    && done <= |data| && addr + |data| <= |mem|
    && mem1 == Anded(mem, addr, data[..done])
    && Pages(log1, addr, data, done) == Pages(log, addr, data, 0)
  }

  lemma ProgramStep(mem: seq<byte>, log: seq<Op>, mem1: seq<byte>, log1: seq<Op>, addr: nat, data: seq<byte>, done: nat,
                    n: nat)
    requires Programming(mem, log, mem1, log1, addr, data, done) && done < |data|
    requires n == Min(PageEnd(addr + done) - addr - done, |data| - done)
    ensures var page := Part(data, done, n);
      Programming(mem, log, Anded(mem1, addr + done, page), log1 + [Programmed(addr + done, page)],
                  addr, data, done + n)
  {
    var page := Part(data, done, n);
    AndedAppend(mem, addr, data[..done], page);
    assert data[..done] + page == data[..done + n];
  }

  lemma SpliceErase(mem: seq<byte>, b: nat, sector: nat, offset: nat, chunk: seq<byte>, a: nat)
    requires b <= offset && offset + |chunk| <= b + sector <= |mem| && a < |mem|
    ensures Splice(Erase(mem, b, sector), offset, chunk)[a] ==
      if offset <= a < offset + |chunk| then chunk[a - offset] else if b <= a < b + sector then 0xFF else mem[a]
  {
  }

  /** What WriteSector leaves is the sector's share of the write. */
  lemma ShareWritten(mem: seq<byte>, sector: nat, at: nat, data: seq<byte>, b: nat, offset: nat, n: nat,
                     mem1: seq<byte>)
    requires b + sector <= |mem| && offset == From(b, at) && offset + n == To(b, sector, at, data)
    requires mem1 ==
      if Differs(mem, sector, at, data, b) then Splice(Erase(mem, b, sector), offset, Part(data, offset - at, n))
      else mem
    ensures SectorWritten(mem, sector, at, data, b, mem1)
  {
    var chunk := Part(data, offset - at, n);
    forall a | 0 <= a < |mem|
      ensures mem1[a] == if b <= a < b + sector then Expected(mem, sector, at, data, a, b) else mem[a]
    {
      if Differs(mem, sector, at, data, b) {
        SpliceErase(mem, b, sector, offset, chunk, a);
      } else {
        assert !(From(b, at) <= a < To(b, sector, at, data) && mem[a] != data[a - at]);
      }
    }
  }

  lemma DiffersIs(mem: seq<byte>, sector: nat, at: nat, data: seq<byte>, b: nat, offset: nat, n: nat, chunk: seq<byte>)
    requires b + sector <= |mem| && offset == From(b, at) && offset + n == To(b, sector, at, data)
    requires |chunk| == n && forall k :: 0 <= k < n ==> chunk[k] == data[k + offset - at]
    ensures Differs(mem, sector, at, data, b) <==> exists k :: 0 <= k < n && chunk[k] != mem[k - 0 + offset]
  {
    if Differs(mem, sector, at, data, b) {
      var i :| From(b, at) <= i < To(b, sector, at, data) && mem[i] != data[i - at];
      assert chunk[i - offset] != mem[i - offset - 0 + offset];
    } else {
      forall k | 0 <= k < n ensures chunk[k] == mem[k - 0 + offset] {
        assert !(From(b, at) <= k + offset < To(b, sector, at, data) && mem[k + offset] != data[k + offset - at]);
      }
    }
  }

  /** The commands a sector needs are decided by what it held at the start. */
  lemma UntouchedOps(was: seq<byte>, mem: seq<byte>, log: seq<Op>, sector: nat, at: nat, data: seq<byte>, b: nat)
    requires sector > 0 && Aligned(|was|, sector) && b + sector <= |was|
    requires WrittenBelow(was, sector, at, data, b, mem)
    ensures SectorOps(log, mem, sector, at, data, b) == SectorOps(log, was, sector, at, data, b)
  {
    forall i | b <= i < b + sector ensures mem[i] == was[i] {
      assert mem[i] == Target(was, sector, at, data, b, i);
    }
    OpsLocal(log, mem, was, sector, at, data, b);
  }

  /** How far a write has come: the sectors below `current` are done, and `offset` is where it goes on. */
  ghost predicate Writing(was: seq<byte>, log: seq<Op>, mem: seq<byte>, log1: seq<Op>, sector: nat, at: nat,
                          data: seq<byte>, current: nat, offset: nat)
  {
    && sector > 0 && Aligned(|was|, sector) && Aligned(current, sector)
    && offset == From(current, at) && offset - at <= |data|
    && (current > at ==> offset < at + |data|)
    && WrittenBelow(was, sector, at, data, current, mem)
    && OpsFrom(log1, was, sector, at, data, current) == OpsFrom(log, was, sector, at, data, 0)
  }

  lemma StartWriting(was: seq<byte>, log: seq<Op>, sector: nat, at: nat, data: seq<byte>)
    requires sector > 0 && Aligned(|was|, sector)
    ensures Writing(was, log, was, log, sector, at, data, 0, at)
  {
    StartWritten(was, sector, at, data);
  }

  /** A sector before the first byte to be written is passed over. */
  lemma PassOver(was: seq<byte>, log: seq<Op>, mem: seq<byte>, log1: seq<Op>, sector: nat, at: nat, data: seq<byte>,
                 current: nat, offset: nat)
    requires Writing(was, log, mem, log1, sector, at, data, current, offset)
    requires current + sector <= |was| && current + sector <= offset
    ensures Writing(was, log, mem, log1, sector, at, data, current + sector, offset)
  {
    AlignedNext(current, sector);
    SectorIdle(was, mem, current, sector, at, data);
  }

  /** The sector the next byte falls in is dealt with, and more are to come. */
  lemma DealtWith(was: seq<byte>, log: seq<Op>, mem: seq<byte>, log1: seq<Op>, sector: nat, at: nat, data: seq<byte>,
                  current: nat, offset: nat, n: nat, mem1: seq<byte>, log2: seq<Op>)
    requires Writing(was, log, mem, log1, sector, at, data, current, offset)
    requires current + sector <= |was| && offset + n == current + sector && n < |data| - (offset - at)
    requires SectorWritten(mem, sector, at, data, current, mem1)
    requires log2 == SectorOps(log1, mem, sector, at, data, current)
    ensures Writing(was, log, mem1, log2, sector, at, data, current + sector, current + sector)
  {
    AlignedNext(current, sector);
    SectorDone(was, mem, current, sector, at, data, mem1);
    UntouchedOps(was, mem, log1, sector, at, data, current);
  }

  /** Or it was the last. */
  lemma LastDealtWith(was: seq<byte>, log: seq<Op>, mem: seq<byte>, log1: seq<Op>, sector: nat, at: nat,
                      data: seq<byte>, current: nat, offset: nat, mem1: seq<byte>, log2: seq<Op>)
    requires Writing(was, log, mem, log1, sector, at, data, current, offset)
    requires current + sector <= |was| && at + |data| <= current + sector
    requires SectorWritten(mem, sector, at, data, current, mem1)
    requires log2 == SectorOps(log1, mem, sector, at, data, current)
    ensures Written(was, sector, at, data, mem1) && log2 == OpsFrom(log, was, sector, at, data, 0)
  {
    AlignedNext(current, sector);
    SectorDone(was, mem, current, sector, at, data, mem1);
    RestIdle(was, mem1, current + sector, sector, at, data);
    UntouchedOps(was, mem, log1, sector, at, data, current);
    OpsIdle(log2, was, sector, at, data, current + sector);
  }

  /** The array has ended. */
  lemma PastTheEnd(was: seq<byte>, log: seq<Op>, mem: seq<byte>, log1: seq<Op>, sector: nat, at: nat, data: seq<byte>,
                   offset: nat)
    requires Writing(was, log, mem, log1, sector, at, data, |was|, offset)
    ensures Written(was, sector, at, data, mem) && log1 == OpsFrom(log, was, sector, at, data, 0)
  {
  }

  /** Comparing tells whether the sector has to be rewritten. */
  lemma CompareTells(mem: seq<byte>, sector: nat, at: nat, data: seq<byte>, b: nat, offset: nat, n: nat)
    requires b + sector <= |mem| && offset == From(b, at) && offset + n == To(b, sector, at, data) && |mem| > 0
    ensures ChunkCompare(mem, offset, Part(data, offset - at, n), 0) != 0 <==> Differs(mem, sector, at, data, b)
    ensures n == 0 ==> !Differs(mem, sector, at, data, b)
  {
    var chunk := Part(data, offset - at, n);
    ChunkCompareIsMemcmp(mem, offset, chunk, 0);
    MemcmpZero(chunk, 0, mem, offset, n);
    DiffersIs(mem, sector, at, data, b, offset, n, chunk);
  }

  class EpcsFlashDevice {
    const device: EpcsDevice
    const region: Region

    ghost predicate Valid()
      reads device
    {
      && RegionOk(region) && Quiet(device.chip)
      && |device.chip.mem| == region.size && device.chip.sector == region.blockSize
    }

    constructor (device: EpcsDevice, region: Region)
      requires RegionOk(region) && Quiet(device.chip)
      requires |device.chip.mem| == region.size && device.chip.sector == region.blockSize
      ensures Valid() && this.device == device && this.region == region
    {
      this.device := device;
      this.region := region;
    }

    /** alt_epcs_test_address: the offset is compared as an unsigned number. */
    function TestAddress(offset: int32): (code: int)
      requires RegionOk(region)
      ensures code == if 0 <= offset < region.size then 0 else -EIO
    {
      var unsigned := if offset < 0 then offset + 0x1_0000_0000 else offset;
      if unsigned > region.size - 1 then -EIO else 0
    }

    method Read(offset: int32, length: nat) returns (code: int, data: seq<byte>)
      requires Valid()
      modifies device
      ensures Valid() && device.chip == old(device.chip)
      ensures 0 <= offset < region.size ==> code == 0 && data == Wrapped(device.chip.mem, offset, length)
      ensures !(0 <= offset < region.size) ==> code == -EIO && data == []
    {
      code, data := TestAddress(offset), [];
      if code >= 0 {
        data := device.ReadBuffer(offset, length, region.fourBytes);
      }
    }

    method CompareWith(src: seq<byte>, offset: int32) returns (r: int)
      requires Valid() && offset + |src| < 0x8000_0000
      modifies device
      ensures Valid() && device.chip == old(device.chip)
      ensures r == ChunkCompare(device.chip.mem, offset, src, 0)
    {
      var current := 0;
      while current < |src|
        invariant 0 <= current <= |src| && Valid() && device.chip == old(device.chip)
        invariant ChunkCompare(device.chip.mem, offset, src, 0) == ChunkCompare(device.chip.mem, offset, src, current)
      {
        var n := if |src| - current > CHUNK then CHUNK else |src| - current;
        var code, chunk := Read(offset + current, n);
        if code < 0 {
          return -1;
        }
        var c := Memcmp(src, current, chunk, 0, n);
        if c != 0 {
          return c;
        }
        current := current + n;
      }
      return 0;
    }

    method EraseBlock(blockOffset: int32) returns (code: int)
      requires Valid()
      modifies device
      ensures Valid()
      ensures !(0 <= blockOffset < region.size) ==> code == -EIO && device.chip == old(device.chip)
      ensures 0 <= blockOffset < region.size ==>
        var base := BaseOf(blockOffset, region.blockSize);
        && code == 0
        && base + region.blockSize <= |old(device.chip.mem)|
        && device.chip.mem == Erase(old(device.chip.mem), base, region.blockSize)
        && device.chip.log == old(device.chip.log) + [Erased(base)]
    {
      code := TestAddress(blockOffset);
      if code >= 0 {
        device.SectorErase(blockOffset, region.fourBytes);
      }
    }

    /** epcs_write_buffer, called with bytes of one page. */
    method WritePage(offset: nat, page: seq<byte>)
      requires Valid() && page != [] && offset + |page| <= region.size && offset + |page| <= PageEnd(offset)
      modifies device
      ensures Valid()
      ensures device.chip.mem == Anded(old(device.chip.mem), offset, page)
      ensures device.chip.log == old(device.chip.log) + [Programmed(offset, page)]
    {
      ProgramInPage(device.chip.mem, offset, page);
      device.WriteBuffer(offset, page, region.fourBytes);
    }

    /** The data are anded into the array, by programs that each stay inside a page. */
    method WriteBlock(dataOffset: int32, data: seq<byte>) returns (code: int)
      requires Valid() && (0 <= dataOffset < region.size ==> dataOffset + |data| <= region.size)
      modifies device
      ensures Valid()
      ensures !(0 <= dataOffset < region.size) ==> code == -EIO && device.chip == old(device.chip)
      ensures 0 <= dataOffset < region.size ==>
        && code == 0
        && device.chip.mem == Anded(old(device.chip.mem), dataOffset, data)
        && device.chip.log == Pages(old(device.chip.log), dataOffset, data, 0)
    {
      code := TestAddress(dataOffset);
      if code >= 0 {
        var offset, done := dataOffset, 0;
        ghost var mem, log := device.chip.mem, device.chip.log;
        while done < |data|
          invariant 0 <= done <= |data| && Valid() && (done < |data| ==> offset == dataOffset + done)
          invariant Programming(mem, log, device.chip.mem, device.chip.log, dataOffset, data, done)
        {
          var next := (offset + PAGE) / PAGE * PAGE;
          NextPage(offset);
          var n := if |data| - done < next - offset then |data| - done else next - offset;
          ProgramStep(mem, log, device.chip.mem, device.chip.log, dataOffset, data, done, n);
          WritePage(offset, Part(data, done, n));
          done := done + n;
          offset := next;
        }
        assert data[..|data|] == data;
      }
    }

    method EraseAndWrite(b: int32, offset: int32, chunk: seq<byte>) returns (code: int)
      requires Valid() && 0 <= b <= offset < region.size && offset + |chunk| <= b + region.blockSize <= region.size
      requires BaseOf(b, region.blockSize) == b
      modifies device
      ensures Valid() && code == 0
      ensures device.chip.mem == Splice(Erase(old(device.chip.mem), b, region.blockSize), offset, chunk)
      ensures device.chip.log == Pages(old(device.chip.log) + [Erased(b)], offset, chunk, 0)
    {
      AndedErased(Erase(device.chip.mem, b, region.blockSize), offset, chunk);
      code := EraseBlock(b);
      if code == 0 {
        code := WriteBlock(offset, chunk);
      }
    }

    /** One sector's share of a write: compare, and erase and program only if it differs. */
    method WriteSector(b: int32, offset: int32, at: nat, data: seq<byte>, n: nat) returns (code: int)
      requires Valid() && 0 <= b <= offset && b + region.blockSize <= region.size
      requires offset == From(b, at) && offset + n == To(b, region.blockSize, at, data)
      requires BaseOf(b, region.blockSize) == b
      modifies device
      ensures Valid() && code == 0
      ensures SectorWritten(old(device.chip.mem), region.blockSize, at, data, b, device.chip.mem)
      ensures device.chip.log == SectorOps(old(device.chip.log), old(device.chip.mem), region.blockSize, at, data, b)
    {
      ghost var mem := device.chip.mem;
      var chunk := Part(data, offset - at, n);
      code := 0;
      CompareTells(mem, region.blockSize, at, data, b, offset, n);
      var differs := CompareWith(chunk, offset);
      if differs != 0 {
        code := EraseAndWrite(b, offset, chunk);
      }
      ShareWritten(mem, region.blockSize, at, data, b, offset, n, device.chip.mem);
    }

    /** The block the next byte falls in: what the block loop of alt_epcs_flash_write does there. */
    method WriteHere(ghost was: seq<byte>, ghost log: seq<Op>, at: int32, data: seq<byte>, current: nat, offset: nat,
                     n: nat)
      returns (code: int)
      requires Valid() && at >= 0 && current + region.blockSize <= region.size == |was|
      requires Writing(was, log, device.chip.mem, device.chip.log, region.blockSize, at, data, current, offset)
      requires current <= offset < current + region.blockSize
      requires n == Min(current + region.blockSize - offset, at + |data| - offset)
      modifies device
      ensures Valid() && code == 0
      ensures offset + n == at + |data| ==>
        && Written(was, region.blockSize, at, data, device.chip.mem)
        && device.chip.log == OpsFrom(log, was, region.blockSize, at, data, 0)
      ensures offset + n < at + |data| ==>
        var next := current + region.blockSize;
        Writing(was, log, device.chip.mem, device.chip.log, region.blockSize, at, data, next, next)
    {
      var size := region.blockSize;
      ghost var mem, log1 := device.chip.mem, device.chip.log;
      code := WriteSector(current, offset, at, data, n);
      ghost var mem1, log2 := device.chip.mem, device.chip.log;
      if offset + n == at + |data| {
        LastDealtWith(was, log, mem, log1, size, at, data, current, offset, mem1, log2);
      } else {
        DealtWith(was, log, mem, log1, size, at, data, current, offset, n, mem1, log2);
      }
    }

    /** alt_epcs_flash_write.  A source that runs past the end of the device is cut there, and
        an offset outside the device writes nothing; both return 0. */
    method Write(at: int32, data: seq<byte>) returns (code: int)
      requires Valid() && |data| < 0x8000_0000
      modifies device
      ensures Valid() && code == 0
      ensures !(0 <= at < region.size) ==> device.chip == old(device.chip)
      ensures 0 <= at < region.size ==>
        && Written(old(device.chip.mem), region.blockSize, at, data, device.chip.mem)
        && device.chip.log == OpsFrom(old(device.chip.log), old(device.chip.mem), region.blockSize, at, data, 0)
    {
      code := 0;
      if 0 <= at < region.size {
        ghost var was, log := device.chip.mem, device.chip.log;
        var offset: nat, current: nat, length := at, 0, |data|;
        var size := region.blockSize;
        StartWriting(was, log, size, at, data);
        for j := 0 to region.blocks
          invariant Valid() && code == 0 && current + Span(region.blocks - j, size) == region.size
          invariant Writing(was, log, device.chip.mem, device.chip.log, size, at, data, current, offset)
          invariant length == at + |data| - offset
        {
          if current <= offset < current + size {
            var n := if current + size - offset < length then current + size - offset else length;
            code := WriteHere(was, log, at, data, current, offset, n);
            if length == n || code != 0 {
              return;
            }
            length := length - n;
            offset := current + size;
          } else {
            PassOver(was, log, device.chip.mem, device.chip.log, size, at, data, current, offset);
          }
          current := current + size;
        }
        PastTheEnd(was, log, device.chip.mem, device.chip.log, size, at, data, offset);
      }
    }
  }
}
