/** A serial NOR flash as its SPI pins show it: bytes exchanged while chip select is low make
    up one frame, and the frame is carried out when chip select goes high.  Programming only
    clears bits, erasing sets a whole sector to 0xFF, both need the write-enable latch, and
    both leave the chip busy for a while during which only its status can be read. */
module NorFlash {
  import opened Bytes
  import opened Sectors

  /** Bitwise and: a programmed cell keeps only the bits set in both. */
  function And(a: byte, b: byte): (c: byte)
    ensures c <= a && c <= b
  {
    if a == 0 || b == 0 then 0
    else 2 * And(a / 2, b / 2) + if a % 2 == 1 && b % 2 == 1 then 1 else 0
  }

  /** All bits set, up to the highest that is. */
  predicate Ones(a: nat) {
    a == 0 || (a % 2 == 1 && Ones(a / 2))
  }

  lemma {:induction false} OnesKeep(a: byte, b: byte)
    requires Ones(a) && b <= a
    ensures And(a, b) == b
    decreases a
  {
    if b > 0 { OnesKeep(a / 2, b / 2); }
  }

  lemma AndOnes(b: byte)
    ensures And(0xFF, b) == b
  {
    assert Ones(1) && Ones(3) && Ones(7) && Ones(15) && Ones(31) && Ones(63) && Ones(127) && Ones(255);
    OnesKeep(0xFF, b);
  }

  const WREN: byte := 0x06
  const RDSR: byte := 0x05
  const READ: byte := 0x03
  const PP: byte := 0x02
  const SE: byte := 0xD8
  const EN4B: byte := 0xB7
  const DIS4B: byte := 0xE9

  const PAGE: nat := 256

  /** Where the page of an address ends. */
  function PageEnd(addr: nat): (end: nat)
    ensures addr < end <= addr + PAGE
  {
    BaseOf(addr, PAGE) + PAGE
  }

  datatype Op = Erased(base: nat) | Programmed(addr: nat, data: seq<byte>)

  /** `delays` says how many status reads each coming erase or program stays busy for; `log`
      records the erases and programs carried out. */
  datatype Chip = Chip(
    mem: seq<byte>,
    sector: nat,
    wel: bool,
    fourByte: bool,
    busy: nat,
    delays: seq<nat>,
    frame: seq<byte>,
    log: seq<Op>)

  predicate ChipOk(c: Chip) {
    |c.mem| > 0
  }

  /** The array is whole sectors, and a sector is whole pages. */
  predicate GeometryOk(c: Chip) {
    && c.sector > 0 && |c.mem| > 0
    && Aligned(|c.mem|, c.sector) && Aligned(c.sector, PAGE) && Aligned(|c.mem|, PAGE)
  }

  /** Between operations: not selected, not busy, not write-enabled, in 3-byte mode. */
  predicate Quiet(c: Chip) {
    GeometryOk(c) && c.frame == [] && c.busy == 0 && !c.fourByte && !c.wel
  }

  function AddressBytes(c: Chip): nat {
    if c.fourByte then 4 else 3
  }

  /** Where an address lies in an array of n cells, which repeats. */
  function Around(addr: nat, n: nat): (a: nat)
    requires n > 0
    ensures a < n && (addr < n ==> a == addr)
    decreases addr
  {
    if addr < n then addr else Around(addr - n, n)
  }

  function BigEndian(bytes: seq<byte>): nat {
    if bytes == [] then 0 else BigEndian(bytes[..|bytes| - 1]) * 256 + bytes[|bytes| - 1]
  }

  /** The address in a frame that holds one, reduced to the chip's size. */
  function AddressIn(c: Chip, frame: seq<byte>): nat
    requires |c.mem| > 0 && |frame| > AddressBytes(c)
  {
    Around(BigEndian(Part(frame, 1, AddressBytes(c))), |c.mem|)
  }

  function StatusByte(c: Chip): byte {
    if c.busy > 0 then (if c.wel then 0x03 else 0x01) else if c.wel then 0x02 else 0x00
  }

  /** One byte in, one byte out.  Reading the status lets time pass. */
  function Exchange(c: Chip, b: byte): (Chip, byte)
    requires ChipOk(c)
  {
    var frame := c.frame + [b];
    var n := |c.frame|;
    if n == 0 then (c.(frame := frame), 0xFF)
    else if frame[0] == RDSR then
      (c.(frame := frame, busy := if c.busy > 0 then c.busy - 1 else 0), StatusByte(c))
    else if frame[0] == READ && c.busy == 0 && n > AddressBytes(c) then
      (c.(frame := frame), c.mem[Around(AddressIn(c, frame) + n - 1 - AddressBytes(c), |c.mem|)])
    else (c.(frame := frame), 0xFF)
  }

  /** The chip after the bytes mosi. */
  function Shifted(c: Chip, mosi: seq<byte>): (r: Chip)
    requires ChipOk(c)
    ensures ChipOk(r) && |r.mem| == |c.mem|
    decreases |mosi|
  {
    if mosi == [] then c else Exchange(Shifted(c, mosi[..|mosi| - 1]), mosi[|mosi| - 1]).0
  }

  /** The bytes it answers them with. */
  function Answers(c: Chip, mosi: seq<byte>): (r: seq<byte>)
    requires ChipOk(c)
    ensures |r| == |mosi|
  {
    seq(|mosi|, i requires 0 <= i < |mosi| => Exchange(Shifted(c, mosi[..i]), mosi[i]).1)
  }

  function Zeros(n: nat): (r: seq<byte>)
    ensures |r| == n && forall i :: 0 <= i < n ==> r[i] == 0
  {
    seq(n, i => 0)
  }

  /** mem with `data` in place of what was at addr. */
  function Splice(mem: seq<byte>, addr: nat, data: seq<byte>): (r: seq<byte>)
    requires addr + |data| <= |mem|
    ensures |r| == |mem|
    ensures forall i :: 0 <= i < |mem| ==> r[i] == if addr <= i < addr + |data| then data[i - addr] else mem[i]
  {
    seq(|mem|, i requires 0 <= i < |mem| => if addr <= i < addr + |data| then data[i - addr] else mem[i])
  }

  function Blank(n: nat): seq<byte> {
    seq(n, i => 0xFF)
  }

  function Erase(mem: seq<byte>, base: nat, len: nat): (r: seq<byte>)
    requires base + len <= |mem|
    ensures |r| == |mem|
  {
    Splice(mem, base, Blank(len))
  }

  /** Programming wraps inside the page the address lies in. */
  function Program(mem: seq<byte>, addr: nat, data: seq<byte>): (r: seq<byte>)
    requires addr < |mem| && Aligned(|mem|, PAGE)
    ensures |r| == |mem|
    decreases |data|
  {
    if data == [] then mem
    else
      var before := Program(mem, addr, data[..|data| - 1]);
      var page := BaseOf(addr, PAGE);
      var cell := page + (addr - page + |data| - 1) % PAGE;
      BaseInside(addr, PAGE, |mem|);
      before[cell := And(before[cell], data[|data| - 1])]
  }

  /** An erase or program has just begun. */
  function Begun(c: Chip, mem: seq<byte>, op: Op): Chip {
    c.(mem := mem, wel := false, frame := [], log := c.log + [op],
       busy := if c.delays == [] then 0 else c.delays[0], delays := if c.delays == [] then [] else c.delays[1..])
  }

  /** An erase or program is over, and the chip is back in 3-byte mode. */
  function Settled(c: Chip, mem: seq<byte>, op: Op): Chip {
    Begun(c, mem, op).(busy := 0, fourByte := false)
  }

  /** Chip select goes high: the frame, if it is a complete command, is carried out. */
  function Deselect(c: Chip): (r: Chip)
    requires GeometryOk(c)
    ensures ChipOk(r) && r.frame == [] && |r.mem| == |c.mem| && r.sector == c.sector
  {
    var f, a := c.frame, AddressBytes(c);
    if f == [] || c.busy > 0 then c.(frame := [])
    else if f == [WREN] then c.(frame := [], wel := true)
    else if f == [EN4B] && c.wel then c.(frame := [], wel := false, fourByte := true)
    else if f == [DIS4B] && c.wel then c.(frame := [], wel := false, fourByte := false)
    else if f[0] == SE && |f| == 1 + a && c.wel then
      var base := BaseOf(AddressIn(c, f), c.sector);
      BaseInside(AddressIn(c, f), c.sector, |c.mem|);
      Begun(c, Erase(c.mem, base, c.sector), Erased(base))
    else if f[0] == PP && |f| > 1 + a && c.wel then
      var addr := AddressIn(c, f);
      var data := Part(f, 1 + a, |f| - 1 - a);
      Begun(c, Program(c.mem, addr, data), Programmed(addr, data))
    else c.(frame := [])
  }

  // ---------------------------------------------------------------- what frames do

  /** Unless it asks for the status, a frame only accumulates until chip select goes high. */
  lemma {:induction false} FrameCollects(c: Chip, mosi: seq<byte>)
    requires ChipOk(c) && (mosi != [] ==> (c.frame + mosi)[0] != RDSR)
    ensures Shifted(c, mosi) == c.(frame := c.frame + mosi)
    decreases |mosi|
  {
    if mosi != [] {
      var front, b := mosi[..|mosi| - 1], mosi[|mosi| - 1];
      FrameCollects(c, front);
      assert c.frame + mosi == c.frame + front + [b];
    }
  }

  /** The bytes of the array from addr on, wrapping at its end. */
  function Wrapped(mem: seq<byte>, addr: nat, n: nat): (r: seq<byte>)
    requires |mem| > 0
    ensures |r| == n
  {
    seq(n, i requires 0 <= i < n => mem[Around(addr + i, |mem|)])
  }

  lemma AnswerIs(c: Chip, mosi: seq<byte>, k: nat, sent: seq<byte>, b: byte, x: byte)
    requires ChipOk(c) && k < |mosi| && mosi[k] == b && sent == mosi[..k] && Exchange(Shifted(c, sent), b).1 == x
    ensures Answers(c, mosi)[k] == x
  {
  }

  /** What a READ frame answers to the byte after `sent`, in which h bytes are header. */
  lemma ReadExchange(c: Chip, sent: seq<byte>, h: nat, b: byte, addr: nat)
    requires ChipOk(c) && c.frame == [] && c.busy == 0 && h == 1 + AddressBytes(c) && h <= |sent|
    requires sent[0] == READ && addr == AddressIn(c, sent)
    ensures Exchange(Shifted(c, sent), b).1 == c.mem[Around(addr + (|sent| - h), |c.mem|)]
  {
    FreshFrame(c, sent);
    AddressStays(c, sent, b);
    assert (sent + [b])[0] == READ;
  }

  lemma AddressStays(c: Chip, sent: seq<byte>, b: byte)
    requires ChipOk(c) && |sent| > AddressBytes(c)
    ensures AddressIn(c, sent + [b]) == AddressIn(c, sent)
  {
    assert Part(sent + [b], 1, AddressBytes(c)) == Part(sent, 1, AddressBytes(c));
  }

  /** The answer to byte h + j of a READ frame whose header is h bytes and names addr. */
  lemma ReadAnswer(c: Chip, mosi: seq<byte>, h: nat, addr: nat, j: nat)
    requires ChipOk(c) && c.frame == [] && c.busy == 0 && h == 1 + AddressBytes(c) && h + j < |mosi|
    requires mosi[0] == READ && addr == AddressIn(c, mosi)
    ensures Answers(c, mosi)[h + j] == c.mem[Around(addr + j, |c.mem|)]
  {
    var sent, b := mosi[..h + j], mosi[h + j];
    assert Part(sent, 1, h - 1) == Part(mosi, 1, h - 1);
    ReadExchange(c, sent, h, b, addr);
    AnswerIs(c, mosi, h + j, sent, b, c.mem[Around(addr + j, |c.mem|)]);
  }

  /** A READ frame answers, after the address bytes, with the array from that address on. */
  lemma ReadAnswers(c: Chip, mosi: seq<byte>, h: nat, addr: nat, data: seq<byte>)
    requires ChipOk(c) && c.frame == [] && c.busy == 0 && h == 1 + AddressBytes(c) && h <= |mosi|
    requires mosi[0] == READ && addr == AddressIn(c, mosi)
    requires data == Part(Answers(c, mosi), h, |mosi| - h)
    ensures data == Wrapped(c.mem, addr, |mosi| - h)
  {
    forall j | 0 <= j < |data| ensures data[j] == c.mem[Around(addr + j, |c.mem|)] {
      ReadAnswer(c, mosi, h, addr, j);
    }
    IsWrapped(data, c.mem, addr);
  }

  lemma IsWrapped(data: seq<byte>, mem: seq<byte>, addr: nat)
    requires |mem| > 0 && forall j :: 0 <= j < |data| ==> data[j] == mem[Around(addr + j, |mem|)]
    ensures data == Wrapped(mem, addr, |data|)
  {
  }

  /** Two-byte RDSR frames answer with the status at that moment, and let time pass once. */
  lemma StatusAnswers(c: Chip)
    requires ChipOk(c) && c.frame == []
    ensures Shifted(c, [RDSR, 0]) == c.(frame := [RDSR, 0], busy := if c.busy > 0 then c.busy - 1 else 0)
    ensures Answers(c, [RDSR, 0])[1] == StatusByte(c)
  {
    StatusAsked(c);
    assert [RDSR, 0][..1] == [RDSR];
    AnswerIs(c, [RDSR, 0], 1, [RDSR], 0, StatusByte(c));
  }

  lemma StatusAsked(c: Chip)
    requires ChipOk(c) && c.frame == []
    ensures Shifted(c, [RDSR]) == c.(frame := [RDSR])
    ensures Exchange(c.(frame := [RDSR]), 0) ==
      (c.(frame := [RDSR, 0], busy := if c.busy > 0 then c.busy - 1 else 0), StatusByte(c))
  {
    assert [RDSR][..0] == [];
    assert [] + [RDSR] == [RDSR] && [RDSR] + [0] == [RDSR, 0];
  }

  lemma FreshFrame(c: Chip, mosi: seq<byte>)
    requires ChipOk(c) && c.frame == [] && (mosi != [] ==> mosi[0] != RDSR)
    ensures Shifted(c, mosi) == c.(frame := mosi)
  {
    FrameCollects(c, mosi);
    assert c.frame + mosi == mosi;
  }

  // ---------------------------------------------------------------- addresses

  /** The command bytes epcs_commands.c builds: the opcode and the address, high byte first. */
  function Header(op: byte, offset: nat, fourBytes: bool): (r: seq<byte>)
    ensures |r| == if fourBytes then 5 else 4
    ensures r[0] == op
  {
    if fourBytes then
      [op, offset / 0x1000000 % 256, offset / 0x10000 % 256, offset / 0x100 % 256, offset % 256]
    else
      [op, offset / 0x10000 % 256, offset / 0x100 % 256, offset % 256]
  }

  lemma BigEndianOf(a: byte, b: byte, c: byte, d: byte)
    ensures BigEndian([a, b, c]) == a * 0x10000 + b * 0x100 + c
    ensures BigEndian([a, b, c, d]) == a * 0x1000000 + b * 0x10000 + c * 0x100 + d
  {
    assert [a, b, c, d][..3] == [a, b, c] && [a, b, c][..2] == [a, b] && [a, b][..1] == [a] && [a][..0] == [];
    assert BigEndian([a]) == a;
    assert BigEndian([a, b]) == a * 256 + b;
    assert BigEndian([a, b, c]) == (a * 256 + b) * 256 + c;
  }

  lemma Digits3(n: nat)
    requires n < 0x1000000
    ensures n / 0x10000 % 256 * 0x10000 + n / 0x100 % 256 * 0x100 + n % 256 == n
  {
    assert n / 0x100 / 0x100 == n / 0x10000;
  }

  lemma Digits4(n: nat)
    requires n < 0x100000000
    ensures n / 0x1000000 % 256 * 0x1000000 + n / 0x10000 % 256 * 0x10000 + n / 0x100 % 256 * 0x100 + n % 256 == n
  {
    assert n / 0x100 / 0x100 == n / 0x10000;
    assert n / 0x10000 / 0x100 == n / 0x1000000;
  }

  lemma HeaderDecodes(op: byte, offset: nat, fourBytes: bool)
    requires offset < if fourBytes then 0x100000000 else 0x1000000
    ensures BigEndian(Part(Header(op, offset, fourBytes), 1, |Header(op, offset, fourBytes)| - 1)) == offset
  {
    var h := Header(op, offset, fourBytes);
    if fourBytes {
      BigEndianOf(h[1], h[2], h[3], h[4]);
      Digits4(offset);
      assert Part(h, 1, 4) == [h[1], h[2], h[3], h[4]];
    } else {
      BigEndianOf(h[1], h[2], h[3], 0);
      Digits3(offset);
      assert Part(h, 1, 3) == [h[1], h[2], h[3]];
    }
  }

  /** The chip decodes the address that was encoded, in either mode, below 2^24 or 2^32. */
  lemma AddressDecodes(c: Chip, op: byte, offset: nat, frame: seq<byte>)
    requires ChipOk(c) && offset < |c.mem| && offset < if c.fourByte then 0x100000000 else 0x1000000
    requires Header(op, offset, c.fourByte) <= frame
    ensures |frame| > AddressBytes(c) && AddressIn(c, frame) == offset
  {
    var h := Header(op, offset, c.fourByte);
    HeaderDecodes(op, offset, c.fourByte);
    assert Part(frame, 1, |h| - 1) == Part(h, 1, |h| - 1);
  }

  lemma SmallMod(n: nat, m: nat)
    requires n < m
    ensures n % m == n
  {
  }

  // ---------------------------------------------------------------- complete frames

  /** A frame on its own: chip select low, the bytes, chip select high. */
  function Frame(c: Chip, mosi: seq<byte>): Chip
    requires GeometryOk(c)
  {
    ShiftKeepsGeometry(c, mosi);
    Deselect(Shifted(c, mosi))
  }

  lemma {:induction false} ShiftKeepsGeometry(c: Chip, mosi: seq<byte>)
    requires ChipOk(c)
    ensures Shifted(c, mosi).sector == c.sector && |Shifted(c, mosi).mem| == |c.mem|
    decreases |mosi|
  {
    if mosi != [] { ShiftKeepsGeometry(c, mosi[..|mosi| - 1]); }
  }

  lemma WriteEnableFrame(c: Chip)
    requires GeometryOk(c) && c.frame == [] && c.busy == 0
    ensures Frame(c, [WREN]) == c.(wel := true)
  {
    FreshFrame(c, [WREN]);
  }

  lemma AddressModeFrame(c: Chip, enter: bool)
    requires GeometryOk(c) && c.frame == [] && c.busy == 0 && c.wel
    ensures Frame(c, [if enter then EN4B else DIS4B]) == c.(wel := false, fourByte := enter)
  {
    FreshFrame(c, [if enter then EN4B else DIS4B]);
  }

  lemma EraseFrame(c: Chip, offset: nat)
    requires GeometryOk(c) && c.frame == [] && c.busy == 0 && c.wel
    requires offset < |c.mem| && offset < if c.fourByte then 0x100000000 else 0x1000000
    ensures var base := BaseOf(offset, c.sector);
      && base + c.sector <= |c.mem|
      && Frame(c, Header(SE, offset, c.fourByte)) == Begun(c, Erase(c.mem, base, c.sector), Erased(base))
  {
    var h := Header(SE, offset, c.fourByte);
    FreshFrame(c, h);
    BaseInside(offset, c.sector, |c.mem|);
    AddressDecodes(c.(frame := h), SE, offset, h);
  }

  lemma DeselectProgram(c: Chip, offset: nat, data: seq<byte>)
    requires GeometryOk(c) && c.busy == 0 && c.wel && |c.frame| > 1 + AddressBytes(c)
    requires c.frame[0] == PP && AddressIn(c, c.frame) == offset
    requires Part(c.frame, 1 + AddressBytes(c), |c.frame| - 1 - AddressBytes(c)) == data
    ensures Deselect(c) == Begun(c, Program(c.mem, offset, data), Programmed(offset, data))
  {
  }

  /** The opcode and address frame of a page program left open, and the data that follow it. */
  lemma ProgramFrame(c: Chip, offset: nat, data: seq<byte>)
    requires GeometryOk(c) && c.frame == [] && c.busy == 0 && c.wel && data != []
    requires offset < |c.mem| && offset < if c.fourByte then 0x100000000 else 0x1000000
    ensures var h := Header(PP, offset, c.fourByte);
      && Shifted(c, h) == c.(frame := h)
      && Frame(c.(frame := h), data) == Begun(c, Program(c.mem, offset, data), Programmed(offset, data))
  {
    var h := Header(PP, offset, c.fourByte);
    FreshFrame(c, h);
    FrameCollects(c.(frame := h), data);
    var c1 := c.(frame := h + data);
    AddressDecodes(c1, PP, offset, h + data);
    assert Part(h + data, |h|, |data|) == data;
    DeselectProgram(c1, offset, data);
    assert Begun(c1, Program(c.mem, offset, data), Programmed(offset, data))
        == Begun(c, Program(c.mem, offset, data), Programmed(offset, data));
  }

  /** mem with `data` anded into the cells from addr on: what programming does to a flash cell. */
  function Anded(mem: seq<byte>, addr: nat, data: seq<byte>): (r: seq<byte>)
    requires addr + |data| <= |mem|
    ensures |r| == |mem|
  {
    seq(|mem|, i requires 0 <= i < |mem| =>
      if addr <= i < addr + |data| then And(mem[i], data[i - addr]) else mem[i])
  }

  lemma AndedOneMore(mem: seq<byte>, addr: nat, data: seq<byte>)
    requires addr + |data| <= |mem| && data != []
    ensures var n := |data| - 1;
      var before := Anded(mem, addr, data[..n]);
      Anded(mem, addr, data) == before[addr + n := And(before[addr + n], data[n])]
  {
  }

  /** Programming bytes that stay in one page never wraps. */
  lemma {:induction false} ProgramInPage(mem: seq<byte>, addr: nat, data: seq<byte>)
    requires addr < |mem| && Aligned(|mem|, PAGE) && addr + |data| <= PageEnd(addr) && addr + |data| <= |mem|
    ensures Program(mem, addr, data) == Anded(mem, addr, data)
    decreases |data|
  {
    if data != [] {
      var n := |data| - 1;
      ProgramInPage(mem, addr, data[..n]);
      SmallMod(addr - BaseOf(addr, PAGE) + n, PAGE);
      AndedOneMore(mem, addr, data);
    }
  }

  /** Erased cells take the data exactly. */
  lemma AndedErased(mem: seq<byte>, addr: nat, data: seq<byte>)
    requires addr + |data| <= |mem|
    requires forall i :: addr <= i < addr + |data| ==> mem[i] == 0xFF
    ensures Anded(mem, addr, data) == Splice(mem, addr, data)
  {
    forall i | 0 <= i < |mem| ensures Anded(mem, addr, data)[i] == Splice(mem, addr, data)[i] {
      if addr <= i < addr + |data| { AndOnes(data[i - addr]); }
    }
  }
}
