/** epcs_commands.c over altera_avalon_spi.c: the serial-flash commands, byte by byte, against
    the chip of NorFlash.  The status register of the SPI core shows whatever `schedule` says;
    once that is used up the core is always ready. */
module EpcsCommands {
  import opened Bytes
  import opened NorFlash
  import opened Sectors
  import opened SpiTransfer

  class EpcsDevice {
    var chip: Chip
    var schedule: seq<Status>
    ghost var drained: bool                 // TMT in the last reading of the status register
    var rxdata: seq<byte>                   // the receive register: a byte, or none

    /** An interrupted transfer may have left a byte behind in the receive register. */
    constructor (chip: Chip, schedule: seq<Status>, rxdata: seq<byte>)
      ensures this.chip == chip && this.schedule == schedule && this.rxdata == rxdata
    {
      this.chip := chip;
      this.schedule := schedule;
      this.rxdata := rxdata;
    }

    method ReadSpiStatus() returns (s: Status)
      modifies `schedule, `drained
      ensures drained == s.tmt
      ensures if old(schedule) == [] then s == Status(true, true, true) && schedule == []
        else s == old(schedule)[0] && schedule == old(schedule)[1..]
    {
      if schedule == [] {
        s := Status(true, true, true);
      } else {
        s, schedule := schedule[0], schedule[1..];
      }
      drained := s.tmt;
    }

    /** Spin on the status register until there is something to do. */
    method AwaitSpi(noCredit: bool, waiting: bool) returns (s: Status)
      requires noCredit ==> waiting
      modifies `schedule, `drained
      ensures (s.trdy && !noCredit) || (s.rrdy && waiting)
      ensures |schedule| < |old(schedule)| || (schedule == [] == old(schedule) && s.trdy && s.rrdy)
    {
      s := ReadSpiStatus();
      while (!s.trdy || noCredit) && !(s.rrdy && waiting)
        invariant |schedule| < |old(schedule)| || (schedule == [] == old(schedule) && s.trdy && s.rrdy)
        decreases |schedule|, !s.trdy || !s.rrdy
      {
        s := ReadSpiStatus();
      }
    }

    /** One pass of the loop of alt_avalon_spi_command over its local variables. */
    static method Pass(x: Transfer, s: Status) returns (y: Transfer)
      requires ChipOk(x.chip)
      ensures y == Poll(x, s.trdy, s.rrdy)
    {
      y := x;
      if s.trdy && y.credits > 0 {
        y := y.(credits := y.credits - 1);
        if y.next < |y.write| {
          y := Send(y.(next := y.next + 1), y.write[y.next]);
        } else if y.zeros > 0 {
          y := Send(y.(zeros := y.zeros - 1), 0);
        } else {
          y := y.(credits := -1024);
        }
      }
      if s.rrdy && x.inFlight != [] {
        var rxdata := y.inFlight[0];
        y := y.(inFlight := y.inFlight[1..]);
        if y.ignore > 0 {
          y := y.(ignore := y.ignore - 1);
        } else {
          y := y.(got := y.got + [rxdata]);
        }
        y := y.(credits := y.credits + 1);
        y := y.(finished := y.ignore == 0 && |y.got| == y.want);
      }
    }

    /** The loop of alt_avalon_spi_command on a chip already selected.  What the receive register
        holds when it starts would be taken for the first answer. */
    method Clock(write: seq<byte>, readLength: nat) returns (c: Chip, got: seq<byte>)
      requires ChipOk(chip) && |write| + readLength > 0 && rxdata == []
      modifies `schedule, `drained
      ensures c == Shifted(chip, Mosi(write, readLength))
      ensures got == Part(Answers(chip, Mosi(write, readLength)), |write|, readLength)
    {
      ghost var mosi := Mosi(write, readLength);
      ghost var chips, miso := History(chip, mosi), Answers(chip, mosi);
      HistoryIsDialogue(chip, mosi);
      StartAt(chip, write, readLength);
      var x := Start(chip, write, readLength);
      x := x.(inFlight := rxdata);
      while !x.finished
        invariant Dialogue(chips, mosi, miso) && x.write == write && x.want == readLength
        invariant At(x, chips, miso)
        decreases |schedule|, 2 * |mosi| - HalfSteps(x)
      {
        var s := AwaitSpi(x.credits == 0, x.inFlight != []);
        PollAt(x, s.trdy, s.rrdy, chips, mosi, miso);
        x := Pass(x, s);
      }
      FinishedAt(x, chips, miso);
      assert mosi[..|mosi|] == mosi;
      c, got := x.chip, x.got;
    }

    /** Spin until the interface has finished transmitting. */
    method AwaitTransmitter()
      modifies `schedule, `drained
      ensures drained
    {
      var s := ReadSpiStatus();
      while !s.tmt
        invariant drained == s.tmt
        decreases |schedule|, !s.tmt
      {
        s := ReadSpiStatus();
      }
    }

    /** alt_avalon_spi_command: select the chip, discard what an earlier transfer may have left
        behind, exchange the bytes, let the transmitter finish, and release the chip unless the
        caller asked to keep it for the next command. */
    method SpiCommand(write: seq<byte>, readLength: nat, merge: bool) returns (got: seq<byte>)
      requires GeometryOk(chip) && |write| + readLength > 0
      modifies this
      ensures var c := Shifted(old(chip), Mosi(write, readLength));
        && c.sector == old(chip).sector && |c.mem| == |old(chip).mem|
        && chip == if merge then c else Deselect(c)
      ensures got == Part(Answers(old(chip), Mosi(write, readLength)), |write|, readLength)
      ensures drained
    {
      ShiftKeepsGeometry(chip, Mosi(write, readLength));
      rxdata := [];
      var c;
      c, got := Clock(write, readLength);
      AwaitTransmitter();
      chip := if merge then c else Deselect(c);
    }

    // ---------------------------------------------------------------- commands

    method ReadStatusRegister() returns (status: byte)
      requires GeometryOk(chip) && chip.frame == []
      modifies this
      ensures chip == old(chip).(busy := if old(chip).busy > 0 then old(chip).busy - 1 else 0)
      ensures status == StatusByte(old(chip))
    {
      assert Mosi([RDSR], 1) == [RDSR, 0];
      StatusAnswers(chip);
      var got := SpiCommand([RDSR], 1, false);
      status := got[0];
    }

    method AwaitWipReleased()
      requires GeometryOk(chip) && chip.frame == []
      modifies this
      ensures chip == old(chip).(busy := 0)
    {
      var status := ReadStatusRegister();
      while status % 2 == 1
        invariant GeometryOk(chip) && chip == old(chip).(busy := chip.busy)
        invariant chip.busy == 0 || status % 2 == 1
        decreases chip.busy, status % 2
      {
        status := ReadStatusRegister();
      }
    }

    /** A command that is one opcode. */
    method SendOpcode(op: byte)
      requires GeometryOk(chip)
      modifies this
      ensures GeometryOk(old(chip)) && chip == Frame(old(chip), [op])
    {
      assert Mosi([op], 0) == [op];
      var _ := SpiCommand([op], 0, false);
    }

    method WriteEnable()
      requires GeometryOk(chip) && chip.frame == [] && chip.busy == 0
      modifies this
      ensures chip == old(chip).(wel := true)
    {
      WriteEnableFrame(chip);
      SendOpcode(WREN);
    }

    method Enter4BytesMode()
      requires GeometryOk(chip) && chip.frame == [] && chip.busy == 0
      modifies this
      ensures chip == old(chip).(wel := false, fourByte := true)
    {
      WriteEnable();
      AddressModeFrame(chip, true);
      SendOpcode(EN4B);
    }

    method Exit4BytesMode()
      requires GeometryOk(chip) && chip.frame == [] && chip.busy == 0
      modifies this
      ensures chip == old(chip).(wel := false, fourByte := false)
    {
      WriteEnable();
      AddressModeFrame(chip, false);
      SendOpcode(DIS4B);
    }

    /** epcs_sector_erase: exactly the sector that holds offset is erased, nothing else happens
        to the chip, and it is idle and in 3-byte mode again on return. */
    method SectorErase(offset: nat, fourBytes: bool)
      requires Quiet(chip) && offset < |chip.mem| && offset < if fourBytes then 0x100000000 else 0x1000000
      modifies this
      ensures var c := old(chip);
        var base := BaseOf(offset, c.sector);
        base + c.sector <= |c.mem| && chip == Settled(c, Erase(c.mem, base, c.sector), Erased(base))
      ensures Quiet(chip)
    {
      if fourBytes {
        Enter4BytesMode();
      }
      WriteEnable();
      EraseFrame(chip, offset);
      assert Mosi(Header(SE, offset, fourBytes), 0) == Header(SE, offset, fourBytes);
      var _ := SpiCommand(Header(SE, offset, fourBytes), 0, false);
      AwaitWipReleased();
      if fourBytes {
        Exit4BytesMode();
      }
    }

    /** epcs_write_buffer: the opcode and address and the data go out in one frame, and the page
        is programmed with exactly the data. */
    method WriteBuffer(offset: nat, data: seq<byte>, fourBytes: bool)
      requires Quiet(chip) && offset < |chip.mem| && offset < if fourBytes then 0x100000000 else 0x1000000
      requires data != []
      modifies this
      ensures chip == Settled(old(chip), Program(old(chip).mem, offset, data), Programmed(offset, data))
      ensures Quiet(chip)
    {
      if fourBytes {
        Enter4BytesMode();
      }
      WriteEnable();
      ProgramFrame(chip, offset, data);
      assert Mosi(Header(PP, offset, fourBytes), 0) == Header(PP, offset, fourBytes);
      assert Mosi(data, 0) == data;
      var _ := SpiCommand(Header(PP, offset, fourBytes), 0, true);
      var _ := SpiCommand(data, 0, false);
      AwaitWipReleased();
      if fourBytes {
        Exit4BytesMode();
      }
    }

    /** epcs_read_buffer: the bytes of the array from offset on, wrapping at its end. */
    method ReadBuffer(offset: nat, length: nat, fourBytes: bool) returns (data: seq<byte>)
      requires Quiet(chip) && offset < |chip.mem| && offset < if fourBytes then 0x100000000 else 0x1000000
      modifies this
      ensures chip == old(chip) && data == Wrapped(chip.mem, offset, length)
    {
      if fourBytes {
        Enter4BytesMode();
      }
      AwaitWipReleased();
      var header := Header(READ, offset, fourBytes);
      ghost var mosi := Mosi(header, length);
      AddressDecodes(chip, READ, offset, mosi);
      FreshFrame(chip, mosi);
      ghost var c := chip;
      data := SpiCommand(header, length, false);
      ReadAnswers(c, mosi, |header|, offset, data);
      if fourBytes {
        Exit4BytesMode();
      }
    }
  }
}
