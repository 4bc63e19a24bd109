/** alt_avalon_spi_command as a state machine: one step for each reading of the status
    register, whatever the TRDY and RRDY bits in it turn out to be. */
module SpiTransfer {
  import opened Bytes
  import opened NorFlash

  /** The local variables of the transfer and the bytes clocked but not yet collected. */
  datatype Transfer = Transfer(
    chip: Chip,
    credits: int,
    write: seq<byte>,
    next: nat,
    zeros: nat,
    ignore: nat,
    want: nat,
    got: seq<byte>,
    inFlight: seq<byte>,
    finished: bool)

  function Start(c: Chip, write: seq<byte>, want: nat): Transfer {
    Transfer(c, 1, write, 0, want, |write|, want, [], [], false)
  }

  function Send(x: Transfer, b: byte): Transfer
    requires ChipOk(x.chip)
  {
    var (chip, answer) := Exchange(x.chip, b);
    x.(chip := chip, inFlight := x.inFlight + [answer])
  }

  /** The transmit half of one pass of the loop. */
  function Transmit(x: Transfer, trdy: bool): Transfer
    requires ChipOk(x.chip)
  {
    if !trdy || x.credits <= 0 then x
    else
      var y := x.(credits := x.credits - 1);
      if y.next < |y.write| then Send(y.(next := y.next + 1), y.write[y.next])
      else if y.zeros > 0 then Send(y.(zeros := y.zeros - 1), 0)
      else y.(credits := -1024)
  }

  /** The receive half: the oldest byte in flight is ignored or stored. */
  function Receive(x: Transfer): Transfer
    requires x.inFlight != []
  {
    var y := x.(inFlight := x.inFlight[1..], credits := x.credits + 1);
    var z := if y.ignore > 0 then y.(ignore := y.ignore - 1) else y.(got := y.got + [x.inFlight[0]]);
    z.(finished := z.ignore == 0 && |z.got| == z.want)
  }

  /** One pass of the loop.  RRDY can be set only when a byte is waiting, and both bits were
      read before the pass acts on either. */
  function Poll(x: Transfer, trdy: bool, rrdy: bool): Transfer
    requires ChipOk(x.chip)
  {
    if rrdy && x.inFlight != [] then Receive(Transmit(x, trdy)) else Transmit(x, trdy)
  }

  /** What a reading of the status register shows; TMT is looked at only when the bytes are done. */
  datatype Status = Status(trdy: bool, rrdy: bool, tmt: bool)

  function Polls(x: Transfer, schedule: seq<Status>): (r: Transfer)
    requires ChipOk(x.chip)
    ensures ChipOk(r.chip)
    decreases |schedule|
  {
    if schedule == [] then x
    else
      var y := Polls(x, schedule[..|schedule| - 1]);
      if y.finished then y else Poll(y, schedule[|schedule| - 1].trdy, schedule[|schedule| - 1].rrdy)
  }

  /** The bytes the master has to send. */
  function Mosi(write: seq<byte>, want: nat): (r: seq<byte>)
    ensures |r| == |write| + want
  {
    write + Zeros(want)
  }

  function Sent(x: Transfer): int {
    x.next + x.want - x.zeros
  }

  /** The chip after each number of bytes of mosi. */
  function History(c: Chip, mosi: seq<byte>): (r: seq<Chip>)
    requires ChipOk(c)
    ensures |r| == |mosi| + 1
  {
    seq(|mosi| + 1, k requires 0 <= k <= |mosi| => Shifted(c, mosi[..k]))
  }

  /** Where a transfer stands, given how the chip goes through what it has to send and what it
      will answer: all bytes sent are answered but those in flight, and at most one is; the
      answers beyond the written bytes are stored. */
  predicate At(x: Transfer, chips: seq<Chip>, miso: seq<byte>) {
    var sent := Sent(x);
    var received := sent - |x.inFlight|;
    && |miso| == |x.write| + x.want && |chips| == |miso| + 1
    && x.next <= |x.write| && x.zeros <= x.want && (x.next < |x.write| ==> x.zeros == x.want)
    && 0 <= received
    && x.chip == chips[sent]
    && |x.inFlight| <= 1 && x.credits == 1 - |x.inFlight|
    && (x.inFlight != [] ==> x.inFlight[0] == miso[received])
    && x.ignore == (if received < |x.write| then |x.write| - received else 0)
    && |x.got| == (if received < |x.write| then 0 else received - |x.write|)
    && (forall i :: 0 <= i < |x.got| ==> x.got[i] == miso[|x.write| + i])
    && x.finished == (received == |miso| && |miso| > 0)
  }

  lemma StartAt(c: Chip, write: seq<byte>, want: nat)
    requires ChipOk(c)
    ensures At(Start(c, write, want), History(c, Mosi(write, want)), Answers(c, Mosi(write, want)))
  {
  }

  /** chips is how the chip goes through the bytes of mosi, answering miso. */
  predicate Dialogue(chips: seq<Chip>, mosi: seq<byte>, miso: seq<byte>) {
    && |chips| == |mosi| + 1 && |miso| == |mosi|
    && (forall k :: 0 <= k < |chips| ==> ChipOk(chips[k]))
    && forall k :: 0 <= k < |mosi| ==> Exchange(chips[k], mosi[k]) == (chips[k + 1], miso[k])
  }

  lemma HistoryIsDialogue(c: Chip, mosi: seq<byte>)
    requires ChipOk(c)
    ensures Dialogue(History(c, mosi), mosi, Answers(c, mosi))
  {
    forall k | 0 <= k < |mosi|
      ensures Exchange(History(c, mosi)[k], mosi[k]) == (History(c, mosi)[k + 1], Answers(c, mosi)[k])
    {
      OneMoreSent(c, mosi, k);
    }
  }

  lemma OneMoreSent(c: Chip, mosi: seq<byte>, sent: nat)
    requires ChipOk(c) && sent < |mosi|
    ensures Exchange(History(c, mosi)[sent], mosi[sent]) == (History(c, mosi)[sent + 1], Answers(c, mosi)[sent])
  {
    var front := mosi[..sent + 1];
    assert front[..sent] == mosi[..sent];
  }

  /** With a credit in hand and bytes left, the next byte of mosi goes out. */
  lemma TransmitSends(x: Transfer, mosi: seq<byte>)
    requires ChipOk(x.chip) && mosi == Mosi(x.write, x.want) && x.credits == 1
    requires x.next <= |x.write| && x.zeros <= x.want && (x.next < |x.write| ==> x.zeros == x.want)
    requires 0 <= Sent(x) < |mosi|
    ensures var (chip, answer) := Exchange(x.chip, mosi[Sent(x)]);
      var y := Transmit(x, true);
      && y == x.(credits := 0, next := y.next, zeros := y.zeros, chip := chip, inFlight := x.inFlight + [answer])
      && y.next <= |x.write| && y.zeros <= x.want && (y.next < |x.write| ==> y.zeros == x.want)
      && Sent(y) == Sent(x) + 1
  {
    assert x.next < |x.write| ==> mosi[Sent(x)] == x.write[x.next];
    assert x.next == |x.write| ==> mosi[Sent(x)] == 0;
  }

  lemma SentAt(x: Transfer, y: Transfer, chips: seq<Chip>, miso: seq<byte>)
    requires At(x, chips, miso) && x.inFlight == [] && Sent(x) < |miso| && Sent(y) == Sent(x) + 1
    requires y == x.(credits := 0, next := y.next, zeros := y.zeros,
                     chip := chips[Sent(x) + 1], inFlight := [miso[Sent(x)]])
    requires y.next <= |x.write| && y.zeros <= x.want && (y.next < |x.write| ==> y.zeros == x.want)
    ensures At(y, chips, miso)
  {
  }

  lemma ReceiveAt(x: Transfer, chips: seq<Chip>, miso: seq<byte>)
    requires At(x, chips, miso) && x.inFlight != []
    ensures At(Receive(x), chips, miso) && Sent(Receive(x)) == Sent(x) && Receive(x).inFlight == []
  {
  }

  /** How far a transfer is, counting each byte once when sent and once when answered. */
  function HalfSteps(x: Transfer): int {
    2 * Sent(x) - |x.inFlight|
  }

  lemma TransmitAt(x: Transfer, chips: seq<Chip>, mosi: seq<byte>, miso: seq<byte>)
    requires Dialogue(chips, mosi, miso) && mosi == Mosi(x.write, x.want) && mosi != []
    requires At(x, chips, miso) && !x.finished && x.inFlight == []
    ensures var y := Transmit(x, true);
      && At(y, chips, miso) && y.write == x.write && y.want == x.want
      && HalfSteps(y) == HalfSteps(x) + 1
  {
    TransmitSends(x, mosi);
    var y := Transmit(x, true);
    assert x.inFlight + [miso[Sent(x)]] == [miso[Sent(x)]];
    SentAt(x, y, chips, miso);
  }

  /** Any pass keeps the account; one with both bits set gets half a byte further. */
  lemma PollAt(x: Transfer, trdy: bool, rrdy: bool, chips: seq<Chip>, mosi: seq<byte>, miso: seq<byte>)
    requires Dialogue(chips, mosi, miso) && mosi == Mosi(x.write, x.want) && mosi != []
    requires At(x, chips, miso) && !x.finished
    ensures var y := Poll(x, trdy, rrdy);
      && At(y, chips, miso) && y.write == x.write && y.want == x.want
      && HalfSteps(y) >= HalfSteps(x) + if trdy && rrdy then 1 else 0
  {
    if x.inFlight != [] {
      assert Transmit(x, trdy) == x;
      if rrdy { ReceiveAt(x, chips, miso); }
    } else if trdy {
      TransmitAt(x, chips, mosi, miso);
    }
  }

  /** How many readings of the status register showed both bits. */
  function BothReady(schedule: seq<Status>): nat {
    if schedule == [] then 0
    else
      var last := schedule[|schedule| - 1];
      BothReady(schedule[..|schedule| - 1]) + if last.trdy && last.rrdy then 1 else 0
  }

  lemma {:induction false} PollsAt(c: Chip, write: seq<byte>, want: nat, schedule: seq<Status>)
    requires ChipOk(c) && |write| + want > 0
    ensures var x, mosi := Polls(Start(c, write, want), schedule), Mosi(write, want);
      && x.write == write && x.want == want
      && At(x, History(c, mosi), Answers(c, mosi))
      && (x.finished || HalfSteps(x) >= BothReady(schedule))
    decreases |schedule|
  {
    var mosi := Mosi(write, want);
    if schedule == [] {
      StartAt(c, write, want);
    } else {
      var n := |schedule| - 1;
      PollsAt(c, write, want, schedule[..n]);
      HistoryIsDialogue(c, mosi);
      var x := Polls(Start(c, write, want), schedule[..n]);
      if !x.finished {
        PollAt(x, schedule[n].trdy, schedule[n].rrdy, History(c, mosi), mosi, Answers(c, mosi));
      }
    }
  }

  /** Whatever the status register shows and when: the transfer never has two bytes in flight,
      never runs out into the -1024 credits arm, and when it ends it has sent exactly the
      written bytes and then `want` zeros, and stored exactly the last `want` answers.  It ends
      as soon as both status bits have been seen set twice for every byte. */
  lemma TransferExact(c: Chip, write: seq<byte>, want: nat, schedule: seq<Status>)
    requires ChipOk(c) && |write| + want > 0
    ensures var x, mosi := Polls(Start(c, write, want), schedule), Mosi(write, want);
      && x.credits + |x.inFlight| == 1 && |x.inFlight| <= 1
      && (x.finished ==> x.chip == Shifted(c, mosi) && x.got == Part(Answers(c, mosi), |write|, want))
      && (BothReady(schedule) >= 2 * |mosi| ==> x.finished)
  {
    PollsAt(c, write, want, schedule);
    var x, mosi := Polls(Start(c, write, want), schedule), Mosi(write, want);
    if x.finished {
      FinishedAt(x, History(c, mosi), Answers(c, mosi));
      assert mosi[..|mosi|] == mosi;
    }
  }

  lemma FinishedAt(x: Transfer, chips: seq<Chip>, miso: seq<byte>)
    requires At(x, chips, miso) && x.finished
    ensures x.chip == chips[|miso|] && |miso| == |x.write| + x.want && x.got == Part(miso, |x.write|, x.want)
  {
  }

  /** With nothing to write or read the loop never ends, whatever the status shows. */
  lemma {:induction false} EmptyTransferHangs(c: Chip, schedule: seq<Status>)
    requires ChipOk(c)
    ensures var x := Polls(Start(c, [], 0), schedule);
      !x.finished && x.inFlight == [] && x.next == 0 && x.zeros == 0 && x.write == []
    decreases |schedule|
  {
    if schedule != [] { EmptyTransferHangs(c, schedule[..|schedule| - 1]); }
  }
}
