/** The JTAG UART fast driver as it is written: the interrupt routine, and read and write as loops
    over the shared buffers that the interrupt routine may preempt between any two statements.
    What the device answers, and when it interrupts, is whatever `replies` and `controls` say. */
module JtagUart {
  import opened Bytes
  import opened UartRing
  import opened Words

  const EIO := 5
  const EWOULDBLOCK := 11

  /** A read of the data register: a byte if `valid`, and whether more are waiting. */
  datatype Reply = Reply(valid: bool, b: byte, more: bool)

  /** A read of the control register: interrupts pending, and room in the device. */
  datatype Control = Control(ri: bool, wi: bool, space: nat)

  /** What the k-th read of the data register gives; an answer that holds no byte announces none. */
  function Answer(replies: seq<Reply>, k: nat): Reply {
    if k < |replies| && replies[k].valid then replies[k] else Reply(false, 0, false)
  }

  /** The bytes in the first n answers. */
  function Given(replies: seq<Reply>, n: nat): seq<byte> {
    if n == 0 then []
    else
      var a := Answer(replies, n - 1);
      Given(replies, n - 1) + if a.valid then [a.b] else []
  }

  /** What the k-th read of the control register shows; in the end the device is quiet. */
  function Poll(controls: seq<Control>, k: nat): Control {
    if k < |controls| then controls[k] else Control(false, false, 0)
  }

  predicate Interrupts(c: Control) {
    c.ri || c.wi
  }

  /** How many of `held` bytes the device has room for when the controls from a up to b are served. */
  function Room(controls: seq<Control>, a: nat, b: nat, held: nat): (n: nat)
    requires a <= b
    ensures n <= held
    decreases b
  {
    if a == b then 0
    else
      var n := Room(controls, a, b - 1, held);
      var c := Poll(controls, b - 1);
      if c.wi then n + Min(c.space, held - n) else n
  }

  /** The receive interrupts among the controls from a up to b have been served: if there was one, `done`
      holds; if there was none, the device has not been asked for data. */
  ghost predicate Served(controls: seq<Control>, a: nat, b: nat, before: nat, asked: nat, done: bool) {
    && before <= asked
    && ((exists k :: a <= k < b && Poll(controls, k).ri) ==> done)
    && ((forall k :: a <= k < b ==> !Poll(controls, k).ri) ==> asked == before)
  }

  /** The controls from first up to b are served: `sent` of held0 bytes have gone, `held` are left. */
  ghost predicate ServedUpTo(controls: seq<Control>, first: nat, b: nat, before: nat, asked: nat, done: bool,
                             sent: int, held0: nat, held: nat)
  {
    && first <= b && (forall k :: first <= k < b ==> Interrupts(Poll(controls, k)))
    && Served(controls, first, b, before, asked, done)
    && sent == Room(controls, first, b, held0) && held == held0 - sent
  }

  lemma ServedNone(controls: seq<Control>, first: nat, asked: nat, done: bool, held: nat)
    ensures ServedUpTo(controls, first, first, asked, asked, done, 0, held, held)
  {
  }

  lemma ServedOneMore(controls: seq<Control>, first: nat, b: nat, before: nat, held0: nat,
                      asked: nat, done: bool, sent: int, held: nat, asked1: nat, done1: bool, sent1: int, held1: nat)
    requires ServedUpTo(controls, first, b, before, asked, done, sent, held0, held) && asked <= asked1
    requires var c := Poll(controls, b);
      && Interrupts(c) && (if c.ri then done1 else asked1 == asked && done1 == done)
      && sent1 == sent + (if c.wi then Min(c.space, held) else 0) && held1 == held - (sent1 - sent)
    ensures ServedUpTo(controls, first, b + 1, before, asked1, done1, sent1, held0, held1)
  {
    ServedNext(controls, first, b, before, asked, done, asked1, done1);
  }

  lemma ServedNext(controls: seq<Control>, a: nat, b: nat, before: nat, asked: nat, done: bool,
                   asked1: nat, done1: bool)
    requires a <= b && Served(controls, a, b, before, asked, done) && asked <= asked1
    requires if Poll(controls, b).ri then done1 else asked1 == asked && done1 == done
    ensures Served(controls, a, b + 1, before, asked1, done1)
  {
    if forall k :: a <= k < b + 1 ==> !Poll(controls, k).ri {
      assert forall k :: a <= k < b ==> !Poll(controls, k).ri;
    }
  }

  /** The driver's state and what has passed through it: `received` from the device, of which
      readers have taken `consumed`; `accepted` from writers, of which the device got `transmitted`.
      A reader or writer owes a wakeup between moving its index and enabling the interrupt. */
  datatype View = View(
    rx: Ring, tx: Ring, re: bool, we: bool,
    received: seq<byte>, consumed: seq<byte>, accepted: seq<byte>, transmitted: seq<byte>,
    readerOwes: bool, writerOwes: bool, readReady: bool, writeReady: bool)

  predicate ViewOk(v: View) {
    && RingOk(v.rx) && RingOk(v.tx)
    && v.received == v.consumed + Contents(v.rx)
    && v.accepted == v.transmitted + Contents(v.tx)
    && (v.re || Full(v.rx) || v.readerOwes)
    && (v.we || Held(v.tx) == 0 || v.writerOwes)
  }

  /** What the interrupt routine may have done in between: it only adds to the receive ring and
      takes from the transmit ring, and posts a flag just if it did. */
  predicate Later(v: View, w: View) {
    Moved(v, w) && Posted(v, w)
  }

  predicate Posted(v: View, w: View) {
    && w.readReady == (v.readReady || |w.received| > |v.received|)
    && w.writeReady == (v.writeReady || |w.transmitted| > |v.transmitted|)
  }

  predicate Moved(v: View, w: View) {
    && RingOk(v.rx) && RingOk(v.tx) && RingOk(w.rx) && RingOk(w.tx)
    && w.rx.output == v.rx.output && Contents(v.rx) <= Contents(w.rx)
    && w.tx.input == v.tx.input && w.tx.cells == v.tx.cells && Held(w.tx) <= Held(v.tx)
    && v.received <= w.received && w.consumed == v.consumed
    && w.accepted == v.accepted && v.transmitted <= w.transmitted
    && w.readerOwes == v.readerOwes && w.writerOwes == v.writerOwes
  }

  /** What the device got, the ring lost. */
  lemma SentIsTaken(v: View, w: View)
    requires ViewOk(v) && ViewOk(w) && w.accepted == v.accepted
    ensures |w.transmitted| - |v.transmitted| == Held(v.tx) - Held(w.tx)
  {
    assert |v.accepted| == |v.transmitted| + Held(v.tx) && |w.accepted| == |w.transmitted| + Held(w.tx);
  }

  lemma FlagsFree(v: View, readReady: bool, writeReady: bool)
    requires ViewOk(v)
    ensures ViewOk(v.(readReady := readReady, writeReady := writeReady))
  {
  }

  lemma FlagsCleared(v: View, u: View, w: View)
    requires Moved(v, u) && ViewOk(u) && w == u.(readReady := w.readReady, writeReady := w.writeReady)
    ensures Moved(v, w) && ViewOk(w)
  {
  }

  /** The same, and bytes have been stored in the transmit buffer. */
  predicate LaterBut(v: View, w: View) {
    Later(v.(tx := v.tx.(cells := w.tx.cells)), w)
  }

  lemma LaterButChain(u: View, v: View, w: View)
    requires LaterBut(u, v) && LaterBut(v, w)
    ensures LaterBut(u, w)
  {
  }

  lemma CellsLater(v: View, u: View, w: View)
    requires u == v.(tx := v.tx.(cells := u.tx.cells)) && Later(u, w)
    ensures LaterBut(v, w)
  {
  }

  lemma LaterButWritten(v: View, w: View, x: View)
    requires Later(v, w) && LaterBut(w, x)
    ensures WrittenSoFar(v, x, []) && Posted(v, x)
  {
  }

  lemma LaterRead(v: View, w: View)
    requires Later(v, w)
    ensures ReadSoFar(v, w, []) && Posted(v, w)
  {
  }

  lemma TakenSoFar(v: View, w: View, x: View, data: seq<byte>)
    requires Later(v, w) && w.rx.output + |data| <= BUF_LEN && x == Taken(w, data)
    ensures ReadSoFar(v, x, data) && Posted(v, x)
  {
  }

  lemma LaterWritten(v: View, w: View)
    requires Later(v, w)
    ensures WrittenSoFar(v, w, []) && Posted(v, w)
  {
  }

  lemma EnqueuedSoFar(v: View, w: View, x: View, data: seq<byte>)
    requires WrittenSoFar(v, w, []) && Posted(v, w) && RingOk(w.tx) && w.tx.input + |data| <= BUF_LEN
    requires x == Enqueued(w, data)
    ensures WrittenSoFar(v, x, data) && Posted(v, x)
  {
  }

  lemma PostedChain(u: View, v: View, w: View)
    requires Posted(u, v) && Posted(v, w)
    requires |u.received| <= |v.received| <= |w.received| && |u.transmitted| <= |v.transmitted| <= |w.transmitted|
    ensures Posted(u, w)
  {
  }

  lemma LaterChain(u: View, v: View, w: View)
    requires Later(u, v) && Later(v, w)
    ensures Later(u, w)
  {
  }

  /** What a reader has done: taken data from the receive ring; the rest as the interrupt routine may. */
  predicate ReadSoFar(v: View, w: View, data: seq<byte>) {
    && RingOk(v.tx) && RingOk(w.tx)
    && v.received <= w.received && w.consumed == v.consumed + data
    && w.tx.input == v.tx.input && w.tx.cells == v.tx.cells && Held(w.tx) <= Held(v.tx)
    && w.accepted == v.accepted && v.transmitted <= w.transmitted && w.writerOwes == v.writerOwes
  }

  lemma ReadOn(u: View, v: View, w: View, data: seq<byte>)
    requires ReadSoFar(u, v, data) && Moved(v, w)
    ensures ReadSoFar(u, w, data)
  {
  }

  /** What a writer has done: added data to the transmit ring; the rest as the interrupt routine may. */
  predicate WrittenSoFar(v: View, w: View, data: seq<byte>) {
    && RingOk(v.rx) && RingOk(w.rx)
    && w.rx.output == v.rx.output && Contents(v.rx) <= Contents(w.rx)
    && v.received <= w.received && w.consumed == v.consumed && w.readerOwes == v.readerOwes
    && w.accepted == v.accepted + data && v.transmitted <= w.transmitted
  }

  lemma WrittenOn(u: View, v: View, w: View, data: seq<byte>)
    requires WrittenSoFar(u, v, data) && Moved(v, w)
    ensures WrittenSoFar(u, w, data)
  {
  }

  // ---------------------------------------------------------------- what each statement does

  /** A byte from the device is stored. */
  function Stored(v: View, b: byte): View
    requires RingOk(v.rx)
  {
    v.(rx := Put(v.rx, b), received := v.received + [b], readReady := true)
  }

  lemma StoredOk(v: View, b: byte)
    requires ViewOk(v) && !Full(v.rx)
    ensures ViewOk(Stored(v, b)) && Later(v, Stored(v, b))
  {
    PutAppends(v.rx, b);
    Regroup(v.consumed, Contents(v.rx), [b]);
  }

  /** A byte is given to the device. */
  function Sent(v: View): View
    requires RingOk(v.tx)
  {
    v.(tx := v.tx.(output := Wrap(v.tx.output + 1)), transmitted := v.transmitted + [v.tx.cells[v.tx.output]],
       writeReady := true)
  }

  lemma SentOk(v: View)
    requires ViewOk(v) && v.tx.output != v.tx.input
    ensures ViewOk(Sent(v)) && Later(v, Sent(v))
  {
    var b := v.tx.cells[v.tx.output];
    CellIsContents(v.tx, 0);
    TakeDrops(v.tx, [b]);
    Regroup(v.transmitted, [b], Contents(Sent(v).tx));
  }

  /** A reader publishes that it has taken data. */
  function Taken(v: View, data: seq<byte>): View
    requires RingOk(v.rx) && v.rx.output + |data| <= BUF_LEN
  {
    v.(rx := v.rx.(output := Wrap(v.rx.output + |data|)), consumed := v.consumed + data, readerOwes := true)
  }

  lemma TakenOk(v: View, data: seq<byte>)
    requires ViewOk(v) && v.rx.output + |data| <= BUF_LEN && data <= Contents(v.rx)
    ensures ViewOk(Taken(v, data))
  {
    TakeDrops(v.rx, data);
    Regroup(v.consumed, data, Contents(Taken(v, data).rx));
  }

  /** A writer publishes bytes it has stored. */
  function Enqueued(v: View, data: seq<byte>): View
    requires RingOk(v.tx) && v.tx.input + |data| <= BUF_LEN
  {
    v.(tx := v.tx.(input := Wrap(v.tx.input + |data|)), accepted := v.accepted + data, writerOwes := true)
  }

  lemma EnqueuedOk(v: View, data: seq<byte>)
    requires ViewOk(v) && v.tx.input + |data| <= BUF_LEN && |data| <= BUF_LEN - 1 - Held(v.tx)
    requires forall k :: v.tx.input <= k < v.tx.input + |data| ==> v.tx.cells[k] == data[k - v.tx.input]
    ensures ViewOk(Enqueued(v, data))
  {
    PublishAppends(v.tx, data);
    Regroup(v.transmitted, Contents(v.tx), data);
  }

  // ---------------------------------------------------------------- the driver

  class Uart {
    const rxBuf: array<byte>
    const txBuf: array<byte>
    const replies: seq<Reply>
    const controls: seq<Control>
    var asked: nat                          // reads of the data register so far
    var polled: nat                         // reads of the control register so far
    var rxIn: nat
    var rxOut: nat
    var txIn: nat
    var txOut: nat
    var re: bool
    var we: bool
    var readReady: bool
    var writeReady: bool
    var timeout: bool
    ghost var received: seq<byte>
    ghost var consumed: seq<byte>
    ghost var accepted: seq<byte>
    ghost var transmitted: seq<byte>
    ghost var readerOwes: bool
    ghost var writerOwes: bool
    ghost var timeouts: nat                 // how often the host has timed out
    ghost var pends: nat                    // how often anyone has waited for a flag
    ghost var staleWrite: bool              // WRITE_RDY as it was when tx_out was last read

    ghost function Now(): View
      reads this, rxBuf, txBuf
    {
      View(Ring(rxBuf[..], rxIn, rxOut), Ring(txBuf[..], txIn, txOut), re, we,
           received, consumed, accepted, transmitted, readerOwes, writerOwes, readReady, writeReady)
    }

    /** Whatever the device has been asked for is accounted for, in order. */
    ghost predicate Valid()
      reads this, rxBuf, txBuf
    {
      rxBuf != txBuf && ViewOk(Now()) && received == Given(replies, asked)
    }

    /** The last answer held no byte. */
    predicate NoByte()
      reads this
    {
      asked > 0 && !Answer(replies, asked - 1).valid
    }

    /** altera_avalon_jtag_uart_init. */
    constructor (replies: seq<Reply>, controls: seq<Control>)
      ensures Valid() && fresh(rxBuf) && fresh(txBuf) && this.replies == replies && this.controls == controls
      ensures received == consumed == accepted == transmitted == [] && re && !readerOwes && !writerOwes
      ensures asked == polled == timeouts == pends == 0 && !readReady && !writeReady && !timeout
    {
      rxBuf := new byte[BUF_LEN](i => 0);
      txBuf := new byte[BUF_LEN](i => 0);
      rxIn, rxOut, txIn, txOut := 0, 0, 0, 0;
      re, we, readReady, writeReady, timeout := true, false, false, false, false;
      this.replies, this.controls, asked, polled := replies, controls, 0, 0;
      received, consumed, accepted, transmitted, readerOwes, writerOwes := [], [], [], [], false, false;
      timeouts, pends, staleWrite := 0, 0, false;
    }

    /** Read the data register. */
    method ReadData() returns (r: Reply)
      modifies `asked
      ensures asked == old(asked) + 1 && r == Answer(replies, old(asked))
    {
      r := if asked < |replies| && replies[asked].valid then replies[asked] else Reply(false, 0, false);
      asked := asked + 1;
    }

    method ReadControl() returns (c: Control)
      modifies `polled
      ensures polled == old(polled) + 1 && c == Poll(controls, old(polled))
    {
      c := if polled < |controls| then controls[polled] else Control(false, false, 0);
      polled := polled + 1;
    }

    method StoreReceived(b: byte)
      requires rxBuf != txBuf && ViewOk(Now()) && !Full(Now().rx)
      modifies this`rxIn, this`readReady, this`received, rxBuf
      ensures ViewOk(Now()) && Now() == Stored(old(Now()), b)
    {
      ghost var v := Now();
      StoredOk(v, b);
      WrapIsMod(rxIn + 1);
      rxBuf[rxIn] := b;
      rxIn := (rxIn + 1) % BUF_LEN;
      readReady := true;
      received := received + [b];
      assert rxBuf[..] == v.rx.cells[v.rx.input := b];
    }

    /** One turn of the inner loop of the receive half: a read of the data register, and, if it holds a
        byte, storing that byte. */
    method TakeReply() returns (r: Reply)
      requires Valid() && !Full(Now().rx)
      modifies this`rxIn, this`readReady, this`received, this`asked, rxBuf
      ensures Valid() && asked == old(asked) + 1 && r == Answer(replies, old(asked))
      ensures r.valid ==> asked <= |replies|
      ensures Later(old(Now()), Now())
    {
      ghost var v := Now();
      r := ReadData();
      assert Now() == v;
      if r.valid {
        StoredOk(v, r.b);
        StoreReceived(r.b);
      }
    }

    /** The inner loop of the receive half of the interrupt routine; `more` is whether the last
        answer announced more, or there was no asking.  It stops only when the ring is full or an
        answer holds no byte. */
    method FillRing() returns (more: bool)
      requires Valid()
      modifies this`rxIn, this`readReady, this`received, this`asked, rxBuf
      ensures Valid() && Later(old(Now()), Now())
      ensures Full(Now().rx) || (asked > old(asked) && NoByte())
      ensures more == (asked == old(asked) || Answer(replies, asked - 1).more)
      ensures old(Full(Now().rx)) ==> asked == old(asked)
      ensures old(asked) <= asked && re == old(re) && (more ==> Full(Now().rx))
    {
      ghost var v := Now();
      more := true;
      var stop := false;
      while !stop
        invariant Valid() && Later(v, Now()) && Filling(v, old(asked), more)
        invariant stop ==> Full(Now().rx) || (asked > old(asked) && NoByte())
        decreases !stop, if asked < |replies| then |replies| - asked else 0
      {
        more, stop := FillStep(v, old(asked), more);
      }
    }

    /** How far the inner loop has come, from v on. */
    ghost predicate Filling(v: View, before: nat, more: bool)
      reads this
    {
      && before <= asked && more == (asked == before || Answer(replies, asked - 1).more)
      && RingOk(v.rx) && (asked > before ==> !Full(v.rx))
    }

    /** One turn of it. */
    method FillStep(ghost v: View, ghost before: nat, last: bool) returns (more: bool, stop: bool)
      requires Valid() && Later(v, Now()) && Filling(v, before, last)
      modifies this`rxIn, this`readReady, this`received, this`asked, rxBuf
      ensures Valid() && Later(v, Now()) && Filling(v, before, more)
      ensures if stop then Full(Now().rx) || (asked > before && NoByte()) else asked == old(asked) + 1 <= |replies|
    {
      more := last;
      var next := (rxIn + 1) % BUF_LEN;
      WrapIsMod(rxIn + 1);
      stop := next == rxOut;
      if !stop {
        ghost var u := Now();
        var r := TakeReply();
        LaterChain(v, u, Now());
        more := r.more;
        stop := !r.valid;
      }
    }

    /** The receive half.  It turns its interrupt off just if the last answer announced more, or the
        ring was full before anything could be asked, and so only when the ring is full. */
    method ReceiveInterrupt()
      requires Valid()
      modifies this`rxIn, this`readReady, this`received, this`re, this`asked, rxBuf
      ensures Valid() && Later(old(Now()), Now())
      ensures Full(Now().rx) || (asked > old(asked) && NoByte())
      ensures re == (old(re) && asked > old(asked) && !Answer(replies, asked - 1).more)
      ensures old(asked) <= asked && (old(Full(Now().rx)) ==> asked == old(asked))
    {
      var more := FillRing();
      if more {
        re := false;
      }
    }

    method SendStored()
      requires Valid() && txOut != txIn
      modifies this`txOut, this`writeReady, this`transmitted
      ensures Valid() && Now() == Sent(old(Now()))
    {
      SentOk(Now());
      WrapIsMod(txOut + 1);
      transmitted := transmitted + [txBuf[txOut]];
      txOut := (txOut + 1) % BUF_LEN;
      writeReady := true;
    }

    /** One turn of the loop of the transmit half, which began in v. */
    method SendNext(ghost v: View)
      requires Valid() && Later(v, Now()) && txOut != txIn
      modifies this`txOut, this`writeReady, this`transmitted
      ensures Valid() && Later(v, Now()) && Held(Now().tx) == old(Held(Now().tx)) - 1
    {
      ghost var u := Now();
      SentOk(u);
      SendStored();
      LaterChain(v, u, Now());
    }

    /** The transmit half: it sends what there is and fits, and turns its interrupt off just if
        there was room for more. */
    method TransmitInterrupt(room: nat)
      requires Valid()
      modifies this`txOut, this`writeReady, this`transmitted, this`we
      ensures Valid() && Later(old(Now()), Now())
      ensures |transmitted| == |old(transmitted)| + Min(room, old(Held(Now().tx)))
      ensures we == (old(we) && room <= old(Held(Now().tx)))
    {
      ghost var v := Now();
      var space := room;
      while space > 0 && txOut != txIn
        invariant Valid() && Later(v, Now()) && we == old(we)
        invariant 0 <= space <= room && Held(Now().tx) == Held(v.tx) - (room - space)
      {
        SendNext(v);
        space := space - 1;
      }
      SentIsTaken(v, Now());
      if space > 0 {
        we := false;
      }
    }

    /** altera_avalon_jtag_uart_irq: any number of runs of it, for as long as the device interrupts.
        Between two statements of a task this may happen.  Every interrupt shown is served: after a
        receive interrupt the ring is full or the device has no byte, and for the transmit
        interrupts as many bytes have gone out as there were and the device had room for. */
    method Preempt()
      requires Valid()
      modifies this`rxIn, this`readReady, this`received, this`re, this`asked, rxBuf
      modifies this`txOut, this`writeReady, this`transmitted, this`we, this`polled
      ensures Valid() && Later(old(Now()), Now())
      ensures polled > old(polled) && !Interrupts(Poll(controls, polled - 1))
      ensures forall k :: old(polled) <= k < polled - 1 ==> Interrupts(Poll(controls, k))
      ensures Served(controls, old(polled), polled - 1, old(asked), asked, Full(Now().rx) || NoByte())
      ensures |transmitted| == |old(transmitted)| + Room(controls, old(polled), polled - 1, old(Held(Now().tx)))
    {
      ghost var v, first := Now(), polled;
      ServedNone(controls, first, asked, Full(v.rx) || NoByte(), Held(v.tx));
      var control := ReadControl();
      assert Now() == v;
      while Interrupts(control)
        invariant Valid() && Later(v, Now()) && first < polled && control == Poll(controls, polled - 1)
        invariant UpTo(first, polled - 1, old(asked), v)
        decreases if polled <= |controls| then |controls| - polled else 0, if Interrupts(control) then 1 else 0
      {
        control := ServeAndRead(first, old(asked), control, v);
      }
    }

    /** The loop of the interrupt routine, which began in v by reading control `first`, has served those
        up to b. */
    ghost predicate UpTo(first: nat, b: nat, before: nat, v: View)
      reads this, rxBuf, txBuf
    {
      && RingOk(v.tx) && RingOk(Now().rx) && RingOk(Now().tx)
      && ServedUpTo(controls, first, b, before, asked, Full(Now().rx) || NoByte(),
                    |transmitted| - |v.transmitted|, Held(v.tx), Held(Now().tx))
    }

    method ServeAndRead(ghost first: nat, ghost before: nat, control: Control, ghost v: View) returns (next: Control)
      requires Valid() && Later(v, Now()) && first < polled && UpTo(first, polled - 1, before, v)
      requires control == Poll(controls, polled - 1) && Interrupts(control)
      modifies this`rxIn, this`readReady, this`received, this`re, this`asked, rxBuf
      modifies this`txOut, this`writeReady, this`transmitted, this`we, this`polled
      ensures Valid() && Later(v, Now()) && polled == old(polled) + 1 && UpTo(first, polled - 1, before, v)
      ensures next == Poll(controls, polled - 1)
    {
      ServeNext(first, before, control, polled - 1, v);
      ghost var w := Now();
      next := ReadControl();
      assert Now() == w;
    }

    method ServeNext(ghost first: nat, ghost before: nat, control: Control, ghost b: nat, ghost v: View)
      requires Valid() && Later(v, Now()) && UpTo(first, b, before, v)
      requires control == Poll(controls, b) && Interrupts(control)
      modifies this`rxIn, this`readReady, this`received, this`re, this`asked, rxBuf
      modifies this`txOut, this`writeReady, this`transmitted, this`we
      ensures Valid() && Later(v, Now()) && UpTo(first, b + 1, before, v)
    {
      ghost var u := Now();
      ghost var asked0, done0, sent := asked, Full(u.rx) || NoByte(), |transmitted| - |v.transmitted|;
      Serve(control);
      LaterChain(v, u, Now());
      SentIsTaken(u, Now());
      ServedOneMore(controls, first, b, before, Held(v.tx), asked0, done0, sent, Held(u.tx),
                    asked, Full(Now().rx) || NoByte(), |transmitted| - |v.transmitted|, Held(Now().tx));
    }

    /** One turn of its loop. */
    method Serve(control: Control)
      requires Valid()
      modifies this`rxIn, this`readReady, this`received, this`re, this`asked, rxBuf
      modifies this`txOut, this`writeReady, this`transmitted, this`we
      ensures Valid() && Later(old(Now()), Now())
      ensures old(asked) <= asked && (control.ri ==> Full(Now().rx) || NoByte())
      ensures !control.ri ==> asked == old(asked) && rxIn == old(rxIn)
      ensures |transmitted| == |old(transmitted)| + if control.wi then Min(control.space, old(Held(Now().tx))) else 0
    {
      ghost var u := Now();
      if control.ri {
        ReceiveInterrupt();
      }
      ghost var v := Now();
      if control.wi {
        TransmitInterrupt(control.space);
      }
      LaterChain(u, v, Now());
    }

    /** Time passes: the device interrupts, or, if it has nothing more to say, the host timeout comes. */
    method Idle()
      requires Valid()
      modifies this`rxIn, this`readReady, this`received, this`re, this`asked, rxBuf
      modifies this`txOut, this`writeReady, this`transmitted, this`we, this`polled, this`timeout, this`timeouts
      ensures Valid() && Later(old(Now()), Now())
      ensures timeouts >= old(timeouts) && (timeout ==> old(timeout) || timeouts > old(timeouts))
      ensures timeout || old(polled) < polled
      ensures !timeout ==> old(polled) < |controls|
    {
      if polled >= |controls| {
        timeout, timeouts := true, timeouts + 1;
      } else {
        Preempt();
      }
    }

    /** Time passes until the flag is set or the host has timed out. */
    method AwaitFlag(forRead: bool)
      requires Valid()
      modifies this`rxIn, this`readReady, this`received, this`re, this`asked, rxBuf
      modifies this`txOut, this`writeReady, this`transmitted, this`we, this`polled, this`timeout, this`timeouts
      ensures Valid() && Later(old(Now()), Now())
      ensures timeouts >= old(timeouts) && (timeout ==> old(timeout) || timeouts > old(timeouts))
      ensures timeout || if forRead then readReady else writeReady
    {
      ghost var v := Now();
      while !timeout && !(if forRead then readReady else writeReady)
        invariant Valid() && Later(v, Now())
        invariant timeouts >= old(timeouts) && (timeout ==> old(timeout) || timeouts > old(timeouts))
        decreases !timeout, if polled < |controls| then |controls| - polled else 0
      {
        ghost var u := Now();
        Idle();
        LaterChain(v, u, Now());
      }
    }

    /** ALT_FLAG_PEND: wait for the flag or the timeout, and consume them.  It returns because the host
        has timed out, or because the flag was set before or has been posted meanwhile. */
    method FlagPend(forRead: bool)
      requires Valid()
      modifies this`rxIn, this`readReady, this`received, this`re, this`asked, rxBuf
      modifies this`txOut, this`writeReady, this`transmitted, this`we, this`polled
      modifies this`timeout, this`timeouts, this`pends
      ensures Valid() && Moved(old(Now()), Now())
      ensures pends == old(pends) + 1 && timeouts >= old(timeouts) && !timeout
      ensures old(timeout) || timeouts > old(timeouts) ||
        if forRead then old(readReady) || |received| > |old(received)|
        else old(writeReady) || |transmitted| > |old(transmitted)|
      ensures if forRead then !readReady else !writeReady
    {
      ghost var v := Now();
      AwaitFlag(forRead);
      ghost var u := Now();
      ConsumeFlags(forRead);
      FlagsCleared(v, u, Now());
    }

    method ConsumeFlags(forRead: bool)
      requires Valid()
      modifies this`readReady, this`writeReady, this`timeout, this`pends
      ensures Valid() && pends == old(pends) + 1 && !timeout
      ensures Now() == if forRead then old(Now()).(readReady := false) else old(Now()).(writeReady := false)
    {
      ghost var v := Now();
      if forRead {
        readReady := false;
      } else {
        writeReady := false;
      }
      pends, timeout := pends + 1, false;
      FlagsFree(v, readReady, writeReady);
      assert Now() == v.(readReady := readReady, writeReady := writeReady);
    }

    // -------------------------------------------------------------- reading

    /** memcpy out of the receive ring, preempted at every byte. */
    method CopyOut(n: nat) returns (piece: seq<byte>)
      requires Valid() && n <= Held(Now().rx) && rxOut + n <= BUF_LEN
      modifies this`rxIn, this`readReady, this`received, this`re, this`asked, rxBuf
      modifies this`txOut, this`writeReady, this`transmitted, this`we, this`polled
      ensures Valid() && Later(old(Now()), Now())
      ensures |piece| == n && piece <= old(Contents(Now().rx))
    {
      ghost var v := Now();
      piece := [];
      while |piece| < n
        invariant Valid() && Later(v, Now())
        invariant |piece| <= n && piece <= Contents(v.rx)
      {
        ghost var u := Now();
        var b := CopyByte(|piece|);
        LaterChain(v, u, Now());
        piece := piece + [b];
      }
    }

    /** One byte of it. */
    method CopyByte(k: nat) returns (b: byte)
      requires Valid() && k < Held(Now().rx) && rxOut + k < BUF_LEN
      modifies this`rxIn, this`readReady, this`received, this`re, this`asked, rxBuf
      modifies this`txOut, this`writeReady, this`transmitted, this`we, this`polled
      ensures Valid() && Later(old(Now()), Now()) && b == old(Contents(Now().rx))[k]
    {
      CellIsContents(Now().rx, k);
      b := rxBuf[rxOut + k];
      Preempt();
    }

    /** Read both indices and work out how many bytes can be taken in one piece. */
    method Measure() returns (n: nat, input: nat)
      requires Valid()
      modifies this`rxIn, this`readReady, this`received, this`re, this`asked, rxBuf
      modifies this`txOut, this`writeReady, this`transmitted, this`we, this`polled
      ensures Valid() && Later(old(Now()), Now())
      ensures n <= Held(Now().rx) && rxOut + n <= BUF_LEN
      ensures n == 0 ==> input == rxOut && old(Contents(Now().rx)) == []
    {
      Preempt();
      input := rxIn;
      ghost var v := Now();
      Preempt();
      LaterChain(old(Now()), v, Now());
      var out := rxOut;
      n := if input >= out then input - out else BUF_LEN - out;
    }

    method PublishTaken(piece: seq<byte>)
      requires Valid() && piece <= Contents(Now().rx) && rxOut + |piece| <= BUF_LEN
      modifies this`rxOut, this`consumed, this`readerOwes
      ensures Valid() && Now() == Taken(old(Now()), piece)
    {
      ghost var v := Now();
      TakenOk(v, piece);
      WrapIsMod(rxOut + |piece|);
      rxOut := (rxOut + |piece|) % BUF_LEN;
      consumed := consumed + piece;
      readerOwes := true;
      assert Now() == Taken(v, piece);
    }

    /** One turn of the do-while loop of altera_avalon_jtag_uart_read; no data means the ring
        was empty when rx_in, returned as `input`, was read. */
    method TakePiece(space: nat) returns (piece: seq<byte>, input: nat)
      requires Valid() && space > 0
      modifies this`rxIn, this`readReady, this`received, this`re, this`asked, rxBuf
      modifies this`txOut, this`writeReady, this`transmitted, this`we, this`polled
      modifies this`rxOut, this`consumed, this`readerOwes
      ensures Valid() && ReadSoFar(old(Now()), Now(), piece) && Posted(old(Now()), Now())
      ensures |piece| <= space && readerOwes == (old(readerOwes) || piece != [])
      ensures piece == [] ==> input == rxOut && old(Contents(Now().rx)) == []
    {
      ghost var v := Now();
      var n;
      n, input := Measure();
      piece := [];
      LaterRead(v, Now());
      if n != 0 {
        n := if n > space then space else n;
        ghost var u := Now();
        piece := CopyOut(n);
        LaterChain(v, u, Now());
        ghost var w := Now();
        PublishTaken(piece);
        TakenSoFar(v, w, Now(), piece);
      }
    }

    /** altera_avalon_jtag_uart_read: first the do-while loop. */
    method TakeAvailable(space: nat) returns (data: seq<byte>, input: nat)
      requires Valid() && space > 0 && !readerOwes
      modifies this`rxIn, this`readReady, this`received, this`re, this`asked, rxBuf
      modifies this`txOut, this`writeReady, this`transmitted, this`we, this`polled
      modifies this`rxOut, this`consumed, this`readerOwes
      ensures Valid() && ReadSoFar(old(Now()), Now(), data) && Posted(old(Now()), Now())
      ensures |data| <= space && readerOwes == (data != [])
      ensures |data| == space || |data| >= |old(Contents(Now().rx))|
      ensures data == [] ==> input == rxOut
    {
      ghost var v := Now();
      data, input := TakePiece(space);
      var more := data != [];
      assert v.received == v.consumed + Contents(v.rx);
      while more && |data| < space
        invariant Valid() && ReadSoFar(v, Now(), data) && Posted(v, Now())
        invariant |data| <= space && readerOwes == (data != [])
        invariant !more ==> |consumed| >= |v.received|
        invariant data == [] ==> input == rxOut && !more
        decreases space - |data|, more
      {
        ghost var u := Now();
        var piece;
        piece, input := TakePiece(space - |data|);
        more := piece != [];
        ReadMore(v, u, Now(), data, piece);
        data := data + piece;
      }
    }

    /** Wait for READ_RDY, and see whether bytes have come since rx_in was read as `input`. */
    method AwaitBytes(input: nat, ghost stale: bool) returns (moved: bool)
      requires Valid() && input == rxOut && (readReady ==> stale || rxIn != input)
      modifies this`rxIn, this`readReady, this`received, this`re, this`asked, rxBuf
      modifies this`txOut, this`writeReady, this`transmitted, this`we, this`polled
      modifies this`timeout, this`timeouts, this`pends
      ensures Valid() && Moved(old(Now()), Now()) && !readReady && !timeout
      ensures pends == old(pends) + 1 && timeouts >= old(timeouts)
      ensures moved == (rxIn != input) && (moved ==> Contents(Now().rx) != [])
      ensures !moved ==> stale || old(timeout) || timeouts > old(timeouts)
    {
      ghost var v := Now();
      FlagPend(true);
      moved := rxIn != input;
      assert |received| == |consumed| + Held(Now().rx) && |v.received| == |v.consumed| + Held(v.rx);
    }

    /** altera_avalon_jtag_uart_read.  It returns the oldest bytes received that no reader has
        had, in order, and at least all that were waiting when it was called if they fit; and it
        leaves receive interrupts enabled unless the ring is full again.  If it waits in vain, the
        host has timed out, or a flag was left over from before; if it is not to wait, it does not. */
    method Read(space: nat, wait: bool) returns (code: int, data: seq<byte>)
      requires Valid() && !readerOwes
      modifies this`rxIn, this`readReady, this`received, this`re, this`asked, rxBuf
      modifies this`txOut, this`writeReady, this`transmitted, this`we, this`polled
      modifies this`timeout, this`timeouts, this`pends
      modifies this`rxOut, this`consumed, this`readerOwes
      ensures Valid() && !readerOwes && ReadSoFar(old(Now()), Now(), data)
      ensures |data| <= space && (|data| == space || |data| >= |old(Contents(Now().rx))|)
      ensures code == if data != [] then |data| else if wait then -EIO else -EWOULDBLOCK
      ensures data != [] ==> re
      ensures wait && space > 0 && data == [] ==>
        pends > old(pends) && (old(readReady) || old(timeout) || timeouts > old(timeouts))
      ensures !wait || space == 0 ==>
        pends == old(pends) && timeout == old(timeout) && timeouts == old(timeouts) && Posted(old(Now()), Now())
    {
      ghost var v := Now();
      var more := true;
      data := [];
      while space > 0 && more
        invariant Valid() && ReadSoFar(v, Now(), data) && readerOwes == (data != []) && |data| <= space
        invariant if more then data == [] && Held(v.rx) <= Held(Now().rx) else |data| == space || |data| >= Held(v.rx)
        invariant timeouts >= old(timeouts) && pends >= old(pends)
        invariant Untouched(v, old(timeout), old(timeouts), old(pends)) || !more || (wait && Held(Now().rx) > 0)
        invariant space == 0 ==> more && Untouched(v, old(timeout), old(timeouts), old(pends))
        invariant wait && !more && data == [] ==>
          pends > old(pends) && (v.readReady || old(timeout) || timeouts > old(timeouts))
        invariant !wait ==>
          pends == old(pends) && timeout == old(timeout) && timeouts == old(timeouts) && Posted(v, Now())
        decreases more, Held(Now().rx) == 0
      {
        ghost var u := Now();
        data, more := ReadTurn(space, wait);
        ReadMore(v, u, Now(), [], data);
        assert [] + data == data;
      }
      if data != [] {
        re := true;
        readerOwes := false;
      }
      code := if data != [] then |data| else if wait then -EIO else -EWOULDBLOCK;
    }

    /** No turn of the outer loop has been made yet. */
    ghost predicate Untouched(v: View, timeout0: bool, timeouts0: nat, pends0: nat)
      reads this, rxBuf, txBuf
    {
      Now() == v && timeout == timeout0 && timeouts == timeouts0 && pends == pends0
    }

    /** One turn of the outer loop of altera_avalon_jtag_uart_read: take what there is, and if there is
        nothing wait, and go round again just if bytes have come. */
    method ReadTurn(space: nat, wait: bool) returns (data: seq<byte>, more: bool)
      requires Valid() && !readerOwes && space > 0
      modifies this`rxIn, this`readReady, this`received, this`re, this`asked, rxBuf
      modifies this`txOut, this`writeReady, this`transmitted, this`we, this`polled
      modifies this`timeout, this`timeouts, this`pends, this`rxOut, this`consumed, this`readerOwes
      ensures Valid() && ReadSoFar(old(Now()), Now(), data) && readerOwes == (data != [])
      ensures |data| <= space && (|data| == space || |data| >= old(Held(Now().rx)))
      ensures more ==> wait && data == [] && Held(Now().rx) > 0 && !readReady && !timeout
      ensures if wait && data == [] then
          && pends == old(pends) + 1 && timeouts >= old(timeouts)
          && (more || old(readReady) || old(timeout) || timeouts > old(timeouts))
        else
          pends == old(pends) && timeout == old(timeout) && timeouts == old(timeouts) && Posted(old(Now()), Now())
    {
      ghost var v := Now();
      var input;
      data, input := TakeAvailable(space);
      more := false;
      if data == [] && wait {
        ghost var u := Now();
        assert |v.received| == |v.consumed| + Held(v.rx) && |u.received| == |u.consumed| + Held(u.rx);
        more := AwaitBytes(input, v.readReady);
        ReadOn(v, u, Now(), []);
      }
    }

    // -------------------------------------------------------------- writing

    /** memcpy into the transmit ring, preempted at every byte. */
    method StorePiece(src: seq<byte>, from: nat, n: nat)
      requires Valid() && from + n <= |src| && n <= BUF_LEN - 1 - Held(Now().tx) && txIn + n <= BUF_LEN
      modifies this`rxIn, this`readReady, this`received, this`re, this`asked, rxBuf
      modifies this`txOut, this`writeReady, this`transmitted, this`we, this`polled, txBuf
      ensures Valid() && LaterBut(old(Now()), Now())
      ensures forall k :: txIn <= k < txIn + n ==> txBuf[k] == src[k - txIn + from]
    {
      ghost var v := Now();
      var k := 0;
      while k < n
        invariant Valid() && LaterBut(v, Now()) && k <= n
        invariant forall i :: txIn <= i < txIn + k ==> Now().tx.cells[i] == src[i - txIn + from]
      {
        ghost var u := Now();
        StoreOne(k, src[from + k]);
        LaterButChain(v, u, Now());
        k := k + 1;
      }
    }

    /** One byte of it. */
    method StoreOne(k: nat, b: byte)
      requires Valid() && k < BUF_LEN - 1 - Held(Now().tx) && txIn + k < BUF_LEN
      modifies this`rxIn, this`readReady, this`received, this`re, this`asked, rxBuf
      modifies this`txOut, this`writeReady, this`transmitted, this`we, this`polled, txBuf
      ensures Valid() && LaterBut(old(Now()), Now())
      ensures Now().tx.cells == old(Now()).tx.cells[txIn + k := b]
    {
      ghost var v := Now();
      StoreByte(k, b);
      ghost var u := Now();
      Preempt();
      CellsLater(v, u, Now());
    }

    method StoreByte(k: nat, b: byte)
      requires Valid() && k < BUF_LEN - 1 - Held(Now().tx) && txIn + k < BUF_LEN
      modifies txBuf
      ensures Valid() && Now() == old(Now()).(tx := old(Now()).tx.(cells := old(Now()).tx.cells[txIn + k := b]))
    {
      ghost var v := Now();
      StoreUnseen(v.tx, k, b);
      txBuf[txIn + k] := b;
      assert txBuf[..] == v.tx.cells[txIn + k := b];
    }

    method PublishStored(piece: seq<byte>)
      requires Valid() && |piece| <= BUF_LEN - 1 - Held(Now().tx) && txIn + |piece| <= BUF_LEN
      requires forall k :: txIn <= k < txIn + |piece| ==> txBuf[k] == piece[k - txIn]
      modifies this`txIn, this`accepted, this`writerOwes
      ensures Valid() && Now() == Enqueued(old(Now()), piece)
    {
      ghost var v := Now();
      EnqueuedOk(v, piece);
      WrapIsMod(txIn + |piece|);
      txIn := (txIn + |piece|) % BUF_LEN;
      accepted := accepted + piece;
      writerOwes := true;
      assert Now() == Enqueued(v, piece);
    }

    /** One turn of the inner loop of altera_avalon_jtag_uart_write on src from `from` on; n is 0
        if the ring was full when tx_out, returned as `out`, was read. */
    method PutPiece(src: seq<byte>, from: nat) returns (n: nat, out: nat)
      requires Valid() && from < |src|
      modifies this`rxIn, this`readReady, this`received, this`re, this`asked, rxBuf
      modifies this`txOut, this`writeReady, this`transmitted, this`we, this`polled, txBuf
      modifies this`txIn, this`accepted, this`writerOwes, this`staleWrite
      ensures Valid() && from + n <= |src| && WrittenSoFar(old(Now()), Now(), Part(src, from, n))
      ensures Posted(old(Now()), Now()) && (n == 0 ==> StillStale(out))
      ensures writerOwes == (old(writerOwes) || n > 0)
      ensures n == 0 ==> out < BUF_LEN && Distance(txIn, out) == BUF_LEN - 1 && old(Held(Now().tx)) == BUF_LEN - 1
    {
      ghost var v := Now();
      n, out := MeasureRoom();
      LaterWritten(v, Now());
      if n != 0 {
        n := if n > |src| - from then |src| - from else n;
        EnqueuePiece(src, from, n, v);
      }
    }

    method EnqueuePiece(src: seq<byte>, from: nat, n: nat, ghost v: View)
      requires Valid() && Later(v, Now()) && from + n <= |src|
      requires n <= BUF_LEN - 1 - Held(Now().tx) && txIn + n <= BUF_LEN
      modifies this`rxIn, this`readReady, this`received, this`re, this`asked, rxBuf
      modifies this`txOut, this`writeReady, this`transmitted, this`we, this`polled, txBuf
      modifies this`txIn, this`accepted, this`writerOwes
      ensures Valid() && WrittenSoFar(v, Now(), Part(src, from, n)) && Posted(v, Now()) && writerOwes
    {
      ghost var u := Now();
      StorePiece(src, from, n);
      ghost var w := Now();
      LaterButWritten(v, u, w);
      PublishStored(Part(src, from, n));
      EnqueuedSoFar(v, w, Now(), Part(src, from, n));
    }

    /** Unless tx_out has moved from `out` since it was read, WRITE_RDY is set only if it was then. */
    ghost predicate StillStale(out: nat)
      reads this
    {
      writeReady ==> staleWrite || txOut != out
    }

    /** Read tx_out and work out how many bytes can be stored in one piece. */
    method MeasureRoom() returns (n: nat, out: nat)
      requires Valid()
      modifies this`rxIn, this`readReady, this`received, this`re, this`asked, rxBuf
      modifies this`txOut, this`writeReady, this`transmitted, this`we, this`polled, this`staleWrite
      ensures Valid() && Later(old(Now()), Now()) && out < BUF_LEN && n == WriteChunk(txIn, out)
      ensures Held(Now().tx) <= Distance(txIn, out) <= old(Held(Now().tx)) && StillStale(out)
    {
      ghost var v := Now();
      Preempt();
      ghost var u := Now();
      out := txOut;
      staleWrite := writeReady;
      assert Now() == u;
      n := if txIn < out then out - 1 - txIn else if out > 0 then BUF_LEN - txIn else BUF_LEN - 1 - txIn;
      Preempt();
      LaterChain(v, u, Now());
      SentIsTaken(u, Now());
    }

    /** The inner loop. */
    method PutAvailable(src: seq<byte>, from: nat, before: nat) returns (count: nat, out: nat)
      requires Valid() && from <= |src|
      modifies this`rxIn, this`readReady, this`received, this`re, this`asked, rxBuf
      modifies this`txOut, this`writeReady, this`transmitted, this`we, this`polled, txBuf
      modifies this`txIn, this`accepted, this`writerOwes, this`staleWrite
      ensures Valid() && from <= count <= |src| && WrittenSoFar(old(Now()), Now(), Part(src, from, count - from))
      ensures Posted(old(Now()), Now()) && (count < |src| ==> StillStale(out))
      ensures count < |src| ==> out < BUF_LEN && Distance(txIn, out) == BUF_LEN - 1
      ensures count == |src| || count - from >= BUF_LEN - 1 - old(Held(Now().tx))
    {
      ghost var v := Now();
      count, out := from, before;
      while count < |src|
        invariant Valid() && from <= count <= |src|
        invariant WrittenSoFar(v, Now(), Part(src, from, count - from)) && Posted(v, Now())
      {
        ghost var u := Now();
        var n;
        n, out := PutPiece(src, count);
        PostedChain(v, u, Now());
        WroteOn(v, u, Now(), src, from, count, n);
        if n == 0 {
          RoomUsed(v, u, Part(src, from, count - from));
          break;
        }
        count := count + n;
      }
    }

    /** The inner loop, and enabling the transmit interrupt after it. */
    method PutAndKick(src: seq<byte>, from: nat, before: nat) returns (count: nat, out: nat)
      requires Valid() && !writerOwes && from <= |src|
      modifies this`rxIn, this`readReady, this`received, this`re, this`asked, rxBuf
      modifies this`txOut, this`writeReady, this`transmitted, this`we, this`polled, txBuf
      modifies this`txIn, this`accepted, this`writerOwes, this`staleWrite
      ensures Valid() && !writerOwes && we && from <= count <= |src|
      ensures WrittenSoFar(old(Now()), Now(), Part(src, from, count - from)) && Posted(old(Now()), Now())
      ensures count < |src| ==> StillStale(out)
      ensures count < |src| ==> out < BUF_LEN && Distance(txIn, out) == BUF_LEN - 1
      ensures count == |src| || count - from >= BUF_LEN - 1 - old(Held(Now().tx))
    {
      count, out := PutAvailable(src, from, before);
      we := true;
      writerOwes := false;
    }

    /** Wait for WRITE_RDY, and see whether bytes have gone since tx_out was read as `out`. */
    method AwaitRoom(out: nat) returns (moved: bool)
      requires Valid() && out < BUF_LEN && Distance(txIn, out) == BUF_LEN - 1 && StillStale(out)
      modifies this`rxIn, this`readReady, this`received, this`re, this`asked, rxBuf
      modifies this`txOut, this`writeReady, this`transmitted, this`we, this`polled
      modifies this`timeout, this`timeouts, this`pends
      ensures Valid() && Moved(old(Now()), Now()) && !writeReady && !timeout
      ensures pends == old(pends) + 1 && timeouts >= old(timeouts)
      ensures moved == (out != txOut) && (moved ==> Held(Now().tx) < BUF_LEN - 1)
      ensures !moved ==> staleWrite || old(timeout) || timeouts > old(timeouts)
    {
      ghost var v := Now();
      FlagPend(false);
      moved := out != txOut;
      SentIsTaken(v, Now());
    }

    /** altera_avalon_jtag_uart_write.  Exactly the first `count` bytes have been appended to what
        was accepted before, and at least as many as the ring had room for; transmit interrupts
        are left enabled unless the ring has been emptied.  If it waits and still stops short, the
        host has timed out, or WRITE_RDY was already set when the ring was found full; if it is not
        to wait, it does not. */
    method Write(src: seq<byte>, wait: bool) returns (code: int, count: nat)
      requires Valid() && !writerOwes
      modifies this`rxIn, this`readReady, this`received, this`re, this`asked, rxBuf
      modifies this`txOut, this`writeReady, this`transmitted, this`we, this`polled, txBuf
      modifies this`timeout, this`timeouts, this`pends, this`txIn, this`accepted, this`writerOwes, this`staleWrite
      ensures Valid() && !writerOwes && count <= |src| && WrittenSoFar(old(Now()), Now(), Part(src, 0, count))
      ensures count == |src| || count >= BUF_LEN - 1 - old(Held(Now().tx))
      ensures code == if count > 0 then count else if wait then -EIO else -EWOULDBLOCK
      ensures wait && count < |src| ==>
        pends > old(pends) && (old(timeout) || timeouts > old(timeouts) || staleWrite)
      ensures !wait ==>
        pends == old(pends) && timeout == old(timeout) && timeouts == old(timeouts) && Posted(old(Now()), Now())
    {
      ghost var v := Now();
      count := 0;
      var out, more := 0, true;
      while more
        invariant Valid() && !writerOwes && count <= |src| && WrittenSoFar(v, Now(), Part(src, 0, count))
        invariant count == |src| || count >= BUF_LEN - 1 - Held(v.tx) || (more && count == 0 && Now() == v)
        invariant timeouts >= old(timeouts) && pends >= old(pends)
        invariant timeout ==> old(timeout) || timeouts > old(timeouts)
        invariant wait && !more && count < |src| ==>
          pends > old(pends) && (old(timeout) || timeouts > old(timeouts) || staleWrite)
        invariant !wait ==>
          pends == old(pends) && timeout == old(timeout) && timeouts == old(timeouts) && Posted(v, Now())
        invariant !wait && more ==> Now() == v
        decreases |src| - count, Held(Now().tx) == BUF_LEN - 1, more
      {
        ghost var u, from := Now(), count;
        count, out, more := WriteTurn(src, count, out, wait);
        WroteOn(v, u, Now(), src, 0, from, count - from);
      }
      code := if count > 0 then count else if wait then -EIO else -EWOULDBLOCK;
    }

    /** One turn of the outer loop of altera_avalon_jtag_uart_write: enqueue what fits, and if that is
        not all wait, and go round again just if bytes have gone. */
    method WriteTurn(src: seq<byte>, from: nat, before: nat, wait: bool) returns (count: nat, out: nat, more: bool)
      requires Valid() && !writerOwes && from <= |src|
      modifies this`rxIn, this`readReady, this`received, this`re, this`asked, rxBuf
      modifies this`txOut, this`writeReady, this`transmitted, this`we, this`polled, txBuf
      modifies this`timeout, this`timeouts, this`pends, this`txIn, this`accepted, this`writerOwes, this`staleWrite
      ensures Valid() && !writerOwes && from <= count <= |src|
      ensures WrittenSoFar(old(Now()), Now(), Part(src, from, count - from))
      ensures count == |src| || count - from >= BUF_LEN - 1 - old(Held(Now().tx))
      ensures more ==> wait && count < |src| && Held(Now().tx) < BUF_LEN - 1
      ensures if wait && count < |src| then
          && pends == old(pends) + 1 && timeouts >= old(timeouts) && !timeout
          && (more || staleWrite || old(timeout) || timeouts > old(timeouts))
        else
          pends == old(pends) && timeout == old(timeout) && timeouts == old(timeouts) && Posted(old(Now()), Now())
    {
      ghost var v := Now();
      count, out := PutAndKick(src, from, before);
      more := false;
      if count < |src| && wait {
        ghost var u := Now();
        more := AwaitRoom(out);
        WrittenOn(v, u, Now(), Part(src, from, count - from));
      }
    }
  }

  lemma ReadMore(u: View, v: View, w: View, data: seq<byte>, piece: seq<byte>)
    requires ReadSoFar(u, v, data) && ReadSoFar(v, w, piece)
    ensures ReadSoFar(u, w, data + piece)
  {
    Regroup(u.consumed, data, piece);
  }

  /** The bytes of src before `middle` are written, and then n more. */
  lemma WroteOn(u: View, v: View, w: View, src: seq<byte>, from: nat, middle: nat, n: nat)
    requires from <= middle && middle + n <= |src|
    requires WrittenSoFar(u, v, Part(src, from, middle - from)) && WrittenSoFar(v, w, Part(src, middle, n))
    ensures WrittenSoFar(u, w, Part(src, from, middle + n - from))
  {
    Regroup(u.accepted, Part(src, from, middle - from), Part(src, middle, n));
    assert Part(src, from, middle - from) + Part(src, middle, n) == Part(src, from, middle + n - from);
  }

  /** A ring found full has taken all it had room for. */
  lemma RoomUsed(v: View, w: View, data: seq<byte>)
    requires ViewOk(v) && ViewOk(w) && WrittenSoFar(v, w, data) && Held(w.tx) == BUF_LEN - 1
    ensures |data| >= BUF_LEN - 1 - Held(v.tx)
  {
    assert |w.accepted| == |w.transmitted| + Held(w.tx) && |v.accepted| == |v.transmitted| + Held(v.tx);
  }
}
