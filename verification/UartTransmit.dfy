/** The transmit side of the JTAG UART fast driver: writers that hold write_lock fill the ring, the
    interrupt routine empties it, and may run between any two statements of a writer that are not
    inside alt_irq_disable_all. */
module UartTransmit {
  import opened Bytes
  import opened UartRing

  /** Where the writer that holds the lock is.  `snap` is its copy of tx_out; `clear` remembers
      whether WRITE_RDY was clear when that was read, and guides nothing. */
  datatype Phase =
    | Unlocked
    | Filling
    | SawOutput(snap: nat, clear: bool)
    | Storing(snap: nat, clear: bool, n: nat, done: nat)
    | Kicking(snap: nat, clear: bool)
    | Deciding(snap: nat, clear: bool)
    | Pending(snap: nat, clear: bool)
    | Woken(snap: nat, clear: bool, timedOut: bool)
    | Leaving

  /** The transmit part of the interrupt routine; `space` is what it believes the device has room for. */
  datatype Isr = Idle | Draining(space: nat)

  /** The writer holding the lock writes `data`, of which it has enqueued `sent` bytes, `moved`
      telling whether any since it last enabled WE.  `accepted` is every byte ever enqueued,
      `before` that up to the writer's call, `transmitted` every byte given to the device. */
  datatype Transmitter = Transmitter(
    ring: Ring,
    we: bool,
    ready: bool,
    timeout: bool,
    phase: Phase,
    data: seq<byte>,
    wait: bool,
    sent: nat,
    moved: bool,
    isr: Isr,
    before: seq<byte>,
    accepted: seq<byte>,
    transmitted: seq<byte>)

  datatype Action =
    | Lock(data: seq<byte>, wait: bool)
    | SeeOutput
    | Measure
    | StoreByte
    | Publish
    | Kick
    | Decide
    | Pend
    | Recheck
    | Unlock
    | HostTimeout
    | Interrupt(space: nat)
    | SendByte
    | Drained

  predicate Enabled(s: Transmitter, a: Action)
    requires RingOk(s.ring)
  {
    match a
    case Lock(_, _) => s.isr.Idle? && s.phase.Unlocked?
    case SeeOutput => s.isr.Idle? && s.phase.Filling?
    case Measure => s.isr.Idle? && s.phase.SawOutput? && s.phase.snap < BUF_LEN && s.sent <= |s.data|
    case StoreByte =>
      && s.isr.Idle? && s.phase.Storing? && s.phase.done < s.phase.n
      && s.ring.input + s.phase.done < BUF_LEN && s.sent + s.phase.done < |s.data|
    case Publish => s.isr.Idle? && s.phase.Storing? && s.phase.done == s.phase.n && s.sent + s.phase.n <= |s.data|
    case Kick => s.isr.Idle? && s.phase.Kicking?
    case Decide => s.isr.Idle? && s.phase.Deciding?
    case Pend => s.isr.Idle? && s.phase.Pending? && (s.ready || s.timeout)
    case Recheck => s.isr.Idle? && s.phase.Woken?
    case Unlock => s.isr.Idle? && s.phase.Leaving?
    case HostTimeout => true
    case Interrupt(_) => s.isr.Idle?
    case SendByte => s.isr.Draining? && s.isr.space > 0 && s.ring.output != s.ring.input
    case Drained => s.isr.Draining? && (s.isr.space == 0 || s.ring.output == s.ring.input)
  }

  function Step(s: Transmitter, a: Action): Transmitter
    requires RingOk(s.ring) && Enabled(s, a)
  {
    match a
    case Lock(data, wait) =>
      s.(data := data, wait := wait, sent := 0, moved := false, before := s.accepted,
         phase := if |data| > 0 then Filling else Kicking(0, false))
    case SeeOutput => s.(phase := SawOutput(s.ring.output, !s.ready))
    case Measure =>
      var p := s.phase;
      var n, count := WriteChunk(s.ring.input, p.snap), |s.data| - s.sent;
      s.(phase :=
        if n == 0 then Kicking(p.snap, p.clear) else Storing(p.snap, p.clear, if n > count then count else n, 0))
    case StoreByte =>
      var p := s.phase;
      s.(ring := s.ring.(cells := s.ring.cells[s.ring.input + p.done := s.data[s.sent + p.done]]),
         phase := p.(done := p.done + 1))
    case Publish =>
      var p := s.phase;
      s.(ring := s.ring.(input := (s.ring.input + p.n) % BUF_LEN),
         sent := s.sent + p.n,
         moved := true,
         accepted := s.accepted + Part(s.data, s.sent, p.n),
         phase := if s.sent + p.n < |s.data| then Filling else Kicking(p.snap, p.clear))
    case Kick => s.(we := true, moved := false, phase := Deciding(s.phase.snap, s.phase.clear))
    case Decide =>
      var p := s.phase;
      s.(phase := if s.sent >= |s.data| || !s.wait then Leaving else Pending(p.snap, p.clear))
    case Pend =>
      s.(ready := false, timeout := false, phase := Woken(s.phase.snap, s.phase.clear, s.timeout))
    case Recheck => s.(phase := if s.phase.snap == s.ring.output then Leaving else Filling)
    case Unlock => s.(phase := Unlocked)
    case HostTimeout => s.(timeout := true)
    case Interrupt(space) => s.(isr := Draining(space))
    case SendByte =>
      s.(transmitted := s.transmitted + [s.ring.cells[s.ring.output]],
         ring := s.ring.(output := (s.ring.output + 1) % BUF_LEN),
         ready := true,
         isr := Draining(s.isr.space - 1))
    case Drained => s.(isr := Idle, we := s.we && s.isr.space == 0)
  }

  // ---------------------------------------------------------------- the invariant

  /** If bytes have been sent since tx_out was read, WRITE_RDY is set; and if it was clear then and is
      set now, bytes have been sent. */
  predicate ReadyTells(s: Transmitter, snap: nat, clear: bool) {
    (snap != s.ring.output ==> s.ready) && (clear && s.ready ==> snap != s.ring.output)
  }

  /** The ring was full when tx_out was read. */
  predicate FullAt(s: Transmitter, snap: nat, clear: bool)
    requires RingOk(s.ring)
  {
    s.sent < |s.data| ==>
      && snap < BUF_LEN && Distance(s.ring.input, snap) == BUF_LEN - 1
      && ReadyTells(s, snap, clear)
  }

  predicate PhaseOk(s: Transmitter)
    requires RingOk(s.ring)
  {
    match s.phase
    case Unlocked => !s.moved
    case Filling => s.sent < |s.data|
    case SawOutput(snap, clear) =>
      && s.sent < |s.data| && snap < BUF_LEN && Distance(s.ring.input, snap) >= Held(s.ring)
      && ReadyTells(s, snap, clear)
    case Storing(_, _, n, done) =>
      && 0 < n <= |s.data| - s.sent && n <= BUF_LEN - 1 - Held(s.ring) && s.ring.input + n <= BUF_LEN && done <= n
      && forall k :: s.ring.input <= k < s.ring.input + done ==> s.ring.cells[k] == s.data[k - s.ring.input + s.sent]
    case Kicking(snap, clear) => FullAt(s, snap, clear)
    case Deciding(snap, clear) => !s.moved && FullAt(s, snap, clear)
    case Pending(snap, clear) => !s.moved && s.sent < |s.data| && FullAt(s, snap, clear)
    case Woken(snap, clear, timedOut) =>
      && !s.moved && s.sent < |s.data| && snap < BUF_LEN && Distance(s.ring.input, snap) == BUF_LEN - 1
      && (clear && !timedOut ==> snap != s.ring.output)
    case Leaving => !s.moved
  }

  /** First in, first out. */
  predicate Fifo(s: Transmitter)
    requires RingOk(s.ring)
  {
    s.accepted == s.transmitted + Contents(s.ring)
  }

  /** The writer has enqueued exactly the first `sent` bytes of its data, and nobody else any. */
  predicate Counted(s: Transmitter) {
    s.phase.Unlocked? || (s.sent <= |s.data| && s.accepted == s.before + s.data[..s.sent])
  }

  /** Transmit interrupts are off only while the ring is empty or the writer is about to enable them. */
  predicate WakeupOwed(s: Transmitter)
    requires RingOk(s.ring)
  {
    s.we || Held(s.ring) == 0 || s.moved
  }

  predicate Inv(s: Transmitter) {
    RingOk(s.ring) && PhaseOk(s) && Fifo(s) && Counted(s) && WakeupOwed(s)
  }

  lemma StoreKeeps(s: Transmitter)
    requires Inv(s) && Enabled(s, StoreByte)
    ensures Inv(Step(s, StoreByte))
  {
    StoreUnseen(s.ring, s.phase.done, s.data[s.sent + s.phase.done]);
  }

  lemma PublishKeepsFifo(s: Transmitter)
    requires Inv(s) && Enabled(s, Publish)
    ensures Step(s, Publish).ring == s.ring.(input := Wrap(s.ring.input + s.phase.n))
    ensures Held(Step(s, Publish).ring) == Held(s.ring) + s.phase.n
    ensures Fifo(Step(s, Publish))
  {
    var data := Part(s.data, s.sent, s.phase.n);
    WrapIsMod(s.ring.input + s.phase.n);
    PublishAppends(s.ring, data);
    Regroup(s.transmitted, Contents(s.ring), data);
  }

  lemma PublishKeepsCount(s: Transmitter)
    requires Inv(s) && Enabled(s, Publish)
    ensures Counted(Step(s, Publish))
  {
    var data := Part(s.data, s.sent, s.phase.n);
    assert s.data[..s.sent + s.phase.n] == s.data[..s.sent] + data;
    Regroup(s.before, s.data[..s.sent], data);
  }

  lemma PublishKeeps(s: Transmitter)
    requires Inv(s) && Enabled(s, Publish)
    ensures Inv(Step(s, Publish))
  {
    PublishKeepsFifo(s);
    PublishKeepsCount(s);
  }

  lemma SendKeepsFifo(s: Transmitter)
    requires Inv(s) && Enabled(s, SendByte)
    ensures Step(s, SendByte).ring == s.ring.(output := Wrap(s.ring.output + 1))
    ensures Fifo(Step(s, SendByte))
  {
    var b := s.ring.cells[s.ring.output];
    WrapIsMod(s.ring.output + 1);
    CellIsContents(s.ring, 0);
    TakeDrops(s.ring, [b]);
    Regroup(s.transmitted, [b], Contents(Step(s, SendByte).ring));
  }

  lemma SendKeeps(s: Transmitter)
    requires Inv(s) && Enabled(s, SendByte)
    ensures Inv(Step(s, SendByte))
  {
    SendKeepsFifo(s);
  }

  lemma LockKeeps(s: Transmitter, data: seq<byte>, wait: bool)
    requires Inv(s) && Enabled(s, Lock(data, wait))
    ensures Inv(Step(s, Lock(data, wait)))
  {
    assert s.accepted + data[..0] == s.accepted;
  }

  lemma WriterKeeps(s: Transmitter, a: Action)
    requires Inv(s) && Enabled(s, a)
    requires a.SeeOutput? || a.Measure? || a.Kick? || a.Decide? || a.Pend? || a.Recheck? || a.Unlock?
    ensures Inv(Step(s, a))
  {
  }

  lemma FlagsKeep(s: Transmitter, a: Action)
    requires Inv(s) && Enabled(s, a) && (a.HostTimeout? || a.Interrupt?)
    ensures Inv(Step(s, a))
  {
    assert Step(s, a).ring == s.ring && Step(s, a).phase == s.phase;
  }

  lemma DrainedKeeps(s: Transmitter)
    requires Inv(s) && Enabled(s, Drained)
    ensures Inv(Step(s, Drained))
  {
    assert Step(s, Drained) == s.(isr := Idle, we := s.we && s.isr.space == 0);
  }

  lemma StepKeepsInv(s: Transmitter, a: Action)
    requires Inv(s) && Enabled(s, a)
    ensures Inv(Step(s, a))
  {
    match a
    case Lock(data, wait) => LockKeeps(s, data, wait);
    case StoreByte => StoreKeeps(s);
    case Publish => PublishKeeps(s);
    case SendByte => SendKeeps(s);
    case HostTimeout => FlagsKeep(s, a);
    case Interrupt(_) => FlagsKeep(s, a);
    case Drained => DrainedKeeps(s);
    case _ => WriterKeeps(s, a);
  }

  // ---------------------------------------------------------------- runs

  ghost predicate IsRun(s: Transmitter, acts: seq<Action>)
    decreases |acts|, 0
  {
    acts == [] ||
    (var n := |acts| - 1;
     IsRun(s, acts[..n]) && RingOk(End(s, acts[..n]).ring) && Enabled(End(s, acts[..n]), acts[n]))
  }

  ghost function End(s: Transmitter, acts: seq<Action>): Transmitter
    requires IsRun(s, acts)
    decreases |acts|, 1
  {
    if acts == [] then s else Step(End(s, acts[..|acts| - 1]), acts[|acts| - 1])
  }

  /** What init leaves: an empty ring, WE off, the lock free. */
  predicate Started(s: Transmitter) {
    && RingOk(s.ring) && s.ring.input == s.ring.output && !s.we && !s.ready && !s.timeout
    && s.phase == Unlocked && !s.moved && s.isr == Idle && s.accepted == [] && s.transmitted == []
  }

  lemma {:induction false} RunKeepsInv(s: Transmitter, acts: seq<Action>)
    requires Inv(s) && IsRun(s, acts)
    ensures Inv(End(s, acts))
    decreases |acts|
  {
    if acts != [] {
      var n := |acts| - 1;
      RunKeepsInv(s, acts[..n]);
      StepKeepsInv(End(s, acts[..n]), acts[n]);
    }
  }

  /** In every reachable state the device has been given the oldest bytes enqueued and the ring
      holds the rest; WE is off only while the ring is empty or the writer is still to enable it;
      and what the present writer will report, `sent`, is how much of its data was enqueued. */
  lemma ReachableSafe(s: Transmitter, acts: seq<Action>)
    requires Started(s) && IsRun(s, acts)
    ensures var e := End(s, acts);
      && RingOk(e.ring) && Held(e.ring) <= BUF_LEN - 1
      && e.accepted == e.transmitted + Contents(e.ring)
      && (e.we || Held(e.ring) == 0 || e.moved)
      && (e.phase != Unlocked ==> e.sent <= |e.data| && e.accepted == e.before + e.data[..e.sent])
      && (e.phase == Unlocked || e.phase == Leaving ==> !e.moved)
  {
    RunKeepsInv(s, acts);
  }

  /** What the writer that holds the lock was called with. */
  function Called(acts: seq<Action>): (seq<byte>, bool) {
    if acts == [] then ([], false)
    else
      var n := |acts| - 1;
      match acts[n] case Lock(data, wait) => (data, wait) case _ => Called(acts[..n])
  }

  /** In every reachable state a writer writes what it was called with, and waits, or has waited, only if
      its call was to. */
  lemma {:induction false} WaitsOnlyIfAsked(s: Transmitter, acts: seq<Action>)
    requires Started(s) && IsRun(s, acts)
    ensures AsCalled(End(s, acts), Called(acts))
    decreases |acts|
  {
    if acts != [] {
      var n := |acts| - 1;
      WaitsOnlyIfAsked(s, acts[..n]);
      if acts[n].Lock? {
      } else {
        StaysAsCalled(End(s, acts[..n]), acts[n], Called(acts[..n]));
      }
    }
  }

  predicate AsCalled(s: Transmitter, call: (seq<byte>, bool)) {
    && (s.phase != Unlocked ==> s.data == call.0 && s.wait == call.1)
    && (s.phase.Pending? || s.phase.Woken? ==> s.wait)
  }

  lemma StaysAsCalled(s: Transmitter, a: Action, call: (seq<byte>, bool))
    requires RingOk(s.ring) && Enabled(s, a) && !a.Lock? && AsCalled(s, call)
    ensures AsCalled(Step(s, a), call)
  {
    assert Step(s, a).data == s.data && Step(s, a).wait == s.wait;
  }

  /** While a writer stores, the cells it stores into are none of those the interrupt routine
      may still send. */
  lemma StoreSafe(s: Transmitter, k: nat)
    requires Inv(s) && s.phase.Storing? && k < Held(s.ring)
    ensures !(s.ring.input <= Wrap(s.ring.output + k) < s.ring.input + s.phase.n)
  {
  }

  /** A writer that waited stops short only if the host timeout was posted or WRITE_RDY was
      already set when it found the ring full. */
  lemma ShortWhy(s: Transmitter)
    requires Inv(s) && s.phase.Woken? && Enabled(s, Recheck) && Step(s, Recheck).phase == Leaving
    ensures s.phase.timedOut || !s.phase.clear
  {
  }

  /** A writer that really has to wait waits for what it was promised: the ring is full, and
      transmit interrupts are on. */
  lemma WaitsForRoom(s: Transmitter, acts: seq<Action>)
    requires Started(s) && IsRun(s, acts)
    requires var e := End(s, acts); e.phase.Pending? && !e.ready && !e.timeout
    ensures var e := End(s, acts); RingOk(e.ring) && Full(e.ring) && e.we
  {
    RunKeepsInv(s, acts);
  }

  /** The statements from reading tx_out to checking it again, when the ring is full. */
  function Attempt(): seq<Action> {
    [SeeOutput, Measure, Kick, Decide, Pend, Recheck]
  }

  lemma Extend(s: Transmitter, acts: seq<Action>, t: Transmitter, a: Action, acts1: seq<Action>)
    requires IsRun(s, acts) && End(s, acts) == t && RingOk(t.ring) && Enabled(t, a) && acts1 == acts + [a]
    ensures IsRun(s, acts1) && End(s, acts1) == Step(t, a)
  {
    assert acts1[..|acts|] == acts;
  }

  lemma MeasureFull(s: Transmitter)
    requires RingOk(s.ring) && Full(s.ring) && s.isr.Idle? && s.phase.SawOutput? && s.phase.snap == s.ring.output
    requires s.sent < |s.data|
    ensures Enabled(s, Measure) && Step(s, Measure) == s.(phase := Kicking(s.phase.snap, s.phase.clear))
  {
  }

  predicate AboutToStop(s: Transmitter) {
    RingOk(s.ring) && s.phase.Filling? && s.wait && s.isr.Idle? && Full(s.ring) && s.sent < |s.data|
  }

  lemma UpToKick(s: Transmitter)
    requires AboutToStop(s)
    ensures IsRun(s, [SeeOutput, Measure])
    ensures End(s, [SeeOutput, Measure]) == s.(phase := Kicking(s.ring.output, !s.ready))
  {
    var out, clear := s.ring.output, !s.ready;
    Extend(s, [], s, SeeOutput, [SeeOutput]);
    var s1 := s.(phase := SawOutput(out, clear));
    MeasureFull(s1);
    Extend(s, [SeeOutput], s1, Measure, [SeeOutput, Measure]);
  }

  lemma KickStep(s: Transmitter, out: nat, clear: bool)
    requires RingOk(s.ring) && s.isr.Idle? && s.phase == Kicking(out, clear)
    ensures Enabled(s, Kick) && Step(s, Kick) == s.(we := true, moved := false, phase := Deciding(out, clear))
  {
  }

  lemma DecideStep(s: Transmitter, out: nat, clear: bool)
    requires RingOk(s.ring) && s.isr.Idle? && s.phase == Deciding(out, clear) && s.wait && s.sent < |s.data|
    ensures Enabled(s, Decide) && Step(s, Decide) == s.(phase := Pending(out, clear))
  {
  }

  lemma UpToPend(s: Transmitter)
    requires AboutToStop(s)
    ensures IsRun(s, [SeeOutput, Measure, Kick, Decide])
    ensures End(s, [SeeOutput, Measure, Kick, Decide]) ==
      s.(we := true, moved := false, phase := Pending(s.ring.output, !s.ready))
  {
    var out, clear := s.ring.output, !s.ready;
    UpToKick(s);
    var s2, s3 := s.(phase := Kicking(out, clear)), s.(we := true, moved := false, phase := Deciding(out, clear));
    KickStep(s2, out, clear);
    Extend(s, [SeeOutput, Measure], s2, Kick, [SeeOutput, Measure, Kick]);
    DecideStep(s3, out, clear);
    Extend(s, [SeeOutput, Measure, Kick], s3, Decide, [SeeOutput, Measure, Kick, Decide]);
  }

  lemma PendThenRecheck(s: Transmitter)
    requires RingOk(s.ring) && s.isr.Idle? && s.phase.Pending? && s.phase.snap == s.ring.output
    ensures Enabled(s, Pend) <==> s.ready || s.timeout
    ensures Enabled(s, Pend) ==>
      var s1 := Step(s, Pend);
      RingOk(s1.ring) && Enabled(s1, Recheck) && Step(s1, Recheck).phase == Leaving && Step(s1, Recheck).sent == s.sent
  {
  }

  /** A blocking write to a full ring runs on without waiting and stops exactly when WRITE_RDY
      or the timeout flag is left over from before. */
  lemma StaleReadyStops(s: Transmitter)
    requires AboutToStop(s)
    ensures IsRun(s, Attempt()) <==> s.ready || s.timeout
    ensures IsRun(s, Attempt()) ==> End(s, Attempt()).phase == Leaving && End(s, Attempt()).sent == s.sent
  {
    UpToPend(s);
    var a4 := [SeeOutput, Measure, Kick, Decide];
    var s4 := s.(we := true, moved := false, phase := Pending(s.ring.output, !s.ready));
    assert Attempt()[..5][..4] == a4;
    assert Attempt()[..5] == a4 + [Pend];
    PendThenRecheck(s4);
    if s.ready || s.timeout {
      Extend(s, a4, s4, Pend, a4 + [Pend]);
      Extend(s, a4 + [Pend], Step(s4, Pend), Recheck, Attempt());
    }
  }

  // ---------------------------------------------------------------- a flag left over

  /** Some run leads from s to t. */
  ghost predicate Reaches(s: Transmitter, t: Transmitter) {
    exists acts :: IsRun(s, acts) && End(s, acts) == t
  }

  lemma ReachesNext(s: Transmitter, t: Transmitter, a: Action)
    requires Reaches(s, t) && RingOk(t.ring) && Enabled(t, a)
    ensures Reaches(s, Step(t, a))
  {
    var acts :| IsRun(s, acts) && End(s, acts) == t;
    assert (acts + [a])[..|acts|] == acts;
    assert IsRun(s, acts + [a]);
  }

  lemma {:induction false} StoresAll(s: Transmitter, t: Transmitter) returns (u: Transmitter)
    requires Reaches(s, t) && RingOk(t.ring) && t.isr == Idle && t.phase.Storing? && t.phase.done <= t.phase.n
    requires t.ring.input + t.phase.n <= BUF_LEN && t.sent + t.phase.n <= |t.data|
    ensures Reaches(s, u) && RingOk(u.ring) && u.ring.input == t.ring.input && u.ring.output == t.ring.output
    ensures u == t.(ring := u.ring, phase := t.phase.(done := t.phase.n))
    decreases t.phase.n - t.phase.done
  {
    u := t;
    if t.phase.done < t.phase.n {
      ReachesNext(s, t, StoreByte);
      u := StoresAll(s, Step(t, StoreByte));
    }
  }

  lemma PieceMeasured(s: Transmitter, t: Transmitter, n: nat)
    requires Reaches(s, t) && RingOk(t.ring) && t.isr == Idle && t.phase == Filling && t.sent <= |t.data|
    requires 0 < n <= |t.data| - t.sent && n <= WriteChunk(t.ring.input, t.ring.output)
    requires n == |t.data| - t.sent || n == WriteChunk(t.ring.input, t.ring.output)
    ensures Reaches(s, t.(phase := Storing(t.ring.output, !t.ready, n, 0)))
  {
    ReachesNext(s, t, SeeOutput);
    var t1 := t.(phase := SawOutput(t.ring.output, !t.ready));
    MeasureStep(t1, t.ring.output, !t.ready, n);
    ReachesNext(s, t1, Measure);
  }

  lemma MeasureStep(t: Transmitter, out: nat, clear: bool, n: nat)
    requires RingOk(t.ring) && t.isr == Idle && t.phase == SawOutput(out, clear) && out < BUF_LEN
    requires t.sent <= |t.data| && 0 < n <= |t.data| - t.sent && n <= WriteChunk(t.ring.input, out)
    requires n == |t.data| - t.sent || n == WriteChunk(t.ring.input, out)
    ensures Enabled(t, Measure) && Step(t, Measure) == t.(phase := Storing(out, clear, n, 0))
  {
  }

  lemma PiecePublished(t: Transmitter)
    requires RingOk(t.ring) && t.isr == Idle && t.phase.Storing? && t.phase.done == t.phase.n
    requires t.sent + t.phase.n <= |t.data| && t.ring.input + t.phase.n <= BUF_LEN
    ensures Enabled(t, Publish)
    ensures var u := Step(t, Publish);
      && u.ring == t.ring.(input := Wrap(t.ring.input + t.phase.n))
      && u.isr == Idle && u.ready == t.ready && u.timeout == t.timeout && u.data == t.data && u.wait == t.wait
      && u.sent == t.sent + t.phase.n && u.before == t.before
      && u.phase == if t.sent + t.phase.n < |t.data| then Filling else Kicking(t.phase.snap, t.phase.clear)
  {
    WrapIsMod(t.ring.input + t.phase.n);
  }

  /** A writer that holds the lock enqueues all it has or all that fits in one piece. */
  lemma PieceEnqueued(s: Transmitter, t: Transmitter, n: nat) returns (u: Transmitter)
    requires Reaches(s, t) && RingOk(t.ring) && t.isr == Idle && t.phase == Filling && t.sent <= |t.data|
    requires 0 < n <= |t.data| - t.sent && n <= WriteChunk(t.ring.input, t.ring.output)
    requires n == |t.data| - t.sent || n == WriteChunk(t.ring.input, t.ring.output)
    ensures Reaches(s, u) && RingOk(u.ring) && u.isr == Idle && u.ready == t.ready && u.timeout == t.timeout
    ensures u.ring.input == Wrap(t.ring.input + n) && u.ring.output == t.ring.output
    ensures u.data == t.data && u.wait == t.wait && u.before == t.before && u.sent == t.sent + n
    ensures if u.sent < |t.data| then u.phase == Filling else u.phase.Kicking?
  {
    PieceMeasured(s, t, n);
    var t1 := StoresAll(s, t.(phase := Storing(t.ring.output, !t.ready, n, 0)));
    PiecePublished(t1);
    ReachesNext(s, t1, Publish);
    u := Step(t1, Publish);
  }

  lemma Leaves(s: Transmitter, t: Transmitter)
    requires Reaches(s, t) && RingOk(t.ring) && t.isr == Idle && t.phase.Kicking? && t.sent == |t.data|
    ensures Reaches(s, t.(we := true, moved := false, phase := Unlocked))
  {
    ReachesNext(s, t, Kick);
    var t1 := t.(we := true, moved := false, phase := Deciding(t.phase.snap, t.phase.clear));
    ReachesNext(s, t1, Decide);
    ReachesNext(s, t1.(phase := Leaving), Unlock);
  }

  lemma LastSent(t: Transmitter)
    requires RingOk(t.ring) && t.isr == Draining(2) && t.ring.input == 1 && t.ring.output == 0
    ensures Enabled(t, SendByte)
    ensures var u := Step(t, SendByte);
      && u.ring == t.ring.(output := 1) && u.isr == Draining(1) && u.ready
      && u.phase == t.phase && u.timeout == t.timeout
  {
  }

  lemma NoneLeft(t: Transmitter)
    requires RingOk(t.ring) && t.isr.Draining? && t.ring.input == t.ring.output
    ensures Enabled(t, Drained)
    ensures Step(t, Drained) == t.(isr := Idle, we := t.we && t.isr.space == 0)
  {
  }

  lemma OneDrained(s: Transmitter, t: Transmitter) returns (u: Transmitter)
    requires Reaches(s, t) && RingOk(t.ring) && t.isr == Idle && t.ring.input == 1 && t.ring.output == 0
    ensures Reaches(s, u) && u.ring == t.ring.(output := 1) && u.isr == Idle && u.ready
    ensures u.phase == t.phase && u.timeout == t.timeout
  {
    ReachesNext(s, t, Interrupt(2));
    var t1 := t.(isr := Draining(2));
    LastSent(t1);
    ReachesNext(s, t1, SendByte);
    var t2 := Step(t1, SendByte);
    NoneLeft(t2);
    ReachesNext(s, t2, Drained);
    u := t2.(isr := Idle, we := t2.we && t2.isr.space == 0);
  }

  /** One byte is written and sent, which sets WRITE_RDY; nobody was waiting for that. */
  lemma OneSent(s: Transmitter, b: byte) returns (u: Transmitter)
    requires Started(s) && s.ring.input == 0
    ensures Reaches(s, u) && RingOk(u.ring) && u.ring.input == u.ring.output == 1
    ensures u.isr == Idle && u.phase == Unlocked && u.ready && !u.timeout
  {
    assert IsRun(s, []) && End(s, []) == s;
    ReachesNext(s, s, Lock([b], false));
    var t0 := s.(data := [b], wait := false, sent := 0, moved := false, before := s.accepted, phase := Filling);
    var t := PieceEnqueued(s, t0, 1);
    Leaves(s, t);
    var t1 := t.(we := true, moved := false, phase := Unlocked);
    u := OneDrained(s, t1);
  }

  /** The failure happens: with WRITE_RDY left over, a blocking write of more than the ring can hold
      fills it, and then stops although the host has never been away. */
  lemma StaleReadyHappens(s: Transmitter, b: byte, data: seq<byte>)
    requires Started(s) && s.ring.input == 0 && |data| >= BUF_LEN
    ensures exists t :: Reaches(s, t) && AboutToStop(t) && t.ready && !t.timeout
                        && t.data == data && t.sent == BUF_LEN - 1
  {
    var t := OneSent(s, b);
    ReachesNext(s, t, Lock(data, true));
    var t1 := t.(data := data, wait := true, sent := 0, moved := false, before := t.accepted, phase := Filling);
    var u := PieceEnqueued(s, t1, BUF_LEN - 1);
    assert AboutToStop(u);
  }

  /** One byte is sent, and there is no room for more. */
  lemma OneGoes(s: Transmitter, t: Transmitter) returns (u: Transmitter)
    requires Reaches(s, t) && RingOk(t.ring) && t.isr == Idle && t.ring.output == 0 && t.ring.input > 0
    ensures Reaches(s, u) && u.ring == t.ring.(output := 1) && u.isr == Idle && u.ready
    ensures u.phase == t.phase && u.timeout == t.timeout && u.data == t.data && u.sent == t.sent
    ensures u.wait == t.wait && u.before == t.before
  {
    ReachesNext(s, t, Interrupt(1));
    var t1 := t.(isr := Draining(1));
    FirstSent(t1);
    ReachesNext(s, t1, SendByte);
    var t2 := Step(t1, SendByte);
    ReachesNext(s, t2, Drained);
    u := t2.(isr := Idle);
  }

  lemma FirstSent(t: Transmitter)
    requires RingOk(t.ring) && t.isr == Draining(1) && t.ring.output == 0 && t.ring.input > 0
    ensures Enabled(t, SendByte)
    ensures var u := Step(t, SendByte);
      && u.ring == t.ring.(output := 1) && u.isr == Draining(0) && u.ready && Enabled(u, Drained)
      && u.phase == t.phase && u.timeout == t.timeout && u.data == t.data && u.sent == t.sent
      && u.wait == t.wait && u.before == t.before && Step(u, Drained) == u.(isr := Idle)
  {
  }

  /** It even happens to the first call there is, with no flag left over from before: a byte is sent
      while it fills the ring, and that sets WRITE_RDY. */
  lemma StaleReadyOwnCall(s: Transmitter, data: seq<byte>)
    requires Started(s) && s.ring.input == 0 && |data| > BUF_LEN
    ensures exists t :: Reaches(s, t) && AboutToStop(t) && t.ready && !t.timeout
                        && t.data == data && t.sent == BUF_LEN && t.before == []
  {
    assert IsRun(s, []) && End(s, []) == s;
    ReachesNext(s, s, Lock(data, true));
    var t := s.(data := data, wait := true, sent := 0, moved := false, before := s.accepted, phase := Filling);
    var t1 := PieceEnqueued(s, t, BUF_LEN - 1);
    var t2 := OneGoes(s, t1);
    var t3 := PieceEnqueued(s, t2, 1);
    assert AboutToStop(t3);
  }
}
