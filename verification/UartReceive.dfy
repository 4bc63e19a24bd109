/** The receive side of the JTAG UART fast driver: the interrupt routine fills the ring, readers
    that hold read_lock empty it, and either may run between any two statements of the other that
    are not inside alt_irq_disable_all.  The interrupt routine itself is never interrupted by a task. */
module UartReceive {
  import opened Bytes
  import opened UartRing

  /** Where the reader that holds the lock is.  `clear` remembers whether READ_RDY was clear when
      rx_in was looked at; it guides nothing. */
  datatype Phase =
    | Unlocked
    | Looking(space: nat, wait: bool)
    | SawInput(space: nat, wait: bool, snap: nat, clear: bool)
    | Copying(space: nat, wait: bool, n: nat, copied: seq<byte>)
    | Judging(wait: bool, snap: nat, clear: bool)
    | Pending(snap: nat, clear: bool, space: nat)
    | Woken(snap: nat, clear: bool, space: nat, timedOut: bool)
    | Leaving

  /** The receive part of the interrupt routine; `avail` is the RAVAIL field last read. */
  datatype Isr = Idle | Filling(avail: bool)

  /** `stored` is every byte the interrupt routine took from the device, `returned` every byte
      completed reads have returned, `got` what the reader holding the lock has taken, and
      `owing` how many readers have left the lock but not yet enabled RE again. */
  datatype Receiver = Receiver(
    ring: Ring,
    re: bool,
    ready: bool,
    timeout: bool,
    phase: Phase,
    space: nat,
    got: seq<byte>,
    owing: nat,
    isr: Isr,
    stored: seq<byte>,
    returned: seq<byte>)

  datatype Action =
    | Lock(space: nat, wait: bool)
    | SeeInput
    | SeeOutput
    | CopyByte
    | Publish
    | Judge
    | Pend
    | Recheck
    | Unlock
    | Reenable
    | HostTimeout
    | Interrupt
    | Arrived(b: byte, avail: bool)
    | NothingArrived
    | RingFull

  predicate Enabled(s: Receiver, a: Action)
    requires RingOk(s.ring)
  {
    match a
    case Lock(_, _) => s.isr.Idle? && s.phase.Unlocked?
    case SeeInput => s.isr.Idle? && s.phase.Looking?
    case SeeOutput => s.isr.Idle? && s.phase.SawInput? && s.phase.snap < BUF_LEN
    case CopyByte =>
      && s.isr.Idle? && s.phase.Copying? && |s.phase.copied| < s.phase.n
      && s.ring.output + |s.phase.copied| < BUF_LEN
    case Publish => s.isr.Idle? && s.phase.Copying? && |s.phase.copied| == s.phase.n <= s.phase.space
    case Judge => s.isr.Idle? && s.phase.Judging?
    case Pend => s.isr.Idle? && s.phase.Pending? && (s.ready || s.timeout)
    case Recheck => s.isr.Idle? && s.phase.Woken?
    case Unlock => s.isr.Idle? && s.phase.Leaving?
    case Reenable => s.isr.Idle? && s.owing > 0
    case HostTimeout => true
    case Interrupt => s.isr.Idle?
    case Arrived(_, _) => s.isr.Filling? && !Full(s.ring)
    case NothingArrived => s.isr.Filling? && !Full(s.ring)
    case RingFull => s.isr.Filling? && Full(s.ring)
  }

  function Step(s: Receiver, a: Action): Receiver
    requires RingOk(s.ring) && Enabled(s, a)
  {
    match a
    case Lock(space, wait) => s.(space := space, phase := if space > 0 then Looking(space, wait) else Leaving)
    case SeeInput => s.(phase := SawInput(s.phase.space, s.phase.wait, s.ring.input, !s.ready))
    case SeeOutput =>
      var p := s.phase;
      var n := ReadChunk(p.snap, s.ring.output);
      s.(phase :=
        if n == 0 then Judging(p.wait, p.snap, p.clear)
        else Copying(p.space, p.wait, if n > p.space then p.space else n, []))
    case CopyByte =>
      s.(phase := s.phase.(copied := s.phase.copied + [s.ring.cells[s.ring.output + |s.phase.copied|]]))
    case Publish =>
      var p := s.phase;
      s.(ring := s.ring.(output := (s.ring.output + p.n) % BUF_LEN),
         got := s.got + p.copied,
         phase := if p.space > p.n then Looking(p.space - p.n, p.wait) else Judging(p.wait, 0, false))
    case Judge =>
      var p := s.phase;
      s.(phase := if s.got != [] || !p.wait then Leaving else Pending(p.snap, p.clear, s.space))
    case Pend =>
      var p := s.phase;
      s.(ready := false, timeout := false, phase := Woken(p.snap, p.clear, p.space, s.timeout))
    case Recheck =>
      var p := s.phase;
      s.(phase := if p.snap == s.ring.input then Leaving else Looking(p.space, true))
    case Unlock =>
      s.(phase := Unlocked, got := [], returned := s.returned + s.got, owing := s.owing + if s.got != [] then 1 else 0)
    case Reenable => s.(re := true, owing := s.owing - 1)
    case HostTimeout => s.(timeout := true)
    case Interrupt => s.(isr := Filling(true))
    case Arrived(b, avail) => s.(ring := Put(s.ring, b), ready := true, isr := Filling(avail), stored := s.stored + [b])
    case NothingArrived => s.(isr := Idle)
    case RingFull => s.(isr := Idle, re := s.re && !s.isr.avail)
  }

  // ---------------------------------------------------------------- the invariant

  /** What the reader's copies of the indices still tell it. */
  predicate PhaseOk(s: Receiver)
    requires RingOk(s.ring)
  {
    match s.phase
    case Unlocked => s.got == []
    case Looking(space, _) => 0 < space <= s.space
    case SawInput(space, _, snap, clear) =>
      && 0 < space <= s.space && snap < BUF_LEN && Distance(snap, s.ring.output) <= Held(s.ring)
      && ReadyTells(s, snap, clear)
    case Copying(space, _, n, copied) =>
      && 0 < n <= space <= s.space && n <= Held(s.ring) && s.ring.output + n <= BUF_LEN
      && |copied| <= n && forall k :: 0 <= k < |copied| ==> copied[k] == Contents(s.ring)[k]
    case Judging(_, snap, clear) => s.got != [] || EmptyAt(s, snap, clear, s.space)
    case Pending(snap, clear, space) => s.got == [] && EmptyAt(s, snap, clear, space)
    case Woken(snap, clear, space, timedOut) =>
      && s.got == [] && 0 < space <= s.space && snap == s.ring.output
      && (clear && !timedOut ==> snap != s.ring.input)
    case Leaving => true
  }

  /** If bytes have come since rx_in was looked at, READ_RDY is set; and if it was clear then and is
      set now, bytes have come. */
  predicate ReadyTells(s: Receiver, snap: nat, clear: bool) {
    (snap != s.ring.input ==> s.ready) && (clear && s.ready ==> snap != s.ring.input)
  }

  /** The ring was empty when looked at. */
  predicate EmptyAt(s: Receiver, snap: nat, clear: bool, space: nat) {
    snap == s.ring.output && 0 < space <= s.space && ReadyTells(s, snap, clear)
  }

  /** First in, first out: what was stored is what was returned, then what the present reader
      took, then what the ring holds. */
  predicate Fifo(s: Receiver)
    requires RingOk(s.ring)
  {
    s.stored == s.returned + s.got + Contents(s.ring)
  }

  /** Receive interrupts are off only while the ring is full or a reader is about to enable them. */
  predicate WakeupOwed(s: Receiver)
    requires RingOk(s.ring)
  {
    s.re || Full(s.ring) || s.owing > 0 || s.got != []
  }

  predicate Inv(s: Receiver) {
    RingOk(s.ring) && PhaseOk(s) && Fifo(s) && WakeupOwed(s)
  }

  lemma PublishKeepsFifo(s: Receiver)
    requires Inv(s) && Enabled(s, Publish)
    ensures Step(s, Publish).ring == s.ring.(output := Wrap(s.ring.output + s.phase.n))
    ensures Fifo(Step(s, Publish))
  {
    var p := s.phase;
    WrapIsMod(s.ring.output + p.n);
    TakeDrops(s.ring, p.copied);
    Regroup(s.returned, s.got, p.copied);
    Regroup(s.returned + s.got, p.copied, Contents(Step(s, Publish).ring));
  }

  lemma PublishKeeps(s: Receiver)
    requires Inv(s) && Enabled(s, Publish)
    ensures Inv(Step(s, Publish))
  {
    PublishKeepsFifo(s);
  }

  lemma CopyKeeps(s: Receiver)
    requires Inv(s) && Enabled(s, CopyByte)
    ensures Inv(Step(s, CopyByte))
  {
    CellIsContents(s.ring, |s.phase.copied|);
  }

  lemma ArrivedKeeps(s: Receiver, b: byte, avail: bool)
    requires Inv(s) && Enabled(s, Arrived(b, avail))
    ensures Inv(Step(s, Arrived(b, avail)))
  {
    PutAppends(s.ring, b);
    Regroup(s.returned + s.got, Contents(s.ring), [b]);
  }

  lemma UnlockKeeps(s: Receiver)
    requires Inv(s) && Enabled(s, Unlock)
    ensures Inv(Step(s, Unlock))
  {
    assert s.returned + s.got + [] == s.returned + s.got;
  }

  lemma FlagsKeep(s: Receiver, a: Action)
    requires Inv(s) && Enabled(s, a) && (a.HostTimeout? || a.Interrupt?)
    ensures Inv(Step(s, a))
  {
    assert Step(s, a).ring == s.ring && Step(s, a).phase == s.phase;
  }

  lemma NoneArrivedKeeps(s: Receiver)
    requires Inv(s) && Enabled(s, NothingArrived)
    ensures Inv(Step(s, NothingArrived))
  {
    assert Step(s, NothingArrived) == s.(isr := Idle);
  }

  lemma RingFullKeeps(s: Receiver)
    requires Inv(s) && Enabled(s, RingFull)
    ensures Inv(Step(s, RingFull))
  {
    assert Step(s, RingFull) == s.(isr := Idle, re := s.re && !s.isr.avail);
  }

  lemma SeeOutputKeeps(s: Receiver)
    requires Inv(s) && Enabled(s, SeeOutput)
    ensures Inv(Step(s, SeeOutput))
  {
  }

  lemma LockKeeps(s: Receiver, a: Action)
    requires Inv(s) && Enabled(s, a) && (a.Lock? || a.SeeInput? || a.Reenable?)
    ensures Inv(Step(s, a))
  {
    assert Step(s, a).ring == s.ring;
  }

  lemma WaitKeeps(s: Receiver, a: Action)
    requires Inv(s) && Enabled(s, a) && (a.Judge? || a.Pend? || a.Recheck?)
    ensures Inv(Step(s, a))
  {
    assert Step(s, a).ring == s.ring;
  }

  lemma StepKeepsInv(s: Receiver, a: Action)
    requires Inv(s) && Enabled(s, a)
    ensures Inv(Step(s, a))
  {
    match a
    case Publish => PublishKeeps(s);
    case CopyByte => CopyKeeps(s);
    case Arrived(b, avail) => ArrivedKeeps(s, b, avail);
    case Unlock => UnlockKeeps(s);
    case SeeOutput => SeeOutputKeeps(s);
    case Lock(_, _) => LockKeeps(s, a);
    case SeeInput => LockKeeps(s, a);
    case Reenable => LockKeeps(s, a);
    case Judge => WaitKeeps(s, a);
    case Pend => WaitKeeps(s, a);
    case Recheck => WaitKeeps(s, a);
    case NothingArrived => NoneArrivedKeeps(s);
    case RingFull => RingFullKeeps(s);
    case _ => FlagsKeep(s, a);
  }

  // ---------------------------------------------------------------- runs

  ghost predicate IsRun(s: Receiver, acts: seq<Action>)
    decreases |acts|, 0
  {
    acts == [] ||
    (var n := |acts| - 1;
     IsRun(s, acts[..n]) && RingOk(End(s, acts[..n]).ring) && Enabled(End(s, acts[..n]), acts[n]))
  }

  ghost function End(s: Receiver, acts: seq<Action>): Receiver
    requires IsRun(s, acts)
    decreases |acts|, 1
  {
    if acts == [] then s else Step(End(s, acts[..|acts| - 1]), acts[|acts| - 1])
  }

  /** What init leaves: an empty ring, RE enabled, the lock free. */
  predicate Started(s: Receiver) {
    && RingOk(s.ring) && s.ring.input == s.ring.output && s.re && !s.ready && !s.timeout
    && s.phase == Unlocked && s.got == [] && s.owing == 0 && s.isr == Idle && s.stored == [] && s.returned == []
  }

  lemma {:induction false} RunKeepsInv(s: Receiver, acts: seq<Action>)
    requires Inv(s) && IsRun(s, acts)
    ensures Inv(End(s, acts))
    decreases |acts|
  {
    if acts != [] {
      var n := |acts| - 1;
      RunKeepsInv(s, acts[..n]);
      StepKeepsInv(End(s, acts[..n]), acts[n]);
    }
  }

  /** In every reachable state the bytes the readers have are the oldest ones stored, nothing is
      lost or doubled, at most BUF_LEN - 1 are waiting, and RE is off only while the ring is full
      or a reader that has made room is still to enable it. */
  lemma ReachableSafe(s: Receiver, acts: seq<Action>)
    requires Started(s) && IsRun(s, acts)
    ensures var e := End(s, acts);
      && RingOk(e.ring) && Held(e.ring) <= BUF_LEN - 1
      && e.stored == e.returned + e.got + Contents(e.ring)
      && (e.re || Full(e.ring) || e.owing > 0 || e.got != [])
  {
    assert Contents(s.ring) == [];
    RunKeepsInv(s, acts);
  }

  /** The call of the reader that holds the lock was to wait. */
  predicate Blocking(acts: seq<Action>) {
    acts != [] &&
    (var n := |acts| - 1; match acts[n] case Lock(_, wait) => wait case _ => Blocking(acts[..n]))
  }

  predicate KnowsToWait(s: Receiver, wait: bool) {
    match s.phase
    case Looking(_, w) => w == wait
    case SawInput(_, w, _, _) => w == wait
    case Copying(_, w, _, _) => w == wait
    case Judging(w, _, _) => w == wait
    case Pending(_, _, _) => wait
    case Woken(_, _, _, _) => wait
    case _ => true
  }

  /** In every reachable state a reader waits, or has waited, only if its call was to. */
  lemma {:induction false} WaitsOnlyIfAsked(s: Receiver, acts: seq<Action>)
    requires Started(s) && IsRun(s, acts)
    ensures KnowsToWait(End(s, acts), Blocking(acts))
    decreases |acts|
  {
    if acts != [] {
      WaitsOnlyIfAsked(s, acts[..|acts| - 1]);
    }
  }

  /** How many bytes were waiting when the reader got the lock. */
  ghost function WaitingAtLock(s: Receiver, acts: seq<Action>): nat
    requires IsRun(s, acts)
    decreases |acts|
  {
    if acts == [] then 0
    else
      var n := |acts| - 1;
      if acts[n].Lock? then Held(End(s, acts[..n]).ring) else WaitingAtLock(s, acts[..n])
  }

  /** What a reader has, and what it still sees, is at least what was waiting, unless its space is used. */
  predicate TakesWaiting(s: Receiver, h: nat)
    requires RingOk(s.ring)
  {
    match s.phase
    case Unlocked => true
    case Looking(space, _) => |s.got| + space == s.space && |s.got| + Held(s.ring) >= h
    case SawInput(space, _, snap, _) =>
      |s.got| + space == s.space && snap < BUF_LEN && |s.got| + Distance(snap, s.ring.output) >= h
    case Copying(space, _, n, _) =>
      |s.got| + space == s.space && n <= space && |s.got| + Held(s.ring) >= h
    case Judging(_, _, _) => |s.got| == s.space || |s.got| >= h
    case Pending(_, _, space) => s.got == [] && space == s.space && h == 0
    case Woken(_, _, space, _) => s.got == [] && space == s.space && h == 0
    case Leaving => |s.got| == s.space || |s.got| >= h
  }

  lemma CopyTakes(s: Receiver, h: nat)
    requires Inv(s) && TakesWaiting(s, h) && Enabled(s, Publish)
    ensures TakesWaiting(Step(s, Publish), h)
  {
    PublishKeepsFifo(s);
    assert Held(Step(s, Publish).ring) == Held(s.ring) - s.phase.n;
  }

  lemma ArrivedTakes(s: Receiver, b: byte, avail: bool, h: nat)
    requires Inv(s) && TakesWaiting(s, h) && Enabled(s, Arrived(b, avail))
    ensures RingOk(Step(s, Arrived(b, avail)).ring) && TakesWaiting(Step(s, Arrived(b, avail)), h)
  {
    PutAppends(s.ring, b);
  }

  lemma SeenTakes(s: Receiver, a: Action, h: nat)
    requires Inv(s) && TakesWaiting(s, h) && Enabled(s, a)
    requires a.SeeInput? || a.SeeOutput? || a.CopyByte? || a.Unlock?
    ensures Step(s, a).ring == s.ring && TakesWaiting(Step(s, a), h)
  {
  }

  lemma WaitTakes(s: Receiver, a: Action, h: nat)
    requires Inv(s) && TakesWaiting(s, h) && Enabled(s, a) && (a.Judge? || a.Pend? || a.Recheck?)
    ensures Step(s, a).ring == s.ring && TakesWaiting(Step(s, a), h)
  {
  }

  lemma FlagTakes(s: Receiver, a: Action, h: nat)
    requires Inv(s) && TakesWaiting(s, h) && Enabled(s, a)
    requires a.Reenable? || a.HostTimeout? || a.Interrupt? || a.NothingArrived? || a.RingFull?
    ensures Step(s, a).ring == s.ring && TakesWaiting(Step(s, a), h)
  {
    var t := Step(s, a);
    assert t.ring == s.ring && t.phase == s.phase && t.got == s.got && t.space == s.space;
  }

  lemma StepTakes(s: Receiver, a: Action, h: nat)
    requires Inv(s) && Enabled(s, a) && !a.Lock? && TakesWaiting(s, h)
    ensures RingOk(Step(s, a).ring) && TakesWaiting(Step(s, a), h)
  {
    if a.Publish? {
      CopyTakes(s, h);
    } else if a.Arrived? {
      ArrivedTakes(s, a.b, a.avail, h);
    } else if a.SeeInput? || a.SeeOutput? || a.CopyByte? || a.Unlock? {
      SeenTakes(s, a, h);
    } else if a.Judge? || a.Pend? || a.Recheck? {
      WaitTakes(s, a, h);
    } else {
      FlagTakes(s, a, h);
    }
  }

  /** A reader that leaves has used up its space or has at least all the bytes that were waiting when
      it got the lock. */
  lemma {:induction false} TakesAllWaiting(s: Receiver, acts: seq<Action>)
    requires Started(s) && IsRun(s, acts)
    ensures RingOk(End(s, acts).ring) && TakesWaiting(End(s, acts), WaitingAtLock(s, acts))
    decreases |acts|
  {
    if acts != [] {
      var n := |acts| - 1;
      TakesAllWaiting(s, acts[..n]);
      assert Contents(s.ring) == [];
      RunKeepsInv(s, acts[..n]);
      StepKeepsInv(End(s, acts[..n]), acts[n]);
      if !acts[n].Lock? {
        StepTakes(End(s, acts[..n]), acts[n], WaitingAtLock(s, acts[..n]));
      }
    }
  }

  /** While a reader copies, the interrupt routine never stores into the cells being copied. */
  lemma CopySafe(s: Receiver, b: byte, avail: bool)
    requires Inv(s) && s.phase.Copying? && Enabled(s, Arrived(b, avail))
    ensures !(s.ring.output <= s.ring.input < s.ring.output + s.phase.n)
    ensures forall k :: s.ring.output <= k < s.ring.output + s.phase.n ==>
      Step(s, Arrived(b, avail)).ring.cells[k] == s.ring.cells[k]
  {
  }

  /** A reader that waited leaves empty-handed, to report that the host is gone, only if the host
      timeout was posted or READ_RDY was already set when it found the ring empty. */
  lemma EmptyHandedWhy(s: Receiver)
    requires Inv(s) && s.phase.Woken? && Enabled(s, Recheck) && Step(s, Recheck).phase == Leaving
    ensures s.phase.timedOut || !s.phase.clear
  {
  }

  /** A reader that really has to wait waits for what it was promised: the ring is empty, and
      receive interrupts are on or about to be enabled by a reader that has left. */
  lemma WaitsForBytes(s: Receiver, acts: seq<Action>)
    requires Started(s) && IsRun(s, acts)
    requires var e := End(s, acts); e.phase.Pending? && !e.ready && !e.timeout
    ensures var e := End(s, acts); RingOk(e.ring) && Held(e.ring) == 0 && (e.re || e.owing > 0)
  {
    assert Contents(s.ring) == [];
    RunKeepsInv(s, acts);
  }

  // ---------------------------------------------------------------- a flag left over

  /** Some run leads from s to t. */
  ghost predicate Reaches(s: Receiver, t: Receiver) {
    exists acts :: IsRun(s, acts) && End(s, acts) == t
  }

  lemma ReachesNext(s: Receiver, t: Receiver, a: Action)
    requires Reaches(s, t) && RingOk(t.ring) && Enabled(t, a)
    ensures Reaches(s, Step(t, a))
  {
    var acts :| IsRun(s, acts) && End(s, acts) == t;
    assert (acts + [a])[..|acts|] == acts;
    assert IsRun(s, acts + [a]);
  }

  /** The statements of a blocking read of an empty ring up to where it waits. */
  function ToPend(): seq<Action> {
    [SeeInput, SeeOutput, Judge]
  }

  /** The five statements from looking at rx_in to checking it again. */
  function Attempt(): seq<Action> {
    [SeeInput, SeeOutput, Judge, Pend, Recheck]
  }

  lemma Extend(s: Receiver, acts: seq<Action>, t: Receiver, a: Action, acts1: seq<Action>)
    requires IsRun(s, acts) && End(s, acts) == t && RingOk(t.ring) && Enabled(t, a) && acts1 == acts + [a]
    ensures IsRun(s, acts1) && End(s, acts1) == Step(t, a)
  {
    assert acts1[..|acts|] == acts;
  }

  predicate AboutToFail(s: Receiver) {
    && RingOk(s.ring) && s.phase.Looking? && s.phase.wait && s.isr.Idle? && s.got == []
    && s.ring.input == s.ring.output
  }

  lemma UpToPend(s: Receiver)
    requires AboutToFail(s)
    ensures IsRun(s, ToPend())
    ensures End(s, ToPend()) == s.(phase := Pending(s.ring.input, !s.ready, s.space))
  {
    var p, snap, clear := s.phase, s.ring.input, !s.ready;
    Extend(s, [], s, SeeInput, [SeeInput]);
    var s1 := s.(phase := SawInput(p.space, true, snap, clear));
    Extend(s, [SeeInput], s1, SeeOutput, [SeeInput, SeeOutput]);
    var s2 := s.(phase := Judging(true, snap, clear));
    Extend(s, [SeeInput, SeeOutput], s2, Judge, [SeeInput, SeeOutput, Judge]);
  }

  lemma PendThenRecheck(s: Receiver)
    requires RingOk(s.ring) && s.isr.Idle? && s.phase.Pending? && s.phase.snap == s.ring.input
    ensures Enabled(s, Pend) <==> s.ready || s.timeout
    ensures Enabled(s, Pend) ==>
      var s1 := Step(s, Pend);
      RingOk(s1.ring) && Enabled(s1, Recheck)
      && Step(s1, Recheck) == s.(ready := false, timeout := false, phase := Leaving)
  {
  }

  /** A blocking read of an empty ring runs on without waiting and leaves empty-handed exactly
      when READ_RDY or the timeout flag is left over from before.  With READ_RDY alone it
      reports -EIO although the host is there. */
  lemma StaleReadyFails(s: Receiver)
    requires AboutToFail(s)
    ensures IsRun(s, Attempt()) <==> s.ready || s.timeout
    ensures IsRun(s, Attempt()) ==> End(s, Attempt()) == s.(ready := false, timeout := false, phase := Leaving)
  {
    UpToPend(s);
    var s3 := s.(phase := Pending(s.ring.input, !s.ready, s.space));
    assert Attempt()[..4][..3] == ToPend();
    assert Attempt()[..4] == ToPend() + [Pend];
    PendThenRecheck(s3);
    if s.ready || s.timeout {
      Extend(s, ToPend(), s3, Pend, ToPend() + [Pend]);
      Extend(s, ToPend() + [Pend], Step(s3, Pend), Recheck, Attempt());
    }
  }

  /** A byte arrives before anybody reads. */
  lemma OneArrives(s: Receiver, b: byte)
    requires Started(s) && s.ring.input == 0
    ensures Reaches(s, s.(ring := Put(s.ring, b), ready := true, stored := [b]))
  {
    assert IsRun(s, []) && End(s, []) == s;
    ReachesNext(s, s, Interrupt);
    ReachesNext(s, s.(isr := Filling(true)), Arrived(b, false));
    assert [] + [b] == [b];
    ReachesNext(s, s.(ring := Put(s.ring, b), ready := true, stored := [b], isr := Filling(false)), NothingArrived);
  }

  lemma OneSeen(s: Receiver, t: Receiver)
    requires Reaches(s, t) && RingOk(t.ring) && t.ring.input == 1 && t.ring.output == 0
    requires t.isr == Idle && t.phase == Unlocked && t.got == []
    ensures Reaches(s, t.(space := 1, phase := Copying(1, true, 1, [])))
  {
    ReachesNext(s, t, Lock(1, true));
    var t1 := t.(space := 1, phase := Looking(1, true));
    ReachesNext(s, t1, SeeInput);
    ReachesNext(s, t1.(phase := SawInput(1, true, 1, !t.ready)), SeeOutput);
  }

  lemma OneCopied(s: Receiver, t: Receiver, b: byte)
    requires Reaches(s, t) && RingOk(t.ring) && t.ring.output == 0 && t.ring.cells[0] == b
    requires t.isr == Idle && t.phase == Copying(1, true, 1, [])
    ensures Reaches(s, t.(phase := Copying(1, true, 1, [b])))
  {
    ReachesNext(s, t, CopyByte);
    assert [] + [b] == [b];
  }

  lemma OnePublished(t: Receiver, b: byte)
    requires RingOk(t.ring) && t.ring.output == 0 && t.phase == Copying(1, true, 1, [b]) && t.isr == Idle && t.got == []
    ensures Enabled(t, Publish)
    ensures Step(t, Publish) ==
      t.(ring := t.ring.(output := 1), got := [b], phase := Judging(true, 0, false))
  {
    assert t.got + [b] == [b];
  }

  lemma SomeTaken(t: Receiver)
    requires RingOk(t.ring) && t.phase.Judging? && t.isr == Idle && t.got != []
    ensures Enabled(t, Judge) && Step(t, Judge) == t.(phase := Leaving)
  {
  }

  /** A reader takes the one byte there is, and leaves without ever waiting. */
  lemma OneTaken(s: Receiver, t: Receiver, b: byte) returns (u: Receiver)
    requires Reaches(s, t) && RingOk(t.ring) && t.ring.output == 0
    requires t.isr == Idle && t.phase == Copying(1, true, 1, [b]) && t.got == []
    ensures Reaches(s, u) && u.ring == t.ring.(output := 1) && u.phase == Leaving && u.got == [b]
    ensures u.isr == Idle && u.ready == t.ready && u.timeout == t.timeout
    ensures u.stored == t.stored && u.returned == t.returned
  {
    OnePublished(t, b);
    ReachesNext(s, t, Publish);
    var t1 := Step(t, Publish);
    SomeTaken(t1);
    ReachesNext(s, t1, Judge);
    u := t1.(phase := Leaving);
  }

  /** The failure happens.  The byte that set READ_RDY was read by a call that did not have to wait;
      the next call finds the ring empty, and fails although the host has never been away. */
  lemma StaleReadyHappens(s: Receiver, b: byte)
    requires Started(s) && s.ring.input == 0
    ensures exists t :: Reaches(s, t) && AboutToFail(t) && t.ready && !t.timeout && t.returned == [b] == t.stored
  {
    OneArrives(s, b);
    var t := s.(ring := Put(s.ring, b), ready := true, stored := [b]);
    OneSeen(s, t);
    OneCopied(s, t.(space := 1, phase := Copying(1, true, 1, [])), b);
    var t1 := OneTaken(s, t.(space := 1, phase := Copying(1, true, 1, [b])), b);
    AsksAgain(s, t1);
  }

  lemma AsksAgain(s: Receiver, t: Receiver)
    requires Reaches(s, t) && RingOk(t.ring) && t.ring.input == t.ring.output && t.isr == Idle && t.phase == Leaving
    requires t.ready && !t.timeout && t.returned + t.got == t.stored
    ensures exists u :: Reaches(s, u) && AboutToFail(u) && u.ready && !u.timeout && u.returned == u.stored == t.stored
  {
    ReachesNext(s, t, Unlock);
    var t1 := Step(t, Unlock);
    ReachesNext(s, t1, Lock(1, true));
    var u := Step(t1, Lock(1, true));
    assert AboutToFail(u) && u.returned == u.stored;
  }
}
