/** Scheduling, interrupt and lock nesting, ticks, and the two places where the kernel does
    not keep what its callers may expect. */
module KernelScheduling {
  import opened Options
  import opened KernelModel
  import opened KernelInvariant
  import opened KernelRuns

  // ---------------------------------------------------------------- context switches

  /** A step that changes the running task is a scheduling point outside every interrupt and
      lock, and it picks the most urgent ready task. */
  lemma SwitchesOnlyWhenFree(s: State, a: Action)
    requires Inv(s) && Enabled(s, a) && Step(s, a).cur != s.cur
    ensures a == IntExit || a == Sched
    ensures var s1 := Step(s, a); s1.intNesting == 0 && s1.lockNesting == 0 && IsMin(s1.cur, s1.ready)
  {
  }

  function IntDepth(acts: seq<Action>): int {
    if acts == [] then 0
    else IntDepth(acts[..|acts| - 1]) + match acts[|acts| - 1]
      case IntEnter => 1
      case IntExit => -1
      case _ => 0
  }

  /** Every interrupt that returned had been entered, and no more than 255 were open at once. */
  ghost predicate NestsWithin255(acts: seq<Action>) {
    forall n :: 0 <= n <= |acts| ==> 0 <= IntDepth(acts[..n]) <= 255
  }

  lemma {:induction false} RunPrefix(s: State, acts: seq<Action>, n: nat)
    requires IsRun(s, acts) && n <= |acts|
    ensures IsRun(s, acts[..n])
    ensures n < |acts| ==>
      var s1 := End(s, acts[..n]);
      Typed(s1) && Enabled(s1, acts[n]) && IsRun(s, acts[..n + 1]) && End(s, acts[..n + 1]) == Step(s1, acts[n])
    decreases n
  {
    if n > 0 {
      RunPrefix(Step(s, acts[0]), acts[1..], n - 1);
      assert acts[..n][1..] == acts[1..][..n - 1];
      if n < |acts| {
        assert acts[..n + 1][1..] == acts[1..][..n];
      }
    } else if |acts| > 0 {
      assert acts[..1][1..] == [];
    }
  }

  lemma {:induction false} NestingIsDepth(s: State, acts: seq<Action>)
    requires IsRun(s, acts) && s.intNesting == 0 && NestsWithin255(acts)
    ensures End(s, acts).intNesting == IntDepth(acts)
    decreases |acts|
  {
    if acts != [] {
      var n := |acts| - 1;
      RunPrefix(s, acts, n);
      assert acts[..n + 1] == acts;
      forall k | 0 <= k <= n ensures 0 <= IntDepth(acts[..n][..k]) <= 255 {
        assert acts[..n][..k] == acts[..k];
      }
      NestingIsDepth(s, acts[..n]);
    }
  }

  /** Neither count ever passes 255; OSIntEnter and OSSchedLock count up to it, and leave it there. */
  lemma {:induction false} NestingBounded(s: State, acts: seq<Action>)
    requires IsRun(s, acts) && s.intNesting <= 255 && s.lockNesting <= 255
    ensures End(s, acts).intNesting <= 255 && End(s, acts).lockNesting <= 255
    decreases |acts|
  {
    if acts != [] {
      CountsStep(s, acts[0]);
      NestingBounded(Step(s, acts[0]), acts[1..]);
    }
  }

  /** How each step counts. */
  lemma CountsStep(s: State, a: Action)
    requires Typed(s) && Enabled(s, a) && s.intNesting <= 255 && s.lockNesting <= 255
    ensures Step(s, a).intNesting ==
      (match a
       case IntEnter => if s.intNesting == 255 then 255 else s.intNesting + 1
       case IntExit => if s.intNesting == 0 then 0 else s.intNesting - 1
       case _ => s.intNesting)
    ensures Step(s, a).lockNesting ==
      (match a
       case Lock => if s.intNesting > 0 || s.lockNesting == 255 then s.lockNesting else s.lockNesting + 1
       case Unlock => if s.lockNesting == 0 then 0 else s.lockNesting - 1
       case _ => s.lockNesting)
  {
  }

  /** No context switch happens while an interrupt is being served, over any run whose
      interrupts nest at most 255 deep, the limit the OSIntEnter notes give. */
  lemma NoSwitchInsideInterrupts(s: State, acts: seq<Action>, n: nat)
    requires Inv(s) && s.intNesting == 0 && IsRun(s, acts) && NestsWithin255(acts) && n < |acts|
    ensures IsRun(s, acts[..n]) && IsRun(s, acts[..n + 1])
    ensures End(s, acts[..n + 1]).cur != End(s, acts[..n]).cur ==> IntDepth(acts[..n + 1]) == 0
  {
    RunPrefix(s, acts, n);
    RunPrefix(s, acts, n + 1);
    RunKeepsInv(s, acts[..n]);
    var upTo := acts[..n + 1];
    forall k | 0 <= k <= n + 1 ensures 0 <= IntDepth(upTo[..k]) <= 255 {
      assert upTo[..k] == acts[..k];
    }
    NestingIsDepth(s, upTo);
    if End(s, acts[..n + 1]).cur != End(s, acts[..n]).cur {
      SwitchesOnlyWhenFree(End(s, acts[..n]), acts[n]);
    }
  }

  /** A call that waits goes on as soon as its task is the most urgent ready one and nothing is nested:
      after its OS_Sched, if that is still to come, it can return. */
  lemma CallGoesOn(s: State)
    requires Inv(s) && s.intNesting == 0 && s.lockNesting == 0
    requires s.tasks[s.cur].phase != Running && IsMin(s.cur, s.ready)
    ensures if s.tasks[s.cur].owes then
        Enabled(s, Sched) && Step(s, Sched).cur == s.cur && Typed(Step(s, Sched)) && Enabled(Step(s, Sched), PendReturn)
      else Enabled(s, PendReturn)
  {
    if s.tasks[s.cur].owes {
      StepKeepsInv(s, Sched);
    }
  }

  /** Only ticking from task level can leave another than the most urgent ready task running, until the
      next scheduling point. */
  lemma StaleWhy(s: State, a: Action)
    requires Inv(s) && Enabled(s, a) && !s.stale && Step(s, a).stale
    ensures a.Tick? && s.intNesting == 0
  {
  }

  // ---------------------------------------------------------------- scheduler lock

  lemma RunCons(s: State, a: Action, rest: seq<Action>)
    requires Typed(s) && Enabled(s, a) && IsRun(Step(s, a), rest)
    ensures IsRun(s, [a] + rest) && End(s, [a] + rest) == End(Step(s, a), rest)
  {
    assert ([a] + rest)[1..] == rest;
  }

  /** An OSSchedLock/OSSchedUnlock pair leaves the lock count as it was exactly when it is not
      made from an interrupt routine under a held lock, nor on a count already at 255: there
      OSSchedLock does nothing, but OSSchedUnlock still decrements. */
  lemma LockPairNeutral(s: State)
    requires Inv(s) && (s.intNesting > 0 || AtCode(s))
    ensures Enabled(s, Lock) && Enabled(Step(s, Lock), Unlock)
    ensures Step(Step(s, Lock), Unlock).lockNesting == s.lockNesting
      <==> s.lockNesting == 0 || (s.intNesting == 0 && s.lockNesting < 255)
  {
    StepKeepsInv(s, Lock);
  }

  lemma PostThenExit(s: State, e: EventId)
    requires Inv(s) && s.intNesting == 1 && s.lockNesting == 0
    requires e < |s.stores| && s.waiting[e] != {} && s.stores[e].Semaphore?
    requires Least(s.waiting[e]) < s.cur && SUSPEND !in s.tasks[Least(s.waiting[e])].stat
    ensures var s1 := Step(s, Post(e, 0));
      Typed(s1) && Enabled(s1, IntExit) && Step(s1, IntExit).cur < s.cur
  {
    StepKeepsInv(s, Post(e, 0));
    assert Least(s.waiting[e]) in Step(s, Post(e, 0)).ready;
  }

  lemma PostExitRun(s: State, e: EventId)
    requires Inv(s) && s.intNesting == 1 && s.lockNesting == 0
    requires e < |s.stores| && s.waiting[e] != {} && s.stores[e].Semaphore?
    requires Least(s.waiting[e]) < s.cur && SUSPEND !in s.tasks[Least(s.waiting[e])].stat
    ensures IsRun(s, [Post(e, 0), IntExit]) && End(s, [Post(e, 0), IntExit]).cur < s.cur
  {
    PostThenExit(s, e);
    var s1 := Step(s, Post(e, 0));
    RunCons(s1, IntExit, []);
    RunCons(s, Post(e, 0), [IntExit]);
  }

  /** In an interrupt routine OSSchedLock does nothing, and OSSchedUnlock gives the lock up. */
  lemma PairDropsLock(s: State)
    requires Inv(s) && s.intNesting == 1 && s.lockNesting == 1
    ensures Enabled(s, Lock) && Step(s, Lock) == s && Enabled(s, Unlock)
    ensures Step(s, Unlock) == s.(lockNesting := 0) && Inv(s.(lockNesting := 0))
  {
    StepKeepsInv(s, Unlock);
  }

  /** Such a pair, made by an interrupt routine that then posts, takes the processor from
      every task that holds the lock once, whenever a more urgent task waits for the event. */
  lemma LockLostToInterrupt(s: State, e: EventId)
    requires Inv(s) && s.intNesting == 0 && s.lockNesting == 1
    requires e < |s.stores| && s.waiting[e] != {} && s.stores[e].Semaphore?
    requires Least(s.waiting[e]) < s.cur && SUSPEND !in s.tasks[Least(s.waiting[e])].stat
    ensures var acts := [IntEnter] + ([Lock] + ([Unlock] + [Post(e, 0), IntExit]));
      IsRun(s, acts) && End(s, acts).cur < s.cur
  {
    var s1 := Step(s, IntEnter);
    StepKeepsInv(s, IntEnter);
    PairDropsLock(s1);
    PostExitRun(Step(s1, Unlock), e);
    RunCons(s1, Unlock, [Post(e, 0), IntExit]);
    RunCons(s1, Lock, [Unlock] + [Post(e, 0), IntExit]);
    RunCons(s, IntEnter, [Lock] + ([Unlock] + [Post(e, 0), IntExit]));
  }

  /** Three tasks and one empty semaphore, just started. */
  const Three := State(9, map[1 := FreshTask, 5 := FreshTask, 9 := FreshTask], {1, 5, 9}, [Semaphore(0)], [{}],
                       1, 0, 0, false)

  /** The first task waits for the semaphore, and the second runs. */
  lemma FirstWaits(a: Action) returns (s: State)
    requires a == Pend(0, 0) || a == PendMulti([0], 0)
    ensures Started(Three) && Reaches(Three, s) && Inv(s)
    ensures s.tasks.Keys == {1, 5, 9} && s.cur == 5 && s.waiting == [{1}] && s.tasks[5] == FreshTask
    ensures s.stores == [Semaphore(0)] && s.idle == 9 && s.intNesting == 0 && s.lockNesting == 0
    ensures s.tasks[1].stat == (if a.Pend? then {SEM} else {SEM, MULTI})
    ensures s.tasks[1].phase == if a.Pend? then Pending(0) else MultiPending([0])
  {
    var s1 := FirstPends(a);
    ReachesNext(Three, s1, Sched);
    StepKeepsInv(s1, Sched);
    s := Step(s1, Sched);
    assert IsMin(5, s1.ready);
  }

  lemma FirstPends(a: Action) returns (s: State)
    requires a == Pend(0, 0) || a == PendMulti([0], 0)
    ensures Started(Three) && Reaches(Three, s) && Inv(s)
    ensures s.tasks.Keys == {1, 5, 9} && s.ready == {5, 9} && s.cur == 1 && s.waiting == [{1}]
    ensures s.stores == [Semaphore(0)] && s.idle == 9 && s.intNesting == 0 && s.lockNesting == 0
    ensures s.tasks[1].stat == (if a.Pend? then {SEM} else {SEM, MULTI}) && s.tasks[1].owes && s.tasks[5] == FreshTask
    ensures s.tasks[1].phase == if a.Pend? then Pending(0) else MultiPending([0])
  {
    ThreeOk();
    if a.PendMulti? {
      assert a.events[..0] == [] && TakeAll(Three.stores, a.events) == (Three.stores, []);
      assert FlagsOf(Three.stores, [0]) == {SEM} by {
        assert KindFlag(Three.stores[[0][0]]) == SEM;
      }
      assert a.events[0] in a.events;
    }
    ReachesNext(Three, Three, a);
    StepKeepsInv(Three, a);
    s := Step(Three, a);
    assert s.ready == {5, 9};
    assert s.waiting[0] == {1};
    assert s.waiting == [{1}];
    assert s.tasks.Keys == {1, 5, 9};
  }

  lemma ThreeOk()
    ensures Started(Three) && Inv(Three) && Reaches(Three, Three)
  {
    ReachesSelf(Three);
    forall p | p in Three.tasks ensures TaskOk(Three, p) {
    }
  }

  /** A reachable state from which the lemma above applies: task 5 holds the lock while task 1 waits. */
  lemma LockLostExample()
    ensures Started(Three)
    ensures exists s ::
      (Reaches(Three, s) && Inv(s) && s.intNesting == 0 && s.lockNesting == 1 && |s.stores| == 1
       && s.stores[0].Semaphore? && s.waiting[0] == {1} && s.cur == 5 && SUSPEND !in s.tasks[1].stat)
  {
    var s := FirstWaits(Pend(0, 0));
    ReachesNext(Three, s, Lock);
    StepKeepsInv(s, Lock);
    var s1 := Step(s, Lock);
    assert s1.waiting[0] == {1};
  }

  // ---------------------------------------------------------------- resuming a suspended task

  /** The wait of p is over: its event has come, or its time has run out. */
  predicate WaitOver(t: Task) {
    && t.dly == 0
    && match t.phase
       case Running => true
       case Pending(_) => t.stat <= {SUSPEND}
       case MultiPending(_) => t.eventPtr.Some? || t.pend == PendTo
  }

  /** OSTaskResume on a suspended task whose wait is over makes it ready exactly when the
      task is not inside OSEventPendMulti, a fact its control block shows before the call: the
      OS_STAT_MULTI bit is still set, so OSTaskResume takes the task to be still pending. */
  lemma ResumeReadiesUnlessMulti(s: State, p: Prio)
    requires Inv(s) && Enabled(s, Resume(p)) && SUSPEND in s.tasks[p].stat && WaitOver(s.tasks[p])
    ensures p in Step(s, Resume(p)).ready <==> s.tasks[p].multiPtr == None
  {
    assert TaskOk(s, p);
    var left := s.tasks[p].stat - {SUSPEND};
    assert if s.tasks[p].multiPtr == None then left == {} else MULTI in left;
  }

  /** p has been handed an event by OSEventPendMulti but is not ready (an interrupt routine
      may still be running on top of it). */
  predicate Wedged(s: State, p: Prio) {
    && p in s.tasks && p !in s.ready && (s.cur == p ==> s.intNesting > 0)
    && s.tasks[p].phase.MultiPending? && s.tasks[p].eventPtr.Some?
  }

  lemma WedgedOwn(s: State, p: Prio, a: Action)
    requires Inv(s) && Wedged(s, p) && Enabled(s, a) && (a == Tick(p) || a == Suspend(p) || a == Resume(p))
    ensures Wedged(Step(s, a), p)
  {
    assert TaskOk(s, p);
    assert MULTI in s.tasks[p].stat - {SUSPEND};
  }

  lemma WhoRuns(s: State, a: Action)
    requires Inv(s) && Enabled(s, a)
    ensures Step(s, a).cur == s.cur || Step(s, a).cur in s.ready
    ensures s.tasks[s.cur].phase != Running && s.intNesting > 0 && Step(s, a).intNesting == 0 ==>
      Step(s, a).cur in s.ready
  {
  }

  lemma WedgedStep(s: State, p: Prio, a: Action)
    requires Inv(s) && Wedged(s, p) && Enabled(s, a)
    ensures Wedged(Step(s, a), p)
  {
    if a == Tick(p) || a == Suspend(p) || a == Resume(p) {
      WedgedOwn(s, p, a);
    } else {
      assert TaskOk(s, p);
      WhoRuns(s, a);
      if DeliveryOf(s, a).Some? {
        var d := DeliveryOf(s, a).value;
        assert d.prio in s.waiting[d.event];
      }
      OthersUnlessGiven(s, p, a);
    }
  }

  /** Exactly how a task gets there: the event reaches it while it is suspended, or it is
      suspended after the event reached it and before it has run. */
  lemma WedgeArises(s: State, p: Prio, a: Action)
    requires Inv(s) && Enabled(s, a) && p in s.tasks && s.tasks[p].phase.MultiPending?
    requires !Wedged(s, p) && !(s.intNesting == 0 && s.cur == p)
    ensures Wedged(Step(s, a), p) <==>
      || (DeliveryOf(s, a).Some? && DeliveryOf(s, a).value.prio == p && SUSPEND in s.tasks[p].stat)
      || (a == Suspend(p) && s.tasks[p].eventPtr.Some?)
  {
    if DeliveryOf(s, a).Some? {
      WedgeByDelivery(s, p, a);
    } else if a == Suspend(p) {
      assert TaskOk(s, p);
    } else {
      UnwedgedStays(s, p, a);
    }
  }

  lemma WedgeByDelivery(s: State, p: Prio, a: Action)
    requires Inv(s) && Enabled(s, a) && p in s.tasks && s.tasks[p].phase.MultiPending?
    requires !Wedged(s, p) && !(s.intNesting == 0 && s.cur == p) && DeliveryOf(s, a).Some?
    ensures Wedged(Step(s, a), p) <==> DeliveryOf(s, a).value.prio == p && SUSPEND in s.tasks[p].stat
  {
    assert TaskOk(s, p);
    var d := DeliveryOf(s, a).value;
    if d.prio != p {
      OthersUnlessGiven(s, p, a);
    } else {
      GivenReady(s, p, a);
    }
  }

  lemma GivenReady(s: State, p: Prio, a: Action)
    requires Inv(s) && Enabled(s, a) && p in s.tasks && s.tasks[p].phase.MultiPending? && GivenBy(s, p, a)
    ensures Step(s, a).cur == s.cur && Step(s, a).intNesting == s.intNesting && p in Step(s, a).tasks
    ensures p in Step(s, a).ready <==> SUSPEND !in s.tasks[p].stat
    ensures var t := Step(s, a).tasks[p]; t.phase == s.tasks[p].phase && t.eventPtr.Some?
  {
    assert TaskOk(s, p);
    var d := DeliveryOf(s, a).value;
    assert Step(s, a) == Owing(EventTaskRdy(s, d.event, d.msg, d.pend));
  }

  lemma UnwedgedStays(s: State, p: Prio, a: Action)
    requires Inv(s) && Enabled(s, a) && p in s.tasks && s.tasks[p].phase.MultiPending?
    requires !Wedged(s, p) && !(s.intNesting == 0 && s.cur == p)
    requires DeliveryOf(s, a) == None && a != Suspend(p)
    ensures !Wedged(Step(s, a), p)
  {
    if a == Tick(p) || a == Resume(p) {
      assert TaskOk(s, p);
    } else {
      OthersKept(s, p, a);
      assert SameFor(s, Step(s, a), p);
    }
  }

  /** Once wedged, a task is never ready again: no sequence of posts, aborts, ticks,
      suspensions and resumptions brings it back, and the event it was given is lost. */
  lemma {:induction false} WedgedForever(s: State, p: Prio, acts: seq<Action>)
    requires Inv(s) && Wedged(s, p) && IsRun(s, acts)
    ensures p !in End(s, acts).ready && (End(s, acts).cur == p ==> End(s, acts).intNesting > 0)
    decreases |acts|
  {
    if acts != [] {
      StepKeepsInv(s, acts[0]);
      WedgedStep(s, p, acts[0]);
      WedgedForever(Step(s, acts[0]), p, acts[1..]);
    }
  }

  /** It happens: task 1 waits for any of one event, task 5 suspends it and then posts the event. */
  lemma WedgeHappens()
    ensures Started(Three)
    ensures exists s :: Reaches(Three, s) && Inv(s) && Wedged(s, 1)
  {
    var s := FirstWaits(PendMulti([0], 0));
    ReachesNext(Three, s, Suspend(1));
    StepKeepsInv(s, Suspend(1));
    var s1 := Step(s, Suspend(1));
    assert s1.waiting[0] == {1} && Least(s1.waiting[0]) == 1;
    assert GivenBy(s1, 1, Post(0, 0));
    GivenReady(s1, 1, Post(0, 0));
    ReachesNext(Three, s1, Post(0, 0));
    StepKeepsInv(s1, Post(0, 0));
  }

  // ---------------------------------------------------------------- timed out while suspended

  /** p's wait in OSEventPendMulti has timed out but p is not ready. */
  predicate Stranded(s: State, p: Prio) {
    && p in s.tasks && p !in s.ready && (s.cur == p ==> s.intNesting > 0)
    && s.tasks[p].phase.MultiPending? && s.tasks[p].eventPtr == None && s.tasks[p].pend == PendTo
  }

  predicate GivenBy(s: State, p: Prio, a: Action)
    requires Typed(s) && Enabled(s, a)
  {
    DeliveryOf(s, a).Some? && DeliveryOf(s, a).value.prio == p
  }

  lemma StrandedGiven(s: State, p: Prio, a: Action)
    requires Inv(s) && Stranded(s, p) && Enabled(s, a) && GivenBy(s, p, a)
    ensures p in Step(s, a).ready <==> SUSPEND !in s.tasks[p].stat
    ensures SUSPEND in s.tasks[p].stat ==> Wedged(Step(s, a), p)
  {
    assert TaskOk(s, p);
    GivenReady(s, p, a);
  }

  lemma StrandedNotGiven(s: State, p: Prio, a: Action)
    requires Inv(s) && Stranded(s, p) && Enabled(s, a) && !GivenBy(s, p, a)
    ensures Stranded(Step(s, a), p)
  {
    assert TaskOk(s, p);
    if a == Tick(p) || a == Suspend(p) || a == Resume(p) {
      assert MULTI in s.tasks[p].stat - {SUSPEND};
    } else {
      WhoRuns(s, a);
      OthersUnlessGiven(s, p, a);
    }
  }

  lemma OthersUnlessGiven(s: State, p: Prio, a: Action)
    requires Inv(s) && p in s.tasks && s.tasks[p].phase != Running && Enabled(s, a) && !GivenBy(s, p, a)
    requires !(a == PendReturn && s.cur == p) && a != Tick(p) && a != Suspend(p) && a != Resume(p)
    ensures SameFor(s, Step(s, a), p)
  {
    if DeliveryOf(s, a).Some? {
      var d := DeliveryOf(s, a).value;
      assert Step(s, a) == Owing(EventTaskRdy(s, d.event, d.msg, d.pend));
      RdyOthers(s, d.event, d.msg, d.pend, p);
    } else {
      OthersKept(s, p, a);
    }
  }

  /** Only a post or an abort that picks it, while it is not suspended, makes such a task ready:
      OSTaskResume, further ticks and all else leave it as it is; and the timeout is not reported then. */
  lemma StrandedStep(s: State, p: Prio, a: Action)
    requires Inv(s) && Stranded(s, p) && Enabled(s, a)
    ensures p in Step(s, a).ready <==> GivenBy(s, p, a) && SUSPEND !in s.tasks[p].stat
    ensures !GivenBy(s, p, a) ==> Stranded(Step(s, a), p)
    ensures GivenBy(s, p, a) && SUSPEND in s.tasks[p].stat ==> Wedged(Step(s, a), p)
  {
    if GivenBy(s, p, a) { StrandedGiven(s, p, a); } else { StrandedNotGiven(s, p, a); }
  }

  /** As long as no event is handed to it, a stranded task never runs again. */
  lemma {:induction false} StrandedUntilGiven(s: State, p: Prio, acts: seq<Action>)
    requires Inv(s) && Stranded(s, p) && IsRun(s, acts) && DeliveriesTo(p, s, acts) == []
    ensures Stranded(End(s, acts), p)
    decreases |acts|
  {
    if acts != [] {
      StepKeepsInv(s, acts[0]);
      StrandedStep(s, p, acts[0]);
      StrandedUntilGiven(Step(s, acts[0]), p, acts[1..]);
    }
  }

  /** Exactly how a task gets there: its time runs out while it is suspended, or it is suspended
      after its time ran out and before it has run. */
  lemma StrandedArises(s: State, p: Prio, a: Action)
    requires Inv(s) && Enabled(s, a) && p in s.tasks && s.tasks[p].phase.MultiPending?
    requires !Stranded(s, p) && !(s.intNesting == 0 && s.cur == p)
    ensures var t := s.tasks[p];
      Stranded(Step(s, a), p) <==>
      || (a == Tick(p) && t.dly == 1 && SUSPEND in t.stat && t.phase.events != [])
      || (a == Suspend(p) && t.eventPtr == None && t.pend == PendTo)
  {
    assert TaskOk(s, p);
    if a == Tick(p) {
      StillWaiting(s, p);
      TickStrands(s, p);
    } else if a == Suspend(p) || a == Resume(p) {
      assert MULTI in s.tasks[p].stat - {SUSPEND};
    } else if GivenBy(s, p, a) {
      GivenReady(s, p, a);
    } else {
      OthersUnlessGiven(s, p, a);
    }
  }

  lemma TickStrands(s: State, p: Prio)
    requires Inv(s) && Enabled(s, Tick(p)) && s.tasks[p].phase.MultiPending?
    requires !Stranded(s, p) && !(s.intNesting == 0 && s.cur == p)
    ensures Stranded(Step(s, Tick(p)), p) <==>
      s.tasks[p].dly == 1 && SUSPEND in s.tasks[p].stat && s.tasks[p].phase.events != []
  {
    assert TaskOk(s, p);
    TickTaskOk(s, p);
    if s.tasks[p].phase.events == [] && s.tasks[p].eventPtr == None {
      assert FlagsOf(s.stores, []) == {};
    }
  }
}
