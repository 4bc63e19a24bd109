/** The invariant of the kernel state machine, and that every step keeps it. */
module KernelInvariant {
  import opened Options
  import opened KernelModel

  /** Ready tasks are neither suspended nor delayed, and a task whose status byte is
      OS_STAT_RDY with no delay left is ready. */
  predicate ReadyOk(s: State, p: Prio)
    requires p in s.tasks
  {
    var t := s.tasks[p];
    && (p in s.ready ==> SUSPEND !in t.stat && t.dly == 0)
    && (t.stat == {} && t.dly == 0 ==> p in s.ready)
  }

  predicate OnNoList(s: State, p: Prio) {
    forall e :: 0 <= e < |s.waiting| ==> p !in s.waiting[e]
  }

  predicate OnExactly(s: State, p: Prio, es: seq<EventId>) {
    forall e :: 0 <= e < |s.waiting| ==> (p in s.waiting[e] <==> e in es)
  }

  predicate RunningOk(s: State, p: Prio, t: Task) {
    && t.eventPtr == None && t.multiPtr == None
    && t.stat <= {SUSPEND} && t.pend == PendOk
    && OnNoList(s, p)
  }

  /** A single pend.  The task is on the list of its event until that event is posted or
      aborted; a timeout makes it ready and leaves it on the list until it runs. */
  predicate PendingOk(s: State, p: Prio, t: Task, e: EventId) {
    && e < |s.stores| && t.eventPtr == Some(e) && t.multiPtr == None
    && var kind := KindFlag(s.stores[e]);
    && t.stat <= {kind, SUSPEND}
    && OnExactly(s, p, if t.pend == PendTo || kind in t.stat then [e] else [])
    && (kind in t.stat ==> t.pend == PendOk && p !in s.ready)
    && (kind !in t.stat ==> t.dly == 0)
  }

  /** A multi pend.  Either no event has come and the task is on the list of every event of
      the array, or one has and the task is on none. */
  predicate MultiOk(s: State, p: Prio, t: Task, es: seq<EventId>) {
    && InRange(s, es) && t.multiPtr == Some(es)
    && MULTI in t.stat && t.stat <= {SEM, MBOX, QUEUE, SUSPEND, MULTI}
    && match t.eventPtr
       case None =>
         && OnExactly(s, p, es)
         && (match t.pend
             case PendOk => t.stat * PEND_ANY == FlagsOf(s.stores, es) && (es != [] ==> p !in s.ready)
             case PendTo => t.stat * PEND_ANY == {} && t.dly == 0
             case PendAbort => false)
       case Some(e) => e in es && OnNoList(s, p) && t.pend != PendTo && t.dly == 0
  }

  predicate TaskOk(s: State, p: Prio)
    requires p in s.tasks
  {
    var t := s.tasks[p];
    && ReadyOk(s, p)
    && match t.phase
       case Running => RunningOk(s, p, t)
       case Pending(e) => PendingOk(s, p, t, e)
       case MultiPending(es) => MultiOk(s, p, t, es)
  }

  predicate IdleOk(s: State) {
    s.idle in s.tasks && s.tasks[s.idle] == FreshTask
  }

  /** Nobody waits on an event that has something to give. */
  predicate StoresOk(s: State)
    requires |s.waiting| == |s.stores|
  {
    forall e :: 0 <= e < |s.stores| && s.waiting[e] != {} ==> Empty(s.stores[e])
  }

  /** Outside interrupts and locks, a task that owes no call of OS_Sched is ready, and is the
      most urgent ready task unless OSTimeTick was called from task level meanwhile. */
  ghost predicate SchedOk(s: State)
    requires s.cur in s.tasks
  {
    && (s.lockNesting > 0 ==> s.tasks[s.cur].phase == Running)
    && (s.intNesting == 0 && s.lockNesting == 0 && !s.tasks[s.cur].owes ==>
          s.cur in s.ready && (!s.stale ==> IsMin(s.cur, s.ready)))
  }

  predicate AllTasksOk(s: State) {
    forall p :: p in s.tasks ==> TaskOk(s, p)
  }

  /** The part of the invariant that does not depend on who runs. */
  predicate DataOk(s: State) {
    Typed(s) && AllTasksOk(s) && IdleOk(s) && StoresOk(s)
  }

  ghost predicate Inv(s: State) {
    DataOk(s) && SchedOk(s)
  }

  // ---------------------------------------------------------------- frame lemmas

  /** What TaskOk(s, p) reads: p's block, its readiness and the lists it is on. */
  predicate SameFor(s: State, s1: State, p: Prio) {
    && p in s.tasks && p in s1.tasks
    && s1.tasks[p].(owes := false) == s.tasks[p].(owes := false)
    && (p in s1.ready <==> p in s.ready)
    && |s1.waiting| == |s.waiting| && |s1.stores| == |s.stores|
    && (forall e :: 0 <= e < |s.waiting| ==> (p in s1.waiting[e] <==> p in s.waiting[e]))
    && SameKinds(s, s1)
  }

  predicate SameKinds(s: State, s1: State) {
    |s1.stores| == |s.stores| &&
    forall e :: 0 <= e < |s.stores| ==> KindFlag(s1.stores[e]) == KindFlag(s.stores[e])
  }

  lemma SameFlags(stores: seq<Store>, stores1: seq<Store>, es: seq<EventId>)
    requires |stores| == |stores1|
    requires forall e :: 0 <= e < |stores| ==> KindFlag(stores1[e]) == KindFlag(stores[e])
    requires forall i :: 0 <= i < |es| ==> es[i] < |stores|
    ensures FlagsOf(stores1, es) == FlagsOf(stores, es)
  {
    forall f ensures f in FlagsOf(stores1, es) <==> f in FlagsOf(stores, es) {
      if f in FlagsOf(stores1, es) {
        var i :| 0 <= i < |es| && KindFlag(stores1[es[i]]) == f;
        assert KindFlag(stores[es[i]]) == f;
      }
      if f in FlagsOf(stores, es) {
        var i :| 0 <= i < |es| && KindFlag(stores[es[i]]) == f;
        assert KindFlag(stores1[es[i]]) == f;
      }
    }
  }

  lemma Untouched(s: State, s1: State, p: Prio)
    requires SameFor(s, s1, p) && |s.waiting| == |s.stores| && TaskOk(s, p)
    ensures TaskOk(s1, p)
  {
    var t := s.tasks[p];
    if t.phase.MultiPending? {
      SameFlags(s.stores, s1.stores, t.phase.events);
    }
  }

  /** When every task but p is untouched, only p has to be looked at again. */
  lemma OnlyTouched(s: State, s1: State, p: Prio)
    requires Typed(s) && AllTasksOk(s)
    requires forall q :: q in s1.tasks && q != p ==> SameFor(s, s1, q)
    requires p in s1.tasks ==> TaskOk(s1, p)
    ensures AllTasksOk(s1)
  {
    forall q | q in s1.tasks ensures TaskOk(s1, q) {
      if q != p { Untouched(s, s1, q); }
    }
  }

  /** Steps that only move control: who runs, nesting counts, owed calls. */
  lemma ControlOnly(s: State, s1: State)
    requires DataOk(s)
    requires s1.idle == s.idle && s1.ready == s.ready && s1.waiting == s.waiting && s1.stores == s.stores
    requires s1.tasks.Keys == s.tasks.Keys && s1.cur in s.tasks
    requires forall q :: q in s.tasks ==> s1.tasks[q].(owes := false) == s.tasks[q].(owes := false)
    requires s1.tasks[s.idle] == s.tasks[s.idle]
    ensures DataOk(s1)
  {
    forall q | q in s1.tasks ensures TaskOk(s1, q) {
      assert SameFor(s, s1, q);
      Untouched(s, s1, q);
    }
  }

  lemma OwingKeeps(s: State)
    requires DataOk(s) && (s.cur != s.idle || s.intNesting > 0)
    ensures DataOk(Owing(s))
  {
    ControlOnly(s, Owing(s));
  }

  // ---------------------------------------------------------------- steps keep the invariant

  lemma RdyTask(s: State, e: EventId, msg: Message, pend: PendStat)
    requires DataOk(s) && e < |s.stores| && s.waiting[e] != {} && pend != PendTo
    ensures var s1 := EventTaskRdy(s, e, msg, pend); TaskOk(s1, Least(s.waiting[e]))
  {
    assert TaskOk(s, Least(s.waiting[e]));
  }

  lemma RdyOthers(s: State, e: EventId, msg: Message, pend: PendStat, q: Prio)
    requires DataOk(s) && e < |s.stores| && s.waiting[e] != {}
    requires q in s.tasks && q != Least(s.waiting[e])
    ensures SameFor(s, EventTaskRdy(s, e, msg, pend), q)
  {
  }

  lemma EventTaskRdyOk(s: State, e: EventId, msg: Message, pend: PendStat)
    requires DataOk(s) && e < |s.stores| && s.waiting[e] != {} && pend != PendTo
    ensures DataOk(EventTaskRdy(s, e, msg, pend))
  {
    var s1 := EventTaskRdy(s, e, msg, pend);
    var p := Least(s.waiting[e]);
    RdyTask(s, e, msg, pend);
    forall q | q in s1.tasks && q != p ensures SameFor(s, s1, q) { RdyOthers(s, e, msg, pend, q); }
    OnlyTouched(s, s1, p);
    assert TaskOk(s, p);
  }

  /** A task whose event has not come carries a pend bit, so a timeout will be seen as one. */
  lemma StillWaiting(s: State, p: Prio)
    requires p in s.tasks && TaskOk(s, p)
    ensures var t := s.tasks[p];
      match t.phase
      case Running => t.stat * PEND_ANY == {}
      case Pending(e) => KindFlag(s.stores[e]) in t.stat ==> KindFlag(s.stores[e]) in t.stat * PEND_ANY
      case MultiPending(es) =>
        t.pend == PendOk && t.eventPtr == None && es != [] ==> KindFlag(s.stores[es[0]]) in t.stat * PEND_ANY
  {
    var t := s.tasks[p];
    match t.phase
    case Running =>
    case Pending(e) =>
    case MultiPending(es) =>
      if t.pend == PendOk && t.eventPtr == None && es != [] {
        assert KindFlag(s.stores[es[0]]) in FlagsOf(s.stores, es);
      }
  }

  /** The last tick of a delay.  A task inside a pend is told of a timeout and is ready unless
      suspended, but still on the lists it was on; a task in its own code is just ready. */
  lemma TickTaskOk(s: State, p: Prio)
    requires DataOk(s) && p in s.tasks
    ensures TaskOk(TickOne(s, p), p)
    ensures var t, s1 := s.tasks[p], TickOne(s, p);
      t.dly == 1 ==>
        && (p in s1.ready <==> SUSPEND !in t.stat) && s1.waiting == s.waiting
        && match t.phase
           case Running => s1.tasks[p].pend == PendOk
           case Pending(e) => s1.tasks[p].pend == PendTo && OnExactly(s1, p, [e])
           case MultiPending(es) => es != [] ==> s1.tasks[p].pend == PendTo && OnExactly(s1, p, es)
  {
    assert TaskOk(s, p);
    StillWaiting(s, p);
  }

  lemma TickOneOk(s: State, p: Prio)
    requires DataOk(s) && p in s.tasks && p != s.idle
    ensures DataOk(TickOne(s, p))
  {
    TickTaskOk(s, p);
    OnlyTouched(s, TickOne(s, p), p);
  }

  lemma PendWaitOk(s: State, e: EventId, timeout: nat)
    requires Inv(s) && s.intNesting == 0 && s.lockNesting == 0 && AtCode(s) && e < |s.stores| && Empty(s.stores[e])
    ensures Inv(PendWait(s, e, timeout))
  {
    var s1 := PendWait(s, e, timeout);
    assert TaskOk(s, s.cur);
    OnlyTouched(s, s1, s.cur);
  }

  lemma MultiWaitOk(s: State, es: seq<EventId>, timeout: nat)
    requires Inv(s) && s.intNesting == 0 && s.lockNesting == 0 && AtCode(s) && InRange(s, es)
    requires forall i :: 0 <= i < |es| ==> Empty(s.stores[es[i]])
    ensures Inv(MultiWait(s, es, timeout))
  {
    var s1 := MultiWait(s, es, timeout);
    assert TaskOk(s, s.cur);
    OnlyTouched(s, s1, s.cur);
  }

  lemma TailOk(s: State)
    requires Inv(s) && Enabled(s, PendReturn)
    ensures Inv(Tail(s))
  {
    var s1 := Tail(s);
    assert TaskOk(s, s.cur);
    OnlyTouched(s, s1, s.cur);
  }

  lemma CreateOk(s: State, p: Prio)
    requires Inv(s) && Enabled(s, Create(p))
    ensures Inv(Step(s, Create(p)))
  {
    var s1 := AddTask(s, p);
    OnlyTouched(s, s1, p);
    OwingKeeps(s1);
  }

  lemma DelayOk(s: State, ticks: nat)
    requires Inv(s) && Enabled(s, Delay(ticks))
    ensures Inv(Step(s, Delay(ticks)))
  {
    if ticks != 0 {
      var s1 := s.(tasks := s.tasks[s.cur := s.tasks[s.cur].(dly := ticks)], ready := s.ready - {s.cur});
      assert TaskOk(s, s.cur);
      OnlyTouched(s, s1, s.cur);
      OwingKeeps(s1);
    }
  }

  lemma SuspendOk(s: State, p: Prio)
    requires Inv(s) && Enabled(s, Suspend(p))
    ensures Inv(Step(s, Suspend(p)))
  {
    var s1 := s.(tasks := s.tasks[p := s.tasks[p].(stat := s.tasks[p].stat + {SUSPEND})], ready := s.ready - {p});
    assert TaskOk(s, p);
    SuspendedTaskOk(s, s1, p);
    OnlyTouched(s, s1, p);
    if p == s.cur { OwingKeeps(s1); }
  }

  lemma SuspendedTaskOk(s: State, s1: State, p: Prio)
    requires DataOk(s) && p in s.tasks
    requires s1 == s.(tasks := s.tasks[p := s.tasks[p].(stat := s.tasks[p].stat + {SUSPEND})], ready := s.ready - {p})
    ensures TaskOk(s1, p)
  {
    assert TaskOk(s, p);
    assert (s.tasks[p].stat + {SUSPEND}) * PEND_ANY == s.tasks[p].stat * PEND_ANY;
  }

  lemma ResumedTaskOk(s: State, s1: State, p: Prio)
    requires DataOk(s) && p in s.tasks && SUSPEND in s.tasks[p].stat
    requires var t1 := s.tasks[p].(stat := s.tasks[p].stat - {SUSPEND});
      s1 == s.(tasks := s.tasks[p := t1], ready := if t1.stat == {} && t1.dly == 0 then s.ready + {p} else s.ready)
    ensures TaskOk(s1, p)
  {
    assert TaskOk(s, p);
    assert (s.tasks[p].stat - {SUSPEND}) * PEND_ANY == s.tasks[p].stat * PEND_ANY;
  }

  lemma ResumeOk(s: State, p: Prio)
    requires Inv(s) && Enabled(s, Resume(p))
    ensures Inv(Step(s, Resume(p)))
  {
    if SUSPEND in s.tasks[p].stat {
      var t1 := s.tasks[p].(stat := s.tasks[p].stat - {SUSPEND});
      var s1 := s.(tasks := s.tasks[p := t1], ready := if t1.stat == {} && t1.dly == 0 then s.ready + {p} else s.ready);
      ResumedTaskOk(s, s1, p);
      ResumedDataOk(s, s1, p, t1);
      OwingKeeps(s1);
    }
  }

  lemma ResumedDataOk(s: State, s1: State, p: Prio, t1: Task)
    requires DataOk(s) && p in s.tasks && p != s.idle
    requires s1.(ready := s.ready) == s.(tasks := s.tasks[p := t1])
    requires (s1.ready == s.ready || s1.ready == s.ready + {p}) && TaskOk(s1, p)
    ensures DataOk(s1)
  {
    OnlyTouched(s, s1, p);
  }

  /** Changing what events hold, kinds and wait lists unchanged. */
  lemma StoreChangeOk(s: State, stores: seq<Store>)
    requires Inv(s) && |stores| == |s.stores|
    requires forall e :: 0 <= e < |stores| ==> KindFlag(stores[e]) == KindFlag(s.stores[e])
    requires forall e :: 0 <= e < |stores| && s.waiting[e] != {} ==> Empty(stores[e])
    ensures Inv(s.(stores := stores))
  {
    var s1 := s.(stores := stores);
    forall q | q in s1.tasks ensures TaskOk(s1, q) {
      assert SameFor(s, s1, q);
      Untouched(s, s1, q);
    }
  }

  /** The immediate path only takes from the events named, never gives, and takes nothing
      exactly when all of them are empty. */
  lemma {:induction false} TakeAllOk(stores: seq<Store>, es: seq<EventId>)
    requires forall i :: 0 <= i < |es| ==> es[i] < |stores|
    ensures var (stores', taken) := TakeAll(stores, es);
      && (forall e :: 0 <= e < |stores| ==> KindFlag(stores'[e]) == KindFlag(stores[e]))
      && (forall e :: 0 <= e < |stores| && Empty(stores[e]) ==> Empty(stores'[e]))
      && (taken == [] <==> forall i :: 0 <= i < |es| ==> Empty(stores[es[i]]))
    decreases |es|
  {
    if es != [] {
      var rest := es[..|es| - 1];
      TakeAllOk(stores, rest);
      if TakeAll(stores, es).1 == [] {
        forall i | 0 <= i < |es| ensures Empty(stores[es[i]]) {
          if i < |rest| { assert rest[i] == es[i]; } else { NothingTaken(stores, rest); }
        }
      }
    }
  }

  lemma {:induction false} NothingTaken(stores: seq<Store>, es: seq<EventId>)
    requires forall i :: 0 <= i < |es| ==> es[i] < |stores|
    requires TakeAll(stores, es).1 == []
    ensures TakeAll(stores, es).0 == stores
    decreases |es|
  {
    if es != [] { NothingTaken(stores, es[..|es| - 1]); }
  }

  lemma PendStepOk(s: State, e: EventId, timeout: nat)
    requires Inv(s) && Enabled(s, Pend(e, timeout))
    ensures Inv(Step(s, Pend(e, timeout)))
  {
    if s.lockNesting == 0 {
      if Empty(s.stores[e]) { PendWaitOk(s, e, timeout); }
      else { StoreChangeOk(s, s.stores[e := Take(s.stores[e]).0]); }
    }
  }

  lemma PendMultiStepOk(s: State, es: seq<EventId>, timeout: nat)
    requires Inv(s) && Enabled(s, PendMulti(es, timeout))
    ensures Inv(Step(s, PendMulti(es, timeout)))
  {
    if s.lockNesting == 0 {
      TakeAllOk(s.stores, es);
      if TakeAll(s.stores, es).1 == [] { MultiWaitOk(s, es, timeout); }
      else { StoreChangeOk(s, TakeAll(s.stores, es).0); }
    }
  }

  lemma PostOk(s: State, e: EventId, msg: Message)
    requires Inv(s) && Enabled(s, Post(e, msg))
    ensures Inv(Step(s, Post(e, msg)))
  {
    if s.waiting[e] != {} {
      var m := if s.stores[e].Semaphore? then 0 else msg;
      EventTaskRdyOk(s, e, m, PendOk);
      OwingKeeps(EventTaskRdy(s, e, m, PendOk));
      RdySched(s, e, m, PendOk);
    } else {
      StoreChangeOk(s, s.stores[e := Put(s.stores[e], msg)]);
    }
  }

  lemma AbortOk(s: State, e: EventId)
    requires Inv(s) && Enabled(s, Abort(e))
    ensures Inv(Step(s, Abort(e)))
  {
    if s.waiting[e] != {} {
      EventTaskRdyOk(s, e, 0, PendAbort);
      OwingKeeps(EventTaskRdy(s, e, 0, PendAbort));
      RdySched(s, e, 0, PendAbort);
    }
  }

  lemma RdySched(s: State, e: EventId, msg: Message, pend: PendStat)
    requires Inv(s) && e < |s.stores| && s.waiting[e] != {} && (s.intNesting > 0 || AtCode(s))
    ensures SchedOk(Owing(EventTaskRdy(s, e, msg, pend)))
  {
  }

  lemma TickStepOk(s: State, p: Prio)
    requires Inv(s) && Enabled(s, Tick(p))
    ensures Inv(Step(s, Tick(p)))
  {
    TickOneOk(s, p);
    ControlOnly(TickOne(s, p), Step(s, Tick(p)));
  }

  lemma NestingOk(s: State, a: Action)
    requires Inv(s) && Enabled(s, a) && (a.IntEnter? || a.IntExit? || a.Lock? || a.Unlock?)
    ensures Inv(Step(s, a))
  {
    ControlOnly(s, Step(s, a));
  }

  lemma SchedStepOk(s: State)
    requires Inv(s) && Enabled(s, Sched)
    ensures Inv(Step(s, Sched))
  {
    ControlOnly(s, Step(s, Sched));
  }

  /** Every step keeps the invariant. */
  lemma StepKeepsInv(s: State, a: Action)
    requires Inv(s) && Enabled(s, a)
    ensures Inv(Step(s, a))
  {
    match a
    case Create(p) => CreateOk(s, p);
    case Pend(e, timeout) => PendStepOk(s, e, timeout);
    case PendMulti(es, timeout) => PendMultiStepOk(s, es, timeout);
    case PendReturn => TailOk(s);
    case Post(e, msg) => PostOk(s, e, msg);
    case Abort(e) => AbortOk(s, e);
    case Tick(p) => TickStepOk(s, p);
    case Delay(ticks) => DelayOk(s, ticks);
    case Suspend(p) => SuspendOk(s, p);
    case Resume(p) => ResumeOk(s, p);
    case IntEnter => NestingOk(s, a);
    case IntExit => NestingOk(s, a);
    case Lock => NestingOk(s, a);
    case Unlock => NestingOk(s, a);
    case Sched => SchedStepOk(s);
  }
}
