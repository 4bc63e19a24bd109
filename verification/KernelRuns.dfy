/** What the kernel keeps over whole runs. */
module KernelRuns {
  import opened Options
  import opened KernelModel
  import opened KernelInvariant

  ghost predicate IsRun(s: State, acts: seq<Action>)
    decreases |acts|
  {
    acts == [] || (Typed(s) && Enabled(s, acts[0]) && IsRun(Step(s, acts[0]), acts[1..]))
  }

  ghost function End(s: State, acts: seq<Action>): State
    requires IsRun(s, acts)
    decreases |acts|
  {
    if acts == [] then s else End(Step(s, acts[0]), acts[1..])
  }

  /** Some run leads from s to t. */
  ghost predicate Reaches(s: State, t: State) {
    exists acts :: IsRun(s, acts) && End(s, acts) == t
  }

  lemma {:induction false} RunSnoc(s: State, acts: seq<Action>, a: Action)
    requires IsRun(s, acts) && Typed(End(s, acts)) && Enabled(End(s, acts), a)
    ensures IsRun(s, acts + [a]) && End(s, acts + [a]) == Step(End(s, acts), a)
    decreases |acts|
  {
    if acts == [] {
      assert (acts + [a])[1..] == [];
    } else {
      RunSnoc(Step(s, acts[0]), acts[1..], a);
      assert (acts + [a])[1..] == acts[1..] + [a];
    }
  }

  lemma ReachesSelf(s: State)
    ensures Reaches(s, s)
  {
    assert IsRun(s, []) && End(s, []) == s;
  }

  lemma ReachesNext(s: State, t: State, a: Action)
    requires Reaches(s, t) && Typed(t) && Enabled(t, a)
    ensures Reaches(s, Step(t, a))
  {
    var acts :| IsRun(s, acts) && End(s, acts) == t;
    RunSnoc(s, acts, a);
  }

  /** The state OSStart leaves: every task just created, the most urgent one running. */
  ghost predicate Started(s: State) {
    && s.idle in s.tasks && (forall p :: p in s.tasks ==> s.tasks[p] == FreshTask)
    && s.ready == s.tasks.Keys && IsMin(s.cur, s.ready)
    && |s.waiting| == |s.stores| && (forall e :: 0 <= e < |s.waiting| ==> s.waiting[e] == {})
    && s.intNesting == 0 && s.lockNesting == 0 && !s.stale
  }

  lemma {:induction false} RunKeepsInv(s: State, acts: seq<Action>)
    requires Inv(s) && IsRun(s, acts)
    ensures Inv(End(s, acts))
    decreases |acts|
  {
    if acts != [] {
      StepKeepsInv(s, acts[0]);
      RunKeepsInv(Step(s, acts[0]), acts[1..]);
    }
  }

  /** Ready tasks are neither suspended nor delayed; a task with a clear status byte and no
      delay is ready; a task on an event's list has a control block that names the event, is
      not ready unless its pend timed out and it has yet to run, and the event is empty. */
  predicate Consistent(s: State, p: Prio)
    requires |s.stores| == |s.waiting| && p in s.tasks
  {
    var t := s.tasks[p];
    && (p in s.ready ==> SUSPEND !in t.stat && t.dly == 0)
    && (t.stat == {} && t.dly == 0 ==> p in s.ready)
    && (forall e :: 0 <= e < |s.waiting| && p in s.waiting[e] ==>
          && (t.eventPtr == Some(e) || (t.multiPtr.Some? && e in t.multiPtr.value))
          && (p in s.ready ==> t.pend == PendTo && t.phase != Running)
          && Empty(s.stores[e]))
  }

  /** Safety of every reachable state. */
  lemma ReachableSafe(s0: State, acts: seq<Action>)
    requires Started(s0) && IsRun(s0, acts)
    ensures var s := End(s0, acts);
      && Typed(s)
      && (forall p :: p in s.tasks ==> Consistent(s, p))
      && (s.intNesting == 0 && s.lockNesting == 0 && !s.tasks[s.cur].owes && !s.stale ==> IsMin(s.cur, s.ready))
  {
    RunKeepsInv(s0, acts);
    var s := End(s0, acts);
    forall p | p in s.tasks ensures Consistent(s, p) {
      assert TaskOk(s, p);
    }
  }

  /** What OS_EventTaskRdy and the tail of OSEventPendMulti take for granted holds in every
      reachable state: the event array of a waiting task, and the event a task was handed, exist. */
  lemma ReachableCallsSafe(s: State, acts: seq<Action>, e: EventId, p: Prio)
    requires Started(s) && IsRun(s, acts)
    ensures var r := End(s, acts);
      && Typed(r)
      && (e < |r.stores| && p in r.waiting[e] ==>
            p in r.tasks && (r.tasks[p].multiPtr.Some? ==> InRange(r, r.tasks[p].multiPtr.value)))
      && (p in r.tasks && r.tasks[p].phase.MultiPending? ==>
            && InRange(r, r.tasks[p].phase.events)
            && (r.tasks[p].eventPtr.Some? ==> r.tasks[p].eventPtr.value < |r.stores|))
  {
    RunKeepsInv(s, acts);
    var r := End(s, acts);
    if p in r.tasks { assert TaskOk(r, p); }
  }

  // ---------------------------------------------------------------- exactly-once delivery

  /** What OS_EventTaskRdy hands over in a step: to whom, which event, with what. */
  datatype Delivery = Delivery(prio: Prio, event: EventId, msg: Message, pend: PendStat)

  function DeliveryOf(s: State, a: Action): Option<Delivery>
    requires Typed(s) && Enabled(s, a)
  {
    match a
    case Post(e, msg) =>
      if s.waiting[e] == {} then None
      else Some(Delivery(Least(s.waiting[e]), e, if s.stores[e].Semaphore? then 0 else msg, PendOk))
    case Abort(e) => if s.waiting[e] == {} then None else Some(Delivery(Least(s.waiting[e]), e, 0, PendAbort))
    case _ => None
  }

  ghost function DeliveriesTo(p: Prio, s: State, acts: seq<Action>): seq<Delivery>
    requires IsRun(s, acts)
    decreases |acts|
  {
    if acts == [] then []
    else
      var d := DeliveryOf(s, acts[0]);
      (if d.Some? && d.value.prio == p then [d.value] else []) + DeliveriesTo(p, Step(s, acts[0]), acts[1..])
  }

  /** p's pend call does not return during the run. */
  ghost predicate StaysInCall(p: Prio, s: State, acts: seq<Action>)
    requires IsRun(s, acts)
    decreases |acts|
  {
    acts == [] ||
    (!(acts[0] == PendReturn && s.cur == p) && StaysInCall(p, Step(s, acts[0]), acts[1..]))
  }

  /** Where the pend call of p on the events es stands once the deliveries in `got` have been
      made to p: none, and p is on every list of es; or one, and p is on no list. */
  predicate Episode(s: State, p: Prio, es: seq<EventId>, got: seq<Delivery>) {
    && |s.stores| == |s.waiting| && p in s.tasks && InRange(s, es)
    && var t := s.tasks[p];
    && (t.phase == MultiPending(es) || (t.phase.Pending? && es == [t.phase.event]))
    && match |got|
       case 0 =>
         && OnExactly(s, p, es) && t.pend != PendAbort
         && (t.phase.MultiPending? ==> t.eventPtr == None)
         && (t.phase.Pending? ==> t.pend == PendTo || KindFlag(s.stores[es[0]]) in t.stat)
       case 1 =>
         && OnNoList(s, p) && t.pend != PendTo
         && got[0].event in es
         && got[0] == Delivery(p, got[0].event, t.msg, t.pend) && t.eventPtr == Some(got[0].event)
         && (t.pend == PendAbort || s.stores[got[0].event].Semaphore? ==> t.msg == 0)
       case _ => false
  }

  function NewFor(p: Prio, s: State, a: Action): seq<Delivery>
    requires Typed(s) && Enabled(s, a)
  {
    var d := DeliveryOf(s, a);
    if d.Some? && d.value.prio == p then [d.value] else []
  }

  lemma EpisodeStart(s: State, a: Action)
    requires Inv(s) && Enabled(s, a) && s.lockNesting == 0
    requires match a
      case Pend(e, _) => Empty(s.stores[e])
      case PendMulti(es, _) => TakeAll(s.stores, es).1 == []
      case _ => false
    ensures Episode(Step(s, a), s.cur, if a.Pend? then [a.event] else a.events, [])
  {
    assert TaskOk(s, s.cur);
  }

  lemma EpisodeRdy(s: State, p: Prio, es: seq<EventId>, got: seq<Delivery>, e: EventId, msg: Message, pend: PendStat)
    requires Inv(s) && Episode(s, p, es, got) && e < |s.stores| && s.waiting[e] != {} && pend != PendTo
    requires pend == PendAbort || s.stores[e].Semaphore? ==> msg == 0
    ensures var s1 := EventTaskRdy(s, e, msg, pend);
      Episode(s1, p, es, if Least(s.waiting[e]) == p then got + [Delivery(p, e, msg, pend)] else got)
  {
    var q := Least(s.waiting[e]);
    assert TaskOk(s, p) && TaskOk(s, q);
    if q == p {
      assert got == [];
    } else {
      RdyOthers(s, e, msg, pend, p);
    }
  }

  lemma EpisodeOwing(s: State, p: Prio, es: seq<EventId>, got: seq<Delivery>)
    requires Typed(s) && Episode(s, p, es, got)
    ensures Episode(Owing(s), p, es, got)
  {
  }

  lemma EpisodeStep(s: State, p: Prio, es: seq<EventId>, got: seq<Delivery>, a: Action)
    requires Inv(s) && Episode(s, p, es, got) && Enabled(s, a) && !(a == PendReturn && s.cur == p)
    ensures Episode(Step(s, a), p, es, got + NewFor(p, s, a))
  {
    match DeliveryOf(s, a)
    case Some(d) => EpisodeGiven(s, p, es, got, a, d);
    case None => EpisodeQuiet(s, p, es, got, a);
  }

  lemma EpisodeGiven(s: State, p: Prio, es: seq<EventId>, got: seq<Delivery>, a: Action, d: Delivery)
    requires Inv(s) && Episode(s, p, es, got) && Enabled(s, a) && DeliveryOf(s, a) == Some(d)
    ensures Episode(Step(s, a), p, es, got + NewFor(p, s, a))
  {
    EpisodeRdy(s, p, es, got, d.event, d.msg, d.pend);
    EventTaskRdyOk(s, d.event, d.msg, d.pend);
    EpisodeOwing(EventTaskRdy(s, d.event, d.msg, d.pend), p, es, got + NewFor(p, s, a));
  }

  lemma EpisodeUntouched(s: State, s1: State, p: Prio, es: seq<EventId>, got: seq<Delivery>)
    requires Episode(s, p, es, got) && SameFor(s, s1, p)
    ensures Episode(s1, p, es, got)
  {
  }

  /** The steps that change p's own block without delivering to it. */
  lemma EpisodeTick(s: State, p: Prio, es: seq<EventId>, got: seq<Delivery>)
    requires Inv(s) && Episode(s, p, es, got) && Enabled(s, Tick(p))
    ensures Episode(Step(s, Tick(p)), p, es, got)
  {
    assert TaskOk(s, p);
    StillWaiting(s, p);
  }

  lemma EpisodeSuspend(s: State, p: Prio, es: seq<EventId>, got: seq<Delivery>)
    requires Inv(s) && Episode(s, p, es, got) && Enabled(s, Suspend(p))
    ensures Episode(Step(s, Suspend(p)), p, es, got)
  {
    assert TaskOk(s, p);
  }

  lemma EpisodeResume(s: State, p: Prio, es: seq<EventId>, got: seq<Delivery>)
    requires Inv(s) && Episode(s, p, es, got) && Enabled(s, Resume(p))
    ensures Episode(Step(s, Resume(p)), p, es, got)
  {
    assert TaskOk(s, p);
  }

  lemma OthersPend(s: State, p: Prio, a: Action)
    requires Inv(s) && p in s.tasks && s.tasks[p].phase != Running && Enabled(s, a) && a.Pend?
    ensures SameFor(s, Step(s, a), p)
  {
    assert p != s.cur;
  }

  lemma OthersPendMulti(s: State, p: Prio, a: Action)
    requires Inv(s) && p in s.tasks && s.tasks[p].phase != Running && Enabled(s, a) && a.PendMulti?
    ensures SameFor(s, Step(s, a), p)
  {
    assert p != s.cur;
    TakeAllOk(s.stores, a.events);
  }

  lemma OthersTick(s: State, p: Prio, q: Prio)
    requires Inv(s) && p in s.tasks && p != q && Enabled(s, Tick(q))
    ensures SameFor(s, Step(s, Tick(q)), p)
  {
  }

  lemma OthersSuspend(s: State, p: Prio, q: Prio)
    requires Inv(s) && p in s.tasks && p != q && Enabled(s, Suspend(q))
    ensures SameFor(s, Step(s, Suspend(q)), p)
  {
  }

  lemma OthersResume(s: State, p: Prio, q: Prio)
    requires Inv(s) && p in s.tasks && p != q && Enabled(s, Resume(q))
    ensures SameFor(s, Step(s, Resume(q)), p)
  {
  }

  /** Steps that only move control, whoever takes them. */
  lemma OthersControl(s: State, p: Prio, a: Action)
    requires Inv(s) && p in s.tasks && Enabled(s, a)
    requires a.IntEnter? || a.IntExit? || a.Lock? || a.Unlock? || a.Sched?
    ensures SameFor(s, Step(s, a), p)
  {
    assert Step(s, a).waiting == s.waiting && Step(s, a).stores == s.stores && Step(s, a).ready == s.ready;
  }

  lemma OthersStart(s: State, p: Prio, a: Action)
    requires Inv(s) && p in s.tasks && s.tasks[p].phase != Running && Enabled(s, a) && (a.Create? || a.Delay?)
    ensures SameFor(s, Step(s, a), p)
  {
    assert p != s.cur;
    assert Step(s, a).waiting == s.waiting && Step(s, a).stores == s.stores;
  }

  lemma OthersReturn(s: State, p: Prio)
    requires Inv(s) && p in s.tasks && Enabled(s, PendReturn) && s.cur != p
    ensures SameFor(s, Step(s, PendReturn), p)
  {
  }

  /** A post or abort that nobody waits for. */
  lemma OthersPost(s: State, p: Prio, a: Action)
    requires Inv(s) && p in s.tasks && Enabled(s, a) && (a.Post? || a.Abort?) && DeliveryOf(s, a) == None
    ensures SameFor(s, Step(s, a), p)
  {
  }

  /** What other tasks do, short of a delivery, leaves a waiting task alone. */
  lemma OthersKept(s: State, p: Prio, a: Action)
    requires Inv(s) && p in s.tasks && s.tasks[p].phase != Running && Enabled(s, a)
    requires !(a == PendReturn && s.cur == p) && DeliveryOf(s, a) == None
    requires a != Tick(p) && a != Suspend(p) && a != Resume(p)
    ensures SameFor(s, Step(s, a), p)
  {
    match a
    case Pend(_, _) => OthersPend(s, p, a);
    case PendMulti(_, _) => OthersPendMulti(s, p, a);
    case PendReturn => OthersReturn(s, p);
    case Tick(q) => OthersTick(s, p, q);
    case Suspend(q) => OthersSuspend(s, p, q);
    case Resume(q) => OthersResume(s, p, q);
    case Create(_) => OthersStart(s, p, a);
    case Delay(_) => OthersStart(s, p, a);
    case Post(_, _) => OthersPost(s, p, a);
    case Abort(_) => OthersPost(s, p, a);
    case _ => OthersControl(s, p, a);
  }

  lemma EpisodeQuiet(s: State, p: Prio, es: seq<EventId>, got: seq<Delivery>, a: Action)
    requires Inv(s) && Episode(s, p, es, got) && Enabled(s, a) && !(a == PendReturn && s.cur == p)
    requires DeliveryOf(s, a) == None
    ensures Episode(Step(s, a), p, es, got)
  {
    if a == Tick(p) {
      EpisodeTick(s, p, es, got);
    } else if a == Suspend(p) {
      EpisodeSuspend(s, p, es, got);
    } else if a == Resume(p) {
      EpisodeResume(s, p, es, got);
    } else {
      OthersKept(s, p, a);
      EpisodeUntouched(s, Step(s, a), p, es, got);
    }
  }

  lemma {:induction false} EpisodeRun(s: State, p: Prio, es: seq<EventId>, got: seq<Delivery>, acts: seq<Action>)
    requires Inv(s) && Episode(s, p, es, got) && IsRun(s, acts) && StaysInCall(p, s, acts)
    ensures Inv(End(s, acts)) && Episode(End(s, acts), p, es, got + DeliveriesTo(p, s, acts))
    decreases |acts|
  {
    if acts == [] {
      assert got + DeliveriesTo(p, s, acts) == got;
    } else {
      var s1 := Step(s, acts[0]);
      StepKeepsInv(s, acts[0]);
      EpisodeStep(s, p, es, got, acts[0]);
      EpisodeRun(s1, p, es, got + NewFor(p, s, acts[0]), acts[1..]);
      assert got + NewFor(p, s, acts[0]) + DeliveriesTo(p, s1, acts[1..]) == got + DeliveriesTo(p, s, acts);
    }
  }

  /** What a pend call must report, given the deliveries made while it was outstanding. */
  function Report(got: seq<Delivery>): PendResult {
    if got == [] then PendResult(ErrTimeout, None, 0)
    else PendResult(if got[0].pend == PendAbort then ErrAbort else ErrNone, Some(got[0].event), got[0].msg)
  }

  /** Exactly-once delivery.  From the moment a task waits on any events (one, or an array) to
      the moment its call returns, whatever posts, aborts, ticks, suspensions and other tasks
      come between: at most one event is handed to it; once one is, the task is on no wait
      list; until then it is on the list of every event it named; the call returns that event
      and its message, or a timeout if none came; and after returning it is on no list. */
  lemma DeliveredExactlyOnce(s: State, a: Action, acts: seq<Action>)
    requires Inv(s) && Enabled(s, a) && s.lockNesting == 0
    requires match a
      case Pend(e, _) => Empty(s.stores[e])
      case PendMulti(es, _) => TakeAll(s.stores, es).1 == []
      case _ => false
    requires IsRun(Step(s, a), acts) && StaysInCall(s.cur, Step(s, a), acts)
    ensures var p, es := s.cur, if a.Pend? then [a.event] else a.events;
      var got, s1 := DeliveriesTo(p, Step(s, a), acts), End(Step(s, a), acts);
      && |got| <= 1
      && (got == [] ==> OnExactly(s1, p, es))
      && (got != [] ==> got[0].event in es && OnNoList(s1, p))
      && Typed(s1)
      && (s1.cur == p && Enabled(s1, PendReturn) ==>
            && (s1.tasks[p].eventPtr.Some? ==> s1.tasks[p].eventPtr.value < |s1.stores|)
            && TailResult(s1) == Report(got)
            && OnNoList(Step(s1, PendReturn), p))
  {
    var p, es := s.cur, if a.Pend? then [a.event] else a.events;
    EpisodeStart(s, a);
    StepKeepsInv(s, a);
    EpisodeRun(Step(s, a), p, es, [], acts);
    var got, s1 := DeliveriesTo(p, Step(s, a), acts), End(Step(s, a), acts);
    assert [] + got == got;
    if s1.cur == p && Enabled(s1, PendReturn) { EpisodeReports(s1, es, got); }
  }

  lemma EpisodeReports(s: State, es: seq<EventId>, got: seq<Delivery>)
    requires Inv(s) && Episode(s, s.cur, es, got) && Enabled(s, PendReturn)
    ensures s.tasks[s.cur].eventPtr.Some? ==> s.tasks[s.cur].eventPtr.value < |s.stores|
    ensures TailResult(s) == Report(got)
    ensures OnNoList(Step(s, PendReturn), s.cur)
  {
    assert TaskOk(s, s.cur);
    ReturnLeaves(s);
  }

  lemma ReturnLeaves(s: State)
    requires Inv(s) && Enabled(s, PendReturn)
    ensures OnNoList(Step(s, PendReturn), s.cur)
  {
    StepKeepsInv(s, PendReturn);
    assert TaskOk(Step(s, PendReturn), s.cur);
  }
}
