/** The uC/OS-II core (os_core.c) as a state machine over abstract priority sets.

    One step is one critical section of the C code, so interrupts can fall between any
    two steps.  A task that is inside a service carries its position: `phase` says which
    pend call it is inside, and `owes` that it still has to call OS_Sched before that
    service returns.  Bitmaps and linked lists are refined onto these sets in Kernel.dfy. */
module KernelModel {
  import opened Options

  type Prio = nat
  type EventId = nat
  type Message = nat

  datatype Flag = SEM | MBOX | QUEUE | SUSPEND | MUTEX | FLAGS | MULTI

  const PEND_ANY: set<Flag> := {SEM, MBOX, QUEUE, MUTEX, FLAGS}

  datatype PendStat = PendOk | PendTo | PendAbort

  /** What an event control block holds while nobody waits for it. */
  datatype Store =
    | Semaphore(count: nat)
    | Mailbox(message: Message)
    | Queue(messages: seq<Message>, size: nat)

  datatype Phase =
    | Running
    | Pending(event: EventId)
    | MultiPending(events: seq<EventId>)

  datatype Task = Task(
    stat: set<Flag>,
    pend: PendStat,
    dly: nat,
    eventPtr: Option<EventId>,
    multiPtr: Option<seq<EventId>>,
    msg: Message,
    phase: Phase,
    owes: bool)

  datatype State = State(
    idle: Prio,
    tasks: map<Prio, Task>,
    ready: set<Prio>,
    stores: seq<Store>,
    waiting: seq<set<Prio>>,
    cur: Prio,
    intNesting: nat,
    lockNesting: nat,
    stale: bool)

  const FreshTask := Task({}, PendOk, 0, None, None, 0, Running, false)

  // ---------------------------------------------------------------- priorities

  ghost predicate IsMin(p: Prio, s: set<Prio>) {
    p in s && forall q :: q in s ==> p <= q
  }

  /** The numerically least, so most urgent, member. */
  function Least(s: set<Prio>): (p: Prio)
    requires s != {}
    ensures IsMin(p, s)
  {
    LeastExists(s);
    var p :| p in s && forall q :: q in s ==> p <= q;
    p
  }

  lemma LeastExists(s: set<Prio>)
    requires s != {}
    ensures exists p :: IsMin(p, s)
  {
    var x :| x in s;
    if !IsMin(x, s) {
      var rest := s - {x};
      var y :| y in s && y < x;
      assert y in rest;
      LeastExists(rest);
      var m :| IsMin(m, rest);
      assert forall q :: q in s ==> q == x || q in rest;
      assert IsMin(m, s);
    }
  }

  // ---------------------------------------------------------------- event helpers

  function KindFlag(store: Store): Flag {
    match store
    case Semaphore(_) => SEM
    case Mailbox(_) => MBOX
    case Queue(_, _) => QUEUE
  }

  predicate Empty(store: Store) {
    match store
    case Semaphore(count) => count == 0
    case Mailbox(message) => message == 0
    case Queue(messages, _) => messages == []
  }

  /** Removing one unit or message from a non-empty store, and the message handed out. */
  function Take(store: Store): (r: (Store, Message))
    requires !Empty(store)
  {
    match store
    case Semaphore(count) => (Semaphore(count - 1), 0)
    case Mailbox(message) => (Mailbox(0), message)
    case Queue(messages, size) => (Queue(messages[1..], size), messages[0])
  }

  /** A post nobody waits for; refused when the store is full. */
  function Put(store: Store, msg: Message): Store {
    match store
    case Semaphore(count) => if count < 65535 then Semaphore(count + 1) else store
    case Mailbox(message) => if message == 0 then Mailbox(msg) else store
    case Queue(messages, size) => if |messages| < size then Queue(messages + [msg], size) else store
  }

  predicate InRange(s: State, es: seq<EventId>) {
    forall i :: 0 <= i < |es| ==> es[i] < |s.stores|
  }

  function FlagsOf(stores: seq<Store>, es: seq<EventId>): set<Flag>
    requires forall i :: 0 <= i < |es| ==> es[i] < |stores|
  {
    set i | 0 <= i < |es| :: KindFlag(stores[es[i]])
  }

  /** p joins the wait list of every event of es. */
  function Join(waiting: seq<set<Prio>>, p: Prio, es: seq<EventId>): (r: seq<set<Prio>>)
    ensures |r| == |waiting|
    ensures forall e :: 0 <= e < |r| ==> r[e] == if e in es then waiting[e] + {p} else waiting[e]
  {
    seq(|waiting|, e requires 0 <= e < |waiting| => if e in es then waiting[e] + {p} else waiting[e])
  }

  /** p leaves the wait list of every event of es. */
  function Leave(waiting: seq<set<Prio>>, p: Prio, es: seq<EventId>): (r: seq<set<Prio>>)
    ensures |r| == |waiting|
    ensures forall e :: 0 <= e < |r| ==> r[e] == if e in es then waiting[e] - {p} else waiting[e]
  {
    seq(|waiting|, e requires 0 <= e < |waiting| => if e in es then waiting[e] - {p} else waiting[e])
  }

  // ---------------------------------------------------------------- kernel services

  /** Task p is given event e: its delay is cleared, it is ready unless suspended, and it
      leaves the list of e and, in a multi pend, of every event it named. */
  function GivenTo(s: State, e: EventId, msg: Message, pend: PendStat, p: Prio): State
    requires e < |s.stores| && p in s.tasks
  {
    var t := s.tasks[p];
    var stat := t.stat - {KindFlag(s.stores[e])};
    var t1 := t.(dly := 0, msg := msg, stat := stat, pend := pend);
    var ready := if SUSPEND in stat then s.ready else s.ready + {p};
    if t.multiPtr == None then
      s.(tasks := s.tasks[p := t1], ready := ready, waiting := Leave(s.waiting, p, [e]))
    else
      s.(tasks := s.tasks[p := t1.(eventPtr := Some(e))], ready := ready,
         waiting := Leave(Leave(s.waiting, p, [e]), p, t.multiPtr.value))
  }

  /** OS_EventTaskRdy: the most urgent waiter of e is given the event. */
  function EventTaskRdy(s: State, e: EventId, msg: Message, pend: PendStat): State
    requires e < |s.stores| == |s.waiting| && s.waiting[e] != {} && s.waiting[e] <= s.tasks.Keys
  {
    GivenTo(s, e, msg, pend, Least(s.waiting[e]))
  }

  /** The body of the OSTimeTick loop for one control block. */
  function TickTask(t: Task): Task {
    if t.dly == 0 then t
    else if t.dly > 1 then t.(dly := t.dly - 1)
    else if t.stat * PEND_ANY != {} then t.(dly := 0, stat := t.stat - PEND_ANY, pend := PendTo)
    else t.(dly := 0, pend := PendOk)
  }

  predicate TickReadies(t: Task) {
    t.dly == 1 && SUSPEND !in t.stat
  }

  function TickOne(s: State, p: Prio): State
    requires p in s.tasks
  {
    s.(tasks := s.tasks[p := TickTask(s.tasks[p])],
       ready := if TickReadies(s.tasks[p]) then s.ready + {p} else s.ready)
  }

  /** A control block linked in by OS_TCBInit. */
  function AddTask(s: State, p: Prio): State {
    s.(tasks := s.tasks[p := FreshTask], ready := s.ready + {p})
  }

  /** The waiting half of a single pend. */
  function PendWait(s: State, e: EventId, timeout: nat): State
    requires s.cur in s.tasks && e < |s.stores| == |s.waiting|
  {
    var t := s.tasks[s.cur];
    s.(tasks := s.tasks[s.cur := t.(stat := t.stat + {KindFlag(s.stores[e])}, pend := PendOk, dly := timeout,
                                    eventPtr := Some(e), phase := Pending(e), owes := true)],
       waiting := Join(s.waiting, s.cur, [e]),
       ready := s.ready - {s.cur})
  }

  /** The waiting half of OSEventPendMulti. */
  function MultiWait(s: State, es: seq<EventId>, timeout: nat): State
    requires s.cur in s.tasks && InRange(s, es)
  {
    var t := s.tasks[s.cur];
    s.(tasks := s.tasks[s.cur := t.(stat := t.stat + FlagsOf(s.stores, es) + {MULTI}, pend := PendOk, dly := timeout,
                                    eventPtr := None, multiPtr := Some(es),
                                    phase := MultiPending(es), owes := true)],
       waiting := Join(s.waiting, s.cur, es),
       ready := s.ready - {s.cur})
  }

  datatype PendError = ErrNone | ErrAbort | ErrTimeout

  /** What a pend that had to wait hands back: the event, if one arrived, and its message. */
  datatype PendResult = PendResult(err: PendError, event: Option<EventId>, msg: Message)

  /** What the code after OS_Sched in a pend call returns. */
  function TailResult(s: State): PendResult
    requires s.cur in s.tasks
    requires s.tasks[s.cur].eventPtr.Some? ==> s.tasks[s.cur].eventPtr.value < |s.stores|
  {
    var t := s.tasks[s.cur];
    if t.phase.MultiPending? then
      (if t.pend == PendTo || t.eventPtr == None then PendResult(ErrTimeout, None, 0)
       else if t.pend == PendOk then
         PendResult(ErrNone, t.eventPtr,
                    if s.stores[t.eventPtr.value].Semaphore? then 0 else t.msg)
       else PendResult(ErrAbort, t.eventPtr, 0))
    else
      match t.pend
      case PendOk => PendResult(ErrNone, t.eventPtr, t.msg)
      case PendAbort => PendResult(ErrAbort, t.eventPtr, 0)
      case PendTo => PendResult(ErrTimeout, None, 0)
  }

  /** The code after OS_Sched in a pend call: a timed-out task takes itself off its lists. */
  function Tail(s: State): State
    requires s.cur in s.tasks
  {
    var t := s.tasks[s.cur];
    var waiting :=
      match t.phase
      case Pending(e) => if t.pend == PendTo then Leave(s.waiting, s.cur, [e]) else s.waiting
      case MultiPending(es) =>
        if t.pend == PendTo || t.eventPtr == None then Leave(s.waiting, s.cur, es) else s.waiting
      case Running => s.waiting;
    s.(tasks := s.tasks[s.cur := t.(stat := {}, pend := PendOk, eventPtr := None, multiPtr := None, msg := 0,
                                    phase := Running)],
       waiting := waiting)
  }

  /** The immediate path of OSEventPendMulti: one pass over the event array, left to right. */
  function TakeAll(stores: seq<Store>, es: seq<EventId>): (r: (seq<Store>, seq<(EventId, Message)>))
    requires forall i :: 0 <= i < |es| ==> es[i] < |stores|
    ensures |r.0| == |stores|
    decreases |es|
  {
    if es == [] then (stores, [])
    else
      var e := es[|es| - 1];
      var (stores', taken) := TakeAll(stores, es[..|es| - 1]);
      if Empty(stores'[e]) then (stores', taken)
      else (stores'[e := Take(stores'[e]).0], taken + [(e, Take(stores'[e]).1)])
  }

  function Resched(s: State): State
    requires s.ready != {}
  {
    if s.intNesting == 0 && s.lockNesting == 0 then s.(cur := Least(s.ready), stale := false) else s
  }

  /** A service that ends in OS_Sched; from an interrupt routine that call does nothing. */
  function Owing(s: State): State
    requires s.cur in s.tasks
  {
    if s.intNesting == 0 then s.(tasks := s.tasks[s.cur := s.tasks[s.cur].(owes := true)]) else s
  }

  // ---------------------------------------------------------------- the steps

  datatype Action =
    | Create(prio: Prio)
    | Pend(event: EventId, timeout: nat)
    | PendMulti(events: seq<EventId>, timeout: nat)
    | PendReturn
    | Post(event: EventId, msg: Message)
    | Abort(event: EventId)
    | Tick(prio: Prio)
    | Delay(ticks: nat)
    | Suspend(prio: Prio)
    | Resume(prio: Prio)
    | IntEnter
    | IntExit
    | Lock
    | Unlock
    | Sched

  /** Well-typed states: indices in range, the running and the idle task exist. */
  predicate Typed(s: State) {
    && |s.waiting| == |s.stores|
    && (forall e :: 0 <= e < |s.waiting| ==> s.waiting[e] <= s.tasks.Keys)
    && s.ready <= s.tasks.Keys
    && s.idle in s.ready
    && s.cur in s.tasks
  }

  /** A task-level service call: the running task is in its own code and not the idle task. */
  predicate AtCode(s: State)
    requires s.cur in s.tasks
  {
    s.cur != s.idle && s.tasks[s.cur].phase == Running && !s.tasks[s.cur].owes
  }

  /** When a step can be taken.  Interrupt routines (intNesting > 0) may post, abort, tick,
      suspend and resume; only the running task pends, delays, locks or creates. */
  predicate Enabled(s: State, a: Action)
    requires Typed(s)
  {
    match a
    case Create(p) => s.intNesting == 0 && AtCode(s) && p !in s.tasks
    case Pend(e, _) => s.intNesting == 0 && AtCode(s) && e < |s.stores|
    case PendMulti(es, _) => s.intNesting == 0 && AtCode(s) && InRange(s, es)
    case PendReturn => s.intNesting == 0 && !s.tasks[s.cur].phase.Running? && !s.tasks[s.cur].owes
    case Post(e, msg) =>
      (s.intNesting > 0 || AtCode(s)) && e < |s.stores| && (!s.stores[e].Semaphore? ==> msg != 0)
    case Abort(e) => (s.intNesting > 0 || AtCode(s)) && e < |s.stores|
    case Tick(p) => (s.intNesting > 0 || AtCode(s)) && p in s.tasks && p != s.idle
    case Delay(_) => s.intNesting == 0 && AtCode(s)
    case Suspend(p) => (s.intNesting > 0 || AtCode(s)) && p in s.tasks && p != s.idle
    case Resume(p) => (s.intNesting > 0 || AtCode(s)) && p in s.tasks && p != s.idle
    case IntEnter => true
    case IntExit => true
    case Lock => s.intNesting > 0 || AtCode(s)
    case Unlock => s.intNesting > 0 || AtCode(s)
    case Sched => s.intNesting == 0 && s.tasks[s.cur].owes
  }

  function Step(s: State, a: Action): State
    requires Typed(s) && Enabled(s, a)
  {
    match a
    case Create(p) => Owing(AddTask(s, p))
    case Pend(e, timeout) =>
      if s.lockNesting > 0 then s
      else if !Empty(s.stores[e]) then s.(stores := s.stores[e := Take(s.stores[e]).0])
      else PendWait(s, e, timeout)
    case PendMulti(es, timeout) =>
      if s.lockNesting > 0 then s
      else
        var (stores, taken) := TakeAll(s.stores, es);
        if taken != [] then s.(stores := stores) else MultiWait(s, es, timeout)
    case PendReturn => Tail(s)
    case Post(e, msg) =>
      if s.waiting[e] != {} then Owing(EventTaskRdy(s, e, if s.stores[e].Semaphore? then 0 else msg, PendOk))
      else s.(stores := s.stores[e := Put(s.stores[e], msg)])
    case Abort(e) => if s.waiting[e] != {} then Owing(EventTaskRdy(s, e, 0, PendAbort)) else s
    case Tick(p) => var s1 := TickOne(s, p); if s.intNesting == 0 then s1.(stale := true) else s1
    case Delay(ticks) =>
      if ticks == 0 then s
      else Owing(s.(tasks := s.tasks[s.cur := s.tasks[s.cur].(dly := ticks)], ready := s.ready - {s.cur}))
    case Suspend(p) =>
      var s1 := s.(tasks := s.tasks[p := s.tasks[p].(stat := s.tasks[p].stat + {SUSPEND})], ready := s.ready - {p});
      if p == s.cur then Owing(s1) else s1
    case Resume(p) => ResumeTask(s, p)
    case IntEnter => if s.intNesting < 255 then s.(intNesting := s.intNesting + 1) else s
    case IntExit => Resched(if s.intNesting > 0 then s.(intNesting := s.intNesting - 1) else s)
    case Lock => if s.intNesting == 0 && s.lockNesting < 255 then s.(lockNesting := s.lockNesting + 1) else s
    case Unlock =>
      if s.lockNesting == 0 then s
      else
        var s1 := s.(lockNesting := s.lockNesting - 1);
        if s1.lockNesting == 0 then Owing(s1) else s1
    case Sched => Resched(s.(tasks := s.tasks[s.cur := s.tasks[s.cur].(owes := false)]))
  }

  /** OSTaskResume (os_task.c): the task becomes ready only when no status bit is left. */
  function ResumeTask(s: State, p: Prio): State
    requires p in s.tasks && s.cur in s.tasks
  {
    var t := s.tasks[p];
    if SUSPEND !in t.stat then s
    else
      var t1 := t.(stat := t.stat - {SUSPEND});
      var s1 := s.(tasks := s.tasks[p := t1]);
      if t1.stat == {} && t1.dly == 0 then Owing(s1.(ready := s.ready + {p})) else s1
  }
}
