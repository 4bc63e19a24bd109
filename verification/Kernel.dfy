/** The imperative kernel core: os_core.c over its own tables, refining KernelModel. */
module KernelCore {
  import opened Options
  import opened PriorityList
  import opened KernelModel
  import opened KernelData
  import opened KernelTicks
  import opened KernelInvariant
  import opened KernelPool

  class Kernel {
    const lowest: Prio                      // OS_LOWEST_PRIO, the idle task's priority
    const rdyTbl: array<bv8>                // OSRdyTbl
    const prioTbl: array<Option<nat>>       // OSTCBPrioTbl
    const tcbTbl: array<Tcb>                // OSTCBTbl
    const eventTbl: array<Ecb>              // OSEventTbl
    var rdyGrp: bv8                         // OSRdyGrp
    var tcbList: Option<nat>                // OSTCBList
    var tcbFreeList: Option<nat>            // OSTCBFreeList
    var taskCtr: nat                        // OSTaskCtr
    var prioCur: Prio                       // OSPrioCur
    var prioHighRdy: Prio                   // OSPrioHighRdy
    var intNesting: nat                     // OSIntNesting
    var lockNesting: nat                    // OSLockNesting
    var ctxSwCtr: nat                       // OSCtxSwCtr

    ghost var pos: map<Prio, Position>      // where each task stands inside a service
    ghost var stale: bool                   // ticked from task level since the last scheduling
    ghost var active: seq<nat>              // the blocks on OSTCBList, in order
    ghost var free: seq<nat>                // the blocks on OSTCBFreeList, in order
    ghost var inFlight: set<nat>            // blocks taken by OS_TCBInit and not yet linked

    /** The kernel's variables as one value. */
    ghost function Mem(): Memory
      reads this, rdyTbl, prioTbl, tcbTbl, eventTbl
    {
      Memory(lowest, PrioList(rdyGrp, rdyTbl[..]), prioTbl[..], tcbTbl[..], eventTbl[..],
             prioCur, intNesting, lockNesting, pos, stale)
    }

    ghost predicate Tables()
      reads this, rdyTbl, prioTbl, tcbTbl, eventTbl
    {
      Apart() && MemoryOk(Mem())
    }

    /** The tables are separate arrays. */
    ghost predicate Apart() {
      && rdyTbl as object != prioTbl && rdyTbl as object != tcbTbl && rdyTbl as object != eventTbl
      && prioTbl as object != tcbTbl && prioTbl as object != eventTbl && tcbTbl as object != eventTbl
    }

    ghost function View(): State
      requires Tables()
      reads this, rdyTbl, prioTbl, tcbTbl, eventTbl
    {
      Meaning(Mem())
    }

    /** The tables stand for s. */
    ghost predicate Means(s: State)
      reads this, rdyTbl, prioTbl, tcbTbl, eventTbl
    {
      Tables() && View() == s
    }

    ghost predicate Valid()
      reads this, rdyTbl, prioTbl, tcbTbl, eventTbl
    {
      Tables() && Typed(View())
    }

    ghost function TcbLists(): Lists
      reads this
    {
      Lists(tcbList, tcbFreeList, taskCtr, active, free, inFlight)
    }

    /** The pool: free list, active list and blocks in flight partition OSTCBTbl, OSTaskCtr
        counts the active ones, and the idle task ends the list. */
    ghost predicate Pool()
      reads this, prioTbl, tcbTbl
    {
      PoolOk(prioTbl[..], tcbTbl[..], lowest, TcbLists())
    }

    // ---------------------------------------------------------------- OSInit

    /** OS_InitMisc, OS_InitRdyList, OS_InitTCBList and OS_EventWaitListInit for every event. */
    constructor (lowest: Prio, blocks: nat, resources: seq<Resource>)
      requires lowest < 64 && blocks > 0 && forall e :: 0 <= e < |resources| ==> ResourceOk(resources[e])
      ensures Tables() && Pool()
      ensures View().tasks == map[] && View().ready == {} && |View().waiting| == |resources|
      ensures forall e :: 0 <= e < |resources| ==> View().waiting[e] == {}
      ensures this.lowest == lowest && |free| == blocks && active == [] && inFlight == {}
      ensures intNesting == 0 && lockNesting == 0
    {
      this.lowest := lowest;
      rdyTbl := new bv8[lowest / 8 + 1](_ => 0);
      prioTbl := new Option<nat>[lowest + 1](_ => None);
      tcbTbl := new Tcb[blocks](_ => ZeroTcb);
      eventTbl := new Ecb[|resources|](e requires 0 <= e < |resources| =>
        Ecb(resources[e], EmptyList(lowest / 8 + 1)));
      rdyGrp, tcbList, tcbFreeList, taskCtr := 0, None, Some(0), 0;
      prioCur, prioHighRdy, intNesting, lockNesting, ctxSwCtr := 0, 0, 0, 0, 0;
      pos, stale, active, free, inFlight := map[], false, [], seq(blocks, i => i), {};
      new;
      InitTcbList();
      ghost var m := InitialMemory(lowest, tcbTbl[..], resources);
      assert rdyTbl[..] == m.rdy.tbl && prioTbl[..] == m.prioTbl && eventTbl[..] == m.ecbs;
      assert Mem() == m;
      InitialOk(lowest, tcbTbl[..], resources);
      InitialPool(prioTbl[..], tcbTbl[..], lowest);
    }

    /** The loop of OS_InitTCBList: every block is linked to the next. */
    method InitTcbList()
      requires tcbTbl.Length > 0 && forall k :: 0 <= k < tcbTbl.Length ==> tcbTbl[k].next == None
      modifies tcbTbl
      ensures forall k :: 0 <= k < tcbTbl.Length ==>
        tcbTbl[k].next == if k + 1 < tcbTbl.Length then Some(k + 1) else None
    {
      var i := 0;
      while i < tcbTbl.Length - 1
        invariant i < tcbTbl.Length
        invariant forall k :: 0 <= k < tcbTbl.Length ==> tcbTbl[k].next == if k < i then Some(k + 1) else None
      {
        tcbTbl[i] := tcbTbl[i].(next := Some(i + 1));
        i := i + 1;
      }
    }

    // ---------------------------------------------------------------- ready list

    method WriteReady(grp: bv8, y: nat, b: bv8)
      requires Apart() && y < rdyTbl.Length
      modifies `rdyGrp, rdyTbl
      ensures Mem() == old(Mem()).(rdy := PrioList(grp, old(rdyTbl[..])[y := b]))
    {
      ghost var m := Mem();
      rdyGrp := grp;
      rdyTbl[y] := b;
      assert rdyTbl[..] == m.rdy.tbl[y := b];
      assert prioTbl[..] == m.prioTbl && tcbTbl[..] == m.tcbs && eventTbl[..] == m.ecbs;
    }

    method MakeReady(tcb: nat)
      requires Apart() && tcb < tcbTbl.Length && tcbTbl[tcb].y < rdyTbl.Length
      modifies `rdyGrp, rdyTbl
      ensures Mem() == MadeReady(old(Mem()), tcb)
    {
      ghost var m := Mem();
      var t := tcbTbl[tcb];
      var b := rdyTbl[t.y] | t.bitX;
      var grp := rdyGrp | t.bitY;
      ghost var after := PrioList(grp, m.rdy.tbl[t.y := b]);
      ReadyStored(m, tcb, after);
      WriteReady(grp, t.y, b);
    }

    method MakeUnready(tcb: nat)
      requires Apart() && tcb < tcbTbl.Length && tcbTbl[tcb].y < rdyTbl.Length
      modifies `rdyGrp, rdyTbl
      ensures Mem() == MadeUnready(old(Mem()), tcb)
    {
      ghost var m := Mem();
      var t := tcbTbl[tcb];
      var b := rdyTbl[t.y] & !t.bitX;
      var grp := if b == 0 then rdyGrp & !t.bitY else rdyGrp;
      ghost var after := PrioList(grp, m.rdy.tbl[t.y := b]);
      UnreadyStored(m, tcb, after);
      WriteReady(grp, t.y, b);
    }

    // ---------------------------------------------------------------- wait lists

    method EventTaskRemove(tcb: nat, e: EventId)
      requires Apart() && tcb < tcbTbl.Length && e < eventTbl.Length && tcbTbl[tcb].y < |eventTbl[e].wait.tbl|
      modifies eventTbl
      ensures Mem() == Removed(old(Mem()), tcb, e)
    {
      ghost var m := Mem();
      var t := tcbTbl[tcb];
      var wait := eventTbl[e].wait;
      var b := wait.tbl[t.y] & !t.bitX;
      wait := wait.(tbl := wait.tbl[t.y := b]);
      if b == 0 {
        wait := wait.(grp := wait.grp & !t.bitY);
      }
      var c := eventTbl[e].(wait := wait);
      RemovedStored(m, tcb, e, c);
      eventTbl[e] := c;
      assert eventTbl[..] == m.ecbs[e := c];
      assert prioTbl[..] == m.prioTbl && tcbTbl[..] == m.tcbs && rdyTbl[..] == m.rdy.tbl;
    }

    method EventTaskRemoveMulti(tcb: nat, es: seq<EventId>)
      requires Tables() && BlockOk(Mem(), tcb) && forall j :: 0 <= j < |es| ==> es[j] < eventTbl.Length
      modifies eventTbl
      ensures Mem() == RemovedAll(old(Mem()), tcb, es)
    {
      ghost var m := Mem();
      var j := 0;
      while j < |es|
        invariant j <= |es|
        invariant Mem() == RemovedAll(m, tcb, es[..j])
      {
        assert es[..j + 1][..j] == es[..j];
        EventTaskRemove(tcb, es[j]);
        j := j + 1;
      }
      assert es[..j] == es;
    }

    method EventTaskJoin(tcb: nat, e: EventId)
      requires Apart() && tcb < tcbTbl.Length && e < eventTbl.Length && tcbTbl[tcb].y < |eventTbl[e].wait.tbl|
      modifies eventTbl
      ensures Mem() == Joined(old(Mem()), tcb, e)
    {
      ghost var m := Mem();
      var t := tcbTbl[tcb];
      var wait := eventTbl[e].wait;
      var b := wait.tbl[t.y] | t.bitX;
      var g := wait.grp | t.bitY;
      var c := eventTbl[e].(wait := PrioList(g, wait.tbl[t.y := b]));
      JoinedStored(m, tcb, e, c);
      eventTbl[e] := c;
      assert eventTbl[..] == m.ecbs[e := c];
      assert prioTbl[..] == m.prioTbl && tcbTbl[..] == m.tcbs && rdyTbl[..] == m.rdy.tbl;
    }

    /** Writing one control block. */
    method SetTcb(tcb: nat, t: Tcb)
      requires Apart() && tcb < tcbTbl.Length
      modifies tcbTbl
      ensures Mem() == old(Mem()).(tcbs := old(Mem()).tcbs[tcb := t])
    {
      ghost var m := Mem();
      tcbTbl[tcb] := t;
      assert tcbTbl[..] == m.tcbs[tcb := t];
      assert prioTbl[..] == m.prioTbl && eventTbl[..] == m.ecbs && rdyTbl[..] == m.rdy.tbl;
    }

    /** The most urgent waiter of e, through the two-level lookup. */
    method HighestWaiter(e: EventId) returns (prio: Prio)
      requires Tables() && e < eventTbl.Length && View().waiting[e] != {}
      ensures prio == Least(View().waiting[e])
    {
      var w := eventTbl[e].wait;
      GroupZero(w);
      HighestIsLeast(w);
      var y := UnMap(w.grp);
      prio := 8 * y + UnMap(w.tbl[y]);
    }

    /** The statements of OS_EventTaskRdy after it has picked the task. */
    method GiveEvent(e: EventId, msg: Message, msk: Flag, pend: PendStat, prio: Prio)
      requires Tables() && e < eventTbl.Length && prio < prioTbl.Length && prioTbl[prio].Some?
      requires var multi := tcbTbl[prioTbl[prio].value].multiPtr;
        multi.Some? ==> forall j :: 0 <= j < |multi.value| ==> multi.value[j] < eventTbl.Length
      modifies `rdyGrp, rdyTbl, tcbTbl, eventTbl
      ensures Mem() == Readied(old(Mem()), e, msg, msk, pend, prio)
    {
      ghost var m := Mem();
      var i := prioTbl[prio].value;
      var t := tcbTbl[i].(dly := 0, msg := msg, stat := tcbTbl[i].stat - {msk}, pend := pend);
      ghost var after := ReadiedHere(m, e, msg, msk, pend, prio);
      SetTcb(i, t);
      if SUSPEND !in t.stat {
        MakeReady(i);
      }
      EventTaskRemove(i, e);
      assert Mem() == after;
      if t.multiPtr != None {
        EventTaskRemoveMulti(i, t.multiPtr.value);
        SetTcb(i, tcbTbl[i].(eventPtr := Some(e)));
      }
    }

    method EventTaskRdy(e: EventId, msg: Message, msk: Flag, pend: PendStat) returns (prio: Prio)
      requires Valid() && e < eventTbl.Length && View().waiting[e] != {}
      requires msk == KindFlag(View().stores[e])
      requires var t := View().tasks[Least(View().waiting[e])];
        t.multiPtr.Some? ==> InRange(View(), t.multiPtr.value)
      modifies `rdyGrp, rdyTbl, tcbTbl, eventTbl
      ensures Tables() && View() == KernelModel.EventTaskRdy(old(View()), e, msg, pend)
      ensures prio == Least(old(View()).waiting[e])
      ensures SameLinks(old(tcbTbl[..]), tcbTbl[..])
    {
      prio := HighestWaiter(e);
      assert prio in View().tasks;
      ReadiedOk(Mem(), e, msg, msk, pend, prio);
      GiveEvent(e, msg, msk, pend, prio);
    }

    // ---------------------------------------------------------------- the tick

    /** One critical section of the OSTimeTick loop. */
    method TickTcb(tcb: nat)
      requires Apart() && tcb < tcbTbl.Length && tcbTbl[tcb].y < rdyTbl.Length
      modifies `rdyGrp, rdyTbl, tcbTbl
      ensures Mem() == TickedAt(old(Mem()), tcb)
    {
      var t := tcbTbl[tcb];
      if t.dly != 0 {
        t := t.(dly := t.dly - 1);
        if t.dly == 0 {
          if t.stat * PEND_ANY != {} {
            t := t.(stat := t.stat - PEND_ANY, pend := PendTo);
          } else {
            t := t.(pend := PendOk);
          }
        }
      }
      var expired := tcbTbl[tcb].dly != 0 && t.dly == 0;
      SetTcb(tcb, t);
      if expired && SUSPEND !in t.stat {
        MakeReady(tcb);
      }
    }

    /** One pass of the loop of OSTimeTick, on the block of task p. */
    method TickTask(tcb: nat, ghost p: Prio, ghost s: State)
      requires Means(s) && p < prioTbl.Length && prioTbl[p] == Some(tcb) && p in s.tasks
      modifies `rdyGrp, rdyTbl, tcbTbl
      ensures Means(TickOne(s, p)) && SameLinks(old(tcbTbl[..]), tcbTbl[..])
    {
      ghost var after := TickedAt(Mem(), tcb);
      TickedLinks(Mem(), tcb);
      TickedOk(Mem(), p);
      TickTcb(tcb);
      assert Mem() == after;
      assert tcbTbl[..] == after.tcbs;
    }

    /** One pass of that loop, and the step to the next block. */
    method WalkStep(ptcb: nat, ghost p: Prio, ghost s: State, ghost t: State) returns (next: nat)
      requires p in s.tasks && t == TickOne(s, p)
      requires Means(s) && p < prioTbl.Length && prioTbl[p] == Some(ptcb) && p in s.tasks
      requires ptcb < tcbTbl.Length && tcbTbl[ptcb].next.Some?
      modifies `rdyGrp, rdyTbl, tcbTbl
      ensures Means(t) && SameLinks(old(tcbTbl[..]), tcbTbl[..])
      ensures next == old(tcbTbl[ptcb].next.value)
    {
      ghost var tcbs := tcbTbl[..];
      TickTask(ptcb, p, s);
      assert tcbTbl[..][ptcb].next == tcbs[ptcb].next;
      next := tcbTbl[ptcb].next.value;
    }

    /** The list of control blocks is that of the tasks ps of s: the others, and the idle task last. */
    ghost predicate WalkOk(ps: seq<Prio>, others: seq<Prio>, s: State)
      reads this, prioTbl, tcbTbl
    {
      && active != [] && Chain(tcbTbl[..], tcbList, active) && Names(prioTbl[..], active, ps)
      && (forall k :: 0 <= k < |active| ==> (tcbTbl[active[k]].prio == lowest <==> k == |active| - 1))
      && (forall j :: 0 <= j < |ps| ==> ps[j] in s.tasks)
      && others == ps[..|ps| - 1]
    }

    lemma PlanWalk(s: State) returns (ps: seq<Prio>, others: seq<Prio>)
      requires Means(s) && Typed(s) && Pool()
      ensures WalkOk(ps, others, s) && (forall j :: 0 <= j < |others| ==> others[j] in s.tasks)
      ensures TickList(s, others) == TickAll(s)
    {
      ps, others := WalkPlan(Mem(), s, TcbLists());
    }

    /** One turn of the loop of OSTimeTick, at block k of the list; t is what the tables mean. */
    method WalkOn(ghost ps: seq<Prio>, ghost s: State, ghost k: nat, ptcb: nat, ghost t: State)
        returns (next: nat, ghost u: State)
      requires k < |ps| && (forall j :: 0 <= j < |ps| ==> ps[j] in s.tasks) && t == TickList(s, ps[..k])
      requires Means(t) && ps[k] < prioTbl.Length && prioTbl[ps[k]] == Some(ptcb)
      requires ptcb < tcbTbl.Length && tcbTbl[ptcb].next.Some?
      modifies `rdyGrp, rdyTbl, tcbTbl
      ensures Means(u) && u == TickList(s, ps[..k + 1])
      ensures SameLinks(old(tcbTbl[..]), tcbTbl[..]) && next == old(tcbTbl[ptcb].next.value)
    {
      u := TickListNext(s, ps, k, t);
      next := WalkStep(ptcb, ps[k], t, u);
    }

    /** The loop of OSTimeTick, over the blocks of the tasks ps. */
    method WalkTcbList(ghost ps: seq<Prio>, ghost others: seq<Prio>, ghost s: State) returns (ghost t: State)
      requires Means(s) && WalkOk(ps, others, s) && forall j :: 0 <= j < |others| ==> others[j] in s.tasks
      modifies `rdyGrp, rdyTbl, tcbTbl
      ensures Means(t) && t == TickList(s, others) && SameLinks(old(tcbTbl[..]), tcbTbl[..])
    {
      ghost var tcbs, k := tcbTbl[..], 0;
      t := s;
      var ptcb := tcbList.value;
      while tcbTbl[ptcb].prio != lowest
        invariant k < |active| && ptcb == active[k]
        invariant Means(t) && t == TickList(s, ps[..k]) && SameLinks(tcbs, tcbTbl[..])
        decreases |active| - k
      {
        assert tcbs[active[k]].next == Some(active[k + 1]);
        ptcb, t := WalkOn(ps, s, k, ptcb, t);
        k := k + 1;
      }
      assert k == |ps| - 1;
    }

    /** The walk leaves the pool as it was. */
    method WalkPool(ghost ps: seq<Prio>, ghost others: seq<Prio>, ghost s: State) returns (ghost t: State)
      requires Means(s) && WalkOk(ps, others, s) && Pool() && forall j :: 0 <= j < |others| ==> others[j] in s.tasks
      modifies `rdyGrp, rdyTbl, tcbTbl
      ensures Means(t) && t == TickList(s, others) && Pool()
    {
      ghost var prios := prioTbl[..];
      AnyLinksKept(prios, tcbTbl[..], lowest, TcbLists());
      t := WalkTcbList(ps, others, s);
      assert prioTbl[..] == prios;
    }

    /** OSTimeTick: down the list of control blocks until the idle task.  The tables stand for s
        before and for t afterwards. */
    method TimeTick(ghost s: State) returns (ghost t: State)
      requires Means(s) && Typed(s) && Pool()
      modifies `rdyGrp, rdyTbl, tcbTbl
      ensures Means(t) && t == TickAll(s) && Pool()
    {
      ghost var ps, others := PlanWalk(s);
      t := WalkPool(ps, others, s);
    }

    // ---------------------------------------------------------------- nesting and scheduling

    method IntEnter()
      requires Valid()
      modifies `intNesting
      ensures Valid() && View() == Step(old(View()), Action.IntEnter)
    {
      ghost var m := Mem();
      if intNesting < 255 {
        intNesting := intNesting + 1;
      }
      ControlMeaning(m, Mem());
    }

    method SchedLock()
      requires Valid() && Enabled(View(), Lock)
      modifies `lockNesting
      ensures Valid() && View() == Step(old(View()), Lock)
    {
      if intNesting == 0 {
        if lockNesting < 255 {
          lockNesting := lockNesting + 1;
        }
      }
    }

    /** OS_SchedNew */
    method SchedNew()
      requires Valid()
      modifies `prioHighRdy
      ensures Mem() == old(Mem()) && Valid() && prioHighRdy == Least(View().ready)
    {
      GroupZero(PrioList(rdyGrp, rdyTbl[..]));
      HighestIsLeast(PrioList(rdyGrp, rdyTbl[..]));
      var y := UnMap(rdyGrp);
      prioHighRdy := 8 * y + UnMap(rdyTbl[y]);
    }

    /** Switch to the most urgent ready task.  The context switch is the assignment to OSPrioCur. */
    method SwitchToHighest()
      requires Valid()
      modifies `prioHighRdy, `prioCur, `ctxSwCtr, `stale
      ensures Valid() && View() == old(View()).(cur := Least(old(View()).ready), stale := false)
      ensures ctxSwCtr == old(ctxSwCtr) + if prioCur != old(prioCur) then 1 else 0
    {
      ghost var m, s := Mem(), View();
      SchedNew();
      stale := false;
      if prioHighRdy != prioCur {
        ctxSwCtr := ctxSwCtr + 1;
        prioCur := prioHighRdy;
      }
      assert prioCur in s.ready && prioCur in s.tasks;
      ControlMeaning(m, Mem());
    }

    /** The shared tail of OSIntExit and OS_Sched: outside interrupts and locks, switch to the
        most urgent ready task. */
    method Reschedule()
      requires Valid()
      modifies `prioHighRdy, `prioCur, `ctxSwCtr, `stale
      ensures Valid() && View() == Resched(old(View()))
      ensures ctxSwCtr == old(ctxSwCtr) + if prioCur != old(prioCur) then 1 else 0
    {
      if intNesting == 0 {
        if lockNesting == 0 {
          SwitchToHighest();
        }
      }
    }

    /** OSIntExit */
    method IntExit()
      requires Valid() && Enabled(View(), Action.IntExit)
      modifies `intNesting, `prioHighRdy, `prioCur, `ctxSwCtr, `stale
      ensures Valid() && View() == Step(old(View()), Action.IntExit)
      ensures ctxSwCtr == old(ctxSwCtr) + if prioCur != old(prioCur) then 1 else 0
    {
      if intNesting > 0 {
        intNesting := intNesting - 1;
      }
      Reschedule();
    }

    /** The running task's position inside its service; bookkeeping, no kernel variable. */
    ghost method Owe(owes: bool)
      requires Valid()
      modifies `pos
      ensures Tables()
      ensures View() == old(View()).(tasks :=
        old(View()).tasks[prioCur := old(View()).tasks[prioCur].(owes := owes)])
    {
      TaskKeys(Mem());
      PositionMoved(Mem(), prioCur, pos[prioCur].(owes := owes));
      pos := pos[prioCur := pos[prioCur].(owes := owes)];
    }

    /** OS_Sched */
    method Sched()
      requires Valid() && Enabled(View(), Action.Sched)
      modifies `prioHighRdy, `prioCur, `ctxSwCtr, `stale, `pos
      ensures Valid() && View() == Step(old(View()), Action.Sched)
      ensures ctxSwCtr == old(ctxSwCtr) + if prioCur != old(prioCur) then 1 else 0
    {
      Owe(false);
      Reschedule();
    }

    /** The critical section of OSSchedUnlock; when the lock is gone OS_Sched follows. */
    method SchedUnlock()
      requires Valid() && Enabled(View(), Unlock)
      modifies `lockNesting, `pos
      ensures Valid() && View() == Step(old(View()), Unlock)
    {
      if lockNesting > 0 {
        ghost var m := Mem();
        lockNesting := lockNesting - 1;
        ControlMeaning(m, Mem());
        if lockNesting == 0 {
          if intNesting == 0 {
            Owe(true);
          }
        }
      }
    }

    // ---------------------------------------------------------------- waiting

    method EventTaskWait(e: EventId)
      requires Valid() && e < eventTbl.Length
      modifies `rdyGrp, rdyTbl, tcbTbl, eventTbl
      ensures Tables()
      ensures View() == old(View()).(
        tasks := old(View()).tasks[prioCur := old(View()).tasks[prioCur].(eventPtr := Some(e))],
        waiting := Join(old(View()).waiting, prioCur, [e]),
        ready := old(View()).ready - {prioCur})
      ensures SameLinks(old(tcbTbl[..]), tcbTbl[..])
    {
      TaskKeys(Mem());
      assert prioCur in View().tasks;
      WaitedOk(Mem(), prioCur, e);
      var i := prioTbl[prioCur].value;
      SetTcb(i, tcbTbl[i].(eventPtr := Some(e)));
      EventTaskJoin(i, e);
      MakeUnready(i);
    }

    method JoinMulti(tcb: nat, es: seq<EventId>)
      requires Tables() && BlockOk(Mem(), tcb) && forall j :: 0 <= j < |es| ==> es[j] < eventTbl.Length
      modifies eventTbl
      ensures Mem() == JoinedAll(old(Mem()), tcb, es)
    {
      ghost var m := Mem();
      var j := 0;
      while j < |es|
        invariant j <= |es|
        invariant Mem() == JoinedAll(m, tcb, es[..j])
      {
        assert es[..j + 1][..j] == es[..j];
        EventTaskJoin(tcb, es[j]);
        j := j + 1;
      }
      assert es[..j] == es;
    }

    /** The wait lists and the ready list in OS_EventTaskWaitMulti. */
    method WaitMulti(tcb: nat, es: seq<EventId>)
      requires Tables() && BlockOk(Mem(), tcb) && forall j :: 0 <= j < |es| ==> es[j] < eventTbl.Length
      modifies `rdyGrp, rdyTbl, eventTbl
      ensures Mem() == MultiWaited(old(Mem()), tcb, es)
    {
      JoinMulti(tcb, es);
      MakeUnready(tcb);
    }

    /** The switch in that loop, for one event. */
    method TakeFrom(e: EventId) returns (given: Option<Message>, flag: Flag)
      requires Tables() && e < eventTbl.Length
      modifies eventTbl
      ensures var c := old(eventTbl[e]);
        if HasUnit(c.resource) then
          && given == Some(Taken(c.resource).1)
          && Mem() == old(Mem()).(ecbs := old(Mem()).ecbs[e := c.(resource := Taken(c.resource).0)])
        else given == None && Mem() == old(Mem())
      ensures flag ==
        match old(eventTbl[e]).resource case SemCount(_) => SEM case MboxPtr(_) => MBOX case Ring(_, _, _) => QUEUE
    {
      var r := eventTbl[e].resource;
      given := None;
      match r {
        case SemCount(count) =>
          flag := SEM;
          if count > 0 {
            SetResource(e, SemCount(count - 1));
            given := Some(0);
          }
        case MboxPtr(message) =>
          flag := MBOX;
          if message != 0 {
            SetResource(e, MboxPtr(0));
            given := Some(message);
          }
        case Ring(buf, out, entries) =>
          flag := QUEUE;
          if entries > 0 {
            var next := out + 1;
            if next == |buf| {
              next := 0;
            }
            SetResource(e, Ring(buf, next, entries - 1));
            given := Some(buf[out]);
          }
      }
    }

    /** The first loop of OSEventPendMulti: take from every event that has something. */
    method TakeAvailable(es: seq<EventId>) returns (taken: seq<(EventId, Message)>, stat: set<Flag>)
      requires Tables() && forall j :: 0 <= j < |es| ==> es[j] < eventTbl.Length
      modifies eventTbl
      ensures Mem() == old(Mem()).(ecbs := TakenFrom(old(Mem()).ecbs, rdyTbl.Length, es).0)
      ensures taken == TakenFrom(old(Mem()).ecbs, rdyTbl.Length, es).1
      ensures stat <= {SEM, MBOX, QUEUE}
      ensures taken == [] ==> stat == FlagsOf(StoresOf(old(Mem()).ecbs, rdyTbl.Length), es)
    {
      ghost var m := Mem();
      ghost var stores := StoresOf(m.ecbs, rdyTbl.Length);
      taken, stat := [], {};
      var j := 0;
      while j < |es|
        invariant j <= |es|
        invariant Mem() == m.(ecbs := TakenFrom(m.ecbs, rdyTbl.Length, es[..j]).0)
        invariant taken == TakenFrom(m.ecbs, rdyTbl.Length, es[..j]).1
        invariant taken == [] ==> eventTbl[..] == m.ecbs && stat == FlagsOf(stores, es[..j])
        invariant stat <= {SEM, MBOX, QUEUE}
      {
        TakenFromNext(m.ecbs, rdyTbl.Length, es, j);
        FlagsOneMore(stores, es, j);
        var e := es[j];
        var given, flag := TakeFrom(e);
        if given.Some? {
          taken := taken + [(e, given.value)];
        } else {
          stat := stat + {flag};
        }
        j := j + 1;
      }
      assert es[..j] == es;
    }

    method SetResource(e: EventId, r: Resource)
      requires Apart() && e < eventTbl.Length
      modifies eventTbl
      ensures Mem() == old(Mem()).(ecbs := old(Mem()).ecbs[e := old(Mem()).ecbs[e].(resource := r)])
    {
      ghost var m := Mem();
      eventTbl[e] := eventTbl[e].(resource := r);
      assert eventTbl[..] == m.ecbs[e := m.ecbs[e].(resource := r)];
      assert prioTbl[..] == m.prioTbl && tcbTbl[..] == m.tcbs && rdyTbl[..] == m.rdy.tbl;
    }

    // ---------------------------------------------------------------- OSEventPendMulti

    /** The statements that make the running task wait on every event of es. */
    method WaitForAny(es: seq<EventId>, timeout: nat, stat: set<Flag>)
      requires Tables() && prioCur < prioTbl.Length && prioTbl[prioCur].Some?
      requires forall j :: 0 <= j < |es| ==> es[j] < eventTbl.Length
      requires stat == FlagsOf(StoresOf(eventTbl[..], rdyTbl.Length), es)
      modifies `rdyGrp, rdyTbl, tcbTbl, eventTbl, `pos
      ensures Mem() == MultiPended(old(Mem()), es, timeout)
    {
      ghost var m := Mem();
      ghost var after := MultiPended(m, es, timeout);
      var i := prioTbl[prioCur].value;
      var t := tcbTbl[i];
      t := t.(stat := t.stat + stat + {MULTI}, pend := PendOk, dly := timeout);
      t := t.(eventPtr := None, multiPtr := Some(es));
      TaskWritten(m, prioCur, t, Position(MultiPending(es), true));
      SetTcb(i, t);
      pos := pos[prioCur := Position(MultiPending(es), true)];
      WaitMulti(i, es);
    }

    /** OSEventPendMulti up to its call of OS_Sched, for events that are semaphores, mailboxes
        and queues. */
    method EventPendMulti(es: seq<EventId>, timeout: nat) returns (r: PendMultiStart)
      requires Valid() && InRange(View(), es) && (intNesting == 0 ==> Enabled(View(), PendMulti(es, timeout)))
      modifies `rdyGrp, rdyTbl, tcbTbl, eventTbl, `pos
      ensures Tables()
      ensures intNesting > 0 ==> r == PendIsr && View() == old(View())
      ensures intNesting == 0 ==> View() == Step(old(View()), PendMulti(es, timeout))
      ensures intNesting == 0 ==>
        var taken := TakeAll(old(View()).stores, es).1;
        r == if lockNesting > 0 then PendLocked else if taken != [] then Available(taken) else Waiting
      ensures SameLinks(old(tcbTbl[..]), tcbTbl[..])
    {
      if intNesting > 0 {
        return PendIsr;
      }
      if lockNesting > 0 {
        return PendLocked;
      }
      ghost var m := Mem();
      ImmediateOk(m, es);
      var taken, stat := TakeAvailable(es);
      if taken != [] {
        return Available(taken);
      }
      NothingTaken(StoresOf(m.ecbs, rdyTbl.Length), es);
      MultiPendedOk(Mem(), es, timeout);
      WaitForAny(es, timeout, stat);
      return Waiting;
    }

    /** OSEventPendMulti after its call of OS_Sched: what it returns, and what it leaves. */
    method EventPendMultiReturn(es: seq<EventId>) returns (r: PendResult)
      requires Valid() && Enabled(View(), PendReturn) && InRange(View(), es)
      requires var t := View().tasks[prioCur];
        t.phase == MultiPending(es) && (t.eventPtr.Some? ==> t.eventPtr.value < eventTbl.Length)
      modifies tcbTbl, eventTbl, `pos
      ensures Tables() && View() == Tail(old(View())) && r == TailResult(old(View()))
      ensures SameLinks(old(tcbTbl[..]), tcbTbl[..])
    {
      TaskKeys(Mem());
      MultiReturnedOk(Mem(), es);
      r := MultiResult();
      ClearPend(es);
    }

    method MultiResult() returns (r: PendResult)
      requires Tables() && prioCur < prioTbl.Length && prioTbl[prioCur].Some?
      requires var t := View().tasks[prioCur];
        t.phase.MultiPending? && (t.eventPtr.Some? ==> t.eventPtr.value < eventTbl.Length)
      ensures r == TailResult(View())
    {
      var t := tcbTbl[prioTbl[prioCur].value];
      var statPend := t.pend;
      if statPend == PendOk || statPend == PendAbort {
        if t.eventPtr == None {
          statPend := PendTo;
        }
      }
      match statPend {
        case PendOk =>
          r := PendResult(ErrNone, t.eventPtr, if eventTbl[t.eventPtr.value].resource.SemCount? then 0 else t.msg);
        case PendAbort =>
          r := PendResult(ErrAbort, t.eventPtr, 0);
        case PendTo =>
          r := PendResult(ErrTimeout, None, 0);
      }
    }

    method ClearPend(es: seq<EventId>)
      requires Tables() && prioCur < prioTbl.Length && prioTbl[prioCur].Some?
      requires forall j :: 0 <= j < |es| ==> es[j] < eventTbl.Length
      modifies tcbTbl, eventTbl, `pos
      ensures Mem() == MultiReturned(old(Mem()), es)
    {
      ghost var q := Position(Running, pos[prioCur].owes);
      var i := prioTbl[prioCur].value;
      var t := tcbTbl[i];
      if t.pend == PendTo || t.eventPtr == None {
        EventTaskRemoveMulti(i, es);
      }
      SetTcb(i, t.(stat := {}, pend := PendOk, eventPtr := None, multiPtr := None, msg := 0));
      pos := pos[prioCur := q];
    }

    // ---------------------------------------------------------------- OS_TCBInit

    /** The first block leaves the free list and becomes t. */
    method TakeBlock(t: Tcb)
      requires Apart() && free != [] && tcbFreeList == Some(free[0]) && free[0] < tcbTbl.Length
      modifies tcbTbl, `tcbFreeList, `free, `inFlight
      ensures Mem() == old(Mem()).(tcbs := old(Mem()).tcbs[old(free)[0] := t])
      ensures TcbLists() == old(TcbLists()).(tcbFreeList := old(tcbTbl[free[0]]).next, free := old(free)[1..],
                                             inFlight := old(inFlight) + {old(free)[0]})
    {
      var i := tcbFreeList.value;
      tcbFreeList := tcbTbl[i].next;
      SetTcb(i, t);
      free, inFlight := free[1..], inFlight + {i};
    }

    /** The first critical section of OS_TCBInit and the writes that follow it: a block leaves
        the free list and is filled in, visible to nobody yet. */
    method TcbTake(prio: Prio) returns (tcb: Option<nat>)
      requires Tables() && Pool() && prio <= lowest
      modifies tcbTbl, `tcbFreeList, `free, `inFlight
      ensures Tables() && View() == old(View())
      ensures Pool()
      ensures if old(free) == [] then tcb == None && inFlight == old(inFlight)
        else tcb == Some(old(free)[0]) && inFlight == old(inFlight) + {tcb.value} && tcb.value < tcbTbl.Length &&
             tcbTbl[tcb.value].prio == prio && BitsOk(tcbTbl[tcb.value]) &&
             TaskOf(tcbTbl[tcb.value], InOwnCode) == FreshTask
    {
      tcb := tcbFreeList;
      if tcb != None {
        ghost var m, l := Mem(), TcbLists();
        var i := tcb.value;
        var t := FreshTcb(prio, tcbTbl[i].next, tcbTbl[i].prev);
        TakenFromPool(m.prioTbl, m.tcbs, lowest, l, t);
        UnnamedWritten(m, i, t);
        TakeBlock(t);
        assert prioTbl[..] == m.prioTbl && tcbTbl[..] == m.tcbs[i := t];
      }
    }

    /** The writes of the second critical section to the tables. */
    method WriteLinks(tcb: nat, prio: Prio)
      requires Apart() && tcb < tcbTbl.Length && prio < prioTbl.Length && tcbTbl[tcb].prio == prio
      requires tcbList != None ==> tcbList.value < tcbTbl.Length && tcbList.value != tcb
      modifies prioTbl, tcbTbl, `tcbList, `taskCtr, `active, `inFlight, `pos
      ensures HeadLinked(old(tcbTbl[..]), tcbTbl[..], old(tcbList), tcb, prio)
      ensures tcbTbl[tcb] == old(tcbTbl[tcb]).(next := old(tcbList), prev := None)
      ensures Mem() == old(Mem()).(tcbs := tcbTbl[..], prioTbl := old(prioTbl[..])[prio := Some(tcb)],
                                   pos := old(pos)[prio := InOwnCode])
      ensures TcbLists() == old(TcbLists()).(tcbList := Some(tcb), taskCtr := old(taskCtr) + 1,
                                             active := [tcb] + old(active), inFlight := old(inFlight) - {tcb})
    {
      ghost var m := Mem();
      prioTbl[prio] := Some(tcb);
      tcbTbl[tcb] := tcbTbl[tcb].(next := tcbList, prev := None);
      if tcbList != None {
        tcbTbl[tcbList.value] := tcbTbl[tcbList.value].(prev := Some(tcb));
      }
      tcbList := Some(tcb);
      taskCtr := taskCtr + 1;
      active, inFlight, pos := [tcb] + active, inFlight - {tcb}, pos[prio := InOwnCode];
      assert prioTbl[..] == m.prioTbl[prio := Some(tcb)];
      assert eventTbl[..] == m.ecbs && rdyTbl[..] == m.rdy.tbl;
    }

    /** The second critical section: the block is entered in OSTCBPrioTbl, linked in at the
        head of OSTCBList and made ready. */
    method TcbLink(tcb: nat, prio: Prio)
      requires Tables() && Pool() && tcb in inFlight && prio < prioTbl.Length && prioTbl[prio] == None
      requires tcbTbl[tcb].prio == prio && BitsOk(tcbTbl[tcb]) && TaskOf(tcbTbl[tcb], InOwnCode) == FreshTask
      requires active == [] ==> prio == lowest
      modifies prioTbl, tcbTbl, rdyTbl, `rdyGrp, `tcbList, `taskCtr, `active, `inFlight, `pos
      ensures Tables() && View() == AddTask(old(View()), prio)
      ensures Pool() && taskCtr == old(taskCtr) + 1 && active == [tcb] + old(active)
    {
      ghost var m, l := Mem(), TcbLists();
      InFlightUnnamed(m.prioTbl, m.tcbs, lowest, l, tcb);
      LinkTask(tcb, prio);
      LinkedIn(m.prioTbl, m.tcbs, tcbTbl[..], lowest, l, tcb, prio);
    }

    method LinkTask(tcb: nat, prio: Prio)
      requires Tables() && tcb < tcbTbl.Length && prio < prioTbl.Length && prioTbl[prio] == None
      requires tcbTbl[tcb].prio == prio && BitsOk(tcbTbl[tcb]) && TaskOf(tcbTbl[tcb], InOwnCode) == FreshTask
      requires tcbList != None ==> tcbList.value < tcbTbl.Length && tcbList.value != tcb
      requires forall q :: 0 <= q < prioTbl.Length ==> prioTbl[q] != Some(tcb)
      modifies prioTbl, tcbTbl, rdyTbl, `rdyGrp, `tcbList, `taskCtr, `active, `inFlight, `pos
      ensures Tables() && View() == AddTask(old(View()), prio)
      ensures HeadLinked(old(tcbTbl[..]), tcbTbl[..], old(tcbList), tcb, prio)
      ensures prioTbl[..] == old(prioTbl[..])[prio := Some(tcb)]
      ensures TcbLists() == old(TcbLists()).(tcbList := Some(tcb), taskCtr := old(taskCtr) + 1,
                                             active := [tcb] + old(active), inFlight := old(inFlight) - {tcb})
    {
      ghost var m, head := Mem(), tcbList;
      WriteLinks(tcb, prio);
      TaskAdded(m, tcbTbl[..], head, tcb, prio);
      MadeReadyOk(Mem(), tcb);
      MakeReady(tcb);
    }
  }

  datatype PendMultiStart = PendIsr | PendLocked | Available(taken: seq<(EventId, Message)>) | Waiting
}
