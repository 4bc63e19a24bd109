/** The kernel's tables as os_core.c lays them out, and what they mean.  A pointer to a
    control block is its index in OSTCBTbl; a pointer to an event, its index in OSEventTbl. */
module KernelData {
  import opened Options
  import opened PriorityList
  import opened KernelModel

  /** OS_TCB: y, bitX and bitY are precomputed from prio by OS_TCBInit. */
  datatype Tcb = Tcb(
    prio: Prio,
    y: nat,
    bitX: bv8,
    bitY: bv8,
    stat: set<Flag>,
    pend: PendStat,
    dly: nat,
    eventPtr: Option<EventId>,
    multiPtr: Option<seq<EventId>>,
    msg: Message,
    next: Option<nat>,
    prev: Option<nat>)

  /** What OSEventCnt and OSEventPtr stand for; a queue is an OS_Q ring with its OUT index. */
  datatype Resource =
    | SemCount(count: nat)
    | MboxPtr(message: Message)
    | Ring(buf: seq<Message>, out: nat, entries: nat)

  /** OS_EVENT */
  datatype Ecb = Ecb(resource: Resource, wait: PrioList)

  /** Where a task stands inside a service; control state, not a field of OS_TCB. */
  datatype Position = Position(phase: Phase, owes: bool)

  const InOwnCode := Position(Running, false)

  predicate ResourceOk(r: Resource) {
    r.Ring? ==> r.entries <= |r.buf| && (|r.buf| > 0 ==> r.out < |r.buf|)
  }

  function RingSlot(r: Resource, i: nat): nat
    requires r.Ring?
  {
    if r.out + i < |r.buf| then r.out + i else r.out + i - |r.buf|
  }

  function StoreOf(r: Resource): Store
    requires ResourceOk(r)
  {
    match r
    case SemCount(count) => Semaphore(count)
    case MboxPtr(message) => Mailbox(message)
    case Ring(buf, out, entries) =>
      Queue(seq(entries, i requires 0 <= i < entries => buf[RingSlot(r, i)]), |buf|)
  }

  predicate EcbsOk(ecbs: seq<Ecb>, rows: nat) {
    forall e :: 0 <= e < |ecbs| ==>
      ResourceOk(ecbs[e].resource) && WellFormed(ecbs[e].wait) && |ecbs[e].wait.tbl| == rows
  }

  function StoresOf(ecbs: seq<Ecb>, rows: nat): (r: seq<Store>)
    requires EcbsOk(ecbs, rows)
  {
    seq(|ecbs|, e requires 0 <= e < |ecbs| => StoreOf(ecbs[e].resource))
  }

  function WaitsOf(ecbs: seq<Ecb>): (r: seq<set<Prio>>) {
    seq(|ecbs|, e requires 0 <= e < |ecbs| => Members(ecbs[e].wait))
  }

  predicate BitsOk(t: Tcb) {
    t.prio < 64 && t.y == t.prio / 8 && t.bitX == Bit(t.prio % 8) && t.bitY == Bit(t.prio / 8)
  }

  /** OSTCBPrioTbl points, for each priority in use, to the block of that priority. */
  predicate PrioTblOk(prioTbl: seq<Option<nat>>, tcbs: seq<Tcb>, pos: map<Prio, Position>) {
    && (forall p :: 0 <= p < |prioTbl| && prioTbl[p].Some? ==>
          && prioTbl[p].value < |tcbs| && p in pos
          && tcbs[prioTbl[p].value].prio == p && tcbs[prioTbl[p].value].y == p / 8)
    && (forall p {:trigger BitsOk(tcbs[prioTbl[p].value])} :: 0 <= p < |prioTbl| && prioTbl[p].Some? ==>
          BitsOk(tcbs[prioTbl[p].value]))
  }

  function TaskOf(t: Tcb, pos: Position): Task {
    Task(t.stat, t.pend, t.dly, t.eventPtr, t.multiPtr, t.msg, pos.phase, pos.owes)
  }

  function TaskMap(prioTbl: seq<Option<nat>>, tcbs: seq<Tcb>, pos: map<Prio, Position>): map<Prio, Task>
    requires PrioTblOk(prioTbl, tcbs, pos)
  {
    map p: Prio | 0 <= p < |prioTbl| && prioTbl[p].Some? :: TaskOf(tcbs[prioTbl[p].value], pos[p])
  }

  /** The kernel's variables at one moment. */
  datatype Memory = Memory(
    lowest: Prio,
    rdy: PrioList,
    prioTbl: seq<Option<nat>>,
    tcbs: seq<Tcb>,
    ecbs: seq<Ecb>,
    cur: Prio,
    intNesting: nat,
    lockNesting: nat,
    pos: map<Prio, Position>,
    stale: bool)

  /** Two tables whose blocks keep their priorities and links. */
  predicate SameLinks(a: seq<Tcb>, b: seq<Tcb>) {
    |a| == |b| &&
    forall i :: 0 <= i < |a| ==> b[i].prio == a[i].prio && b[i].next == a[i].next && b[i].prev == a[i].prev
  }

  predicate MemoryOk(m: Memory) {
    && m.lowest < 64 && |m.rdy.tbl| == m.lowest / 8 + 1 && |m.prioTbl| == m.lowest + 1
    && WellFormed(m.rdy)
    && EcbsOk(m.ecbs, |m.rdy.tbl|)
    && PrioTblOk(m.prioTbl, m.tcbs, m.pos)
  }

  lemma BlockBits(m: Memory, p: Prio)
    requires MemoryOk(m) && p < |m.prioTbl| && m.prioTbl[p].Some?
    ensures BitsOk(m.tcbs[m.prioTbl[p].value])
  {
  }

  /** The abstract state that the kernel's variables stand for. */
  function Meaning(m: Memory): State
    requires MemoryOk(m)
  {
    State(m.lowest, TaskMap(m.prioTbl, m.tcbs, m.pos), Members(m.rdy),
          StoresOf(m.ecbs, |m.rdy.tbl|), WaitsOf(m.ecbs), m.cur, m.intNesting, m.lockNesting, m.stale)
  }

  // ---------------------------------------------------------------- updates

  /** Who runs and the nesting counts mean themselves. */
  lemma ControlMeaning(m: Memory, m1: Memory)
    requires MemoryOk(m)
    requires m1 == m.(cur := m1.cur, intNesting := m1.intNesting, lockNesting := m1.lockNesting, stale := m1.stale)
    ensures MemoryOk(m1)
    ensures Meaning(m1) ==
      Meaning(m).(cur := m1.cur, intNesting := m1.intNesting, lockNesting := m1.lockNesting, stale := m1.stale)
  {
  }

  /** Writing p's control block changes p's task and no other. */
  lemma TcbWritten(prioTbl: seq<Option<nat>>, tcbs: seq<Tcb>, pos: map<Prio, Position>, p: Prio, t: Tcb, q: Position)
    requires PrioTblOk(prioTbl, tcbs, pos) && p < |prioTbl| && prioTbl[p].Some?
    requires t.prio == p && BitsOk(t)
    ensures var i := prioTbl[p].value;
      && PrioTblOk(prioTbl, tcbs[i := t], pos[p := q])
      && TaskMap(prioTbl, tcbs[i := t], pos[p := q]) == TaskMap(prioTbl, tcbs, pos)[p := TaskOf(t, q)]
  {
    var i := prioTbl[p].value;
    var before, after := TaskMap(prioTbl, tcbs, pos), TaskMap(prioTbl, tcbs[i := t], pos[p := q]);
    assert after.Keys == before.Keys;
    forall r | r in before && r != p ensures after[r] == before[r] {
      assert prioTbl[r].value != i;
    }
  }

  lemma TaskWritten(m: Memory, p: Prio, t: Tcb, q: Position)
    requires MemoryOk(m) && p < |m.prioTbl| && m.prioTbl[p].Some? && t.prio == p && BitsOk(t)
    ensures var m1 := m.(tcbs := m.tcbs[m.prioTbl[p].value := t], pos := m.pos[p := q]);
      MemoryOk(m1) && Meaning(m1) == Meaning(m).(tasks := Meaning(m).tasks[p := TaskOf(t, q)])
  {
    TcbWritten(m.prioTbl, m.tcbs, m.pos, p, t, q);
  }

  lemma ReadyWritten(m: Memory, rdy: PrioList)
    requires MemoryOk(m) && WellFormed(rdy) && |rdy.tbl| == |m.rdy.tbl|
    ensures var m1 := m.(rdy := rdy);
      MemoryOk(m1) && Meaning(m1) == Meaning(m).(ready := Members(rdy))
  {
  }

  lemma EcbWritten(m: Memory, e: EventId, c: Ecb)
    requires MemoryOk(m) && e < |m.ecbs|
    requires ResourceOk(c.resource) && WellFormed(c.wait) && |c.wait.tbl| == |m.rdy.tbl|
    ensures var m1 := m.(ecbs := m.ecbs[e := c]);
      && MemoryOk(m1)
      && Meaning(m1) == Meaning(m).(stores := Meaning(m).stores[e := StoreOf(c.resource)],
                                    waiting := Meaning(m).waiting[e := Members(c.wait)])
  {
    WaitWritten(m.ecbs, e, c);
    StoreWritten(m.ecbs, |m.rdy.tbl|, e, c);
  }

  lemma WaitWritten(ecbs: seq<Ecb>, e: nat, c: Ecb)
    requires e < |ecbs|
    ensures WaitsOf(ecbs[e := c]) == WaitsOf(ecbs)[e := Members(c.wait)]
  {
  }

  lemma StoreWritten(ecbs: seq<Ecb>, rows: nat, e: nat, c: Ecb)
    requires EcbsOk(ecbs, rows) && e < |ecbs|
    requires ResourceOk(c.resource) && WellFormed(c.wait) && |c.wait.tbl| == rows
    ensures EcbsOk(ecbs[e := c], rows)
    ensures StoresOf(ecbs[e := c], rows) == StoresOf(ecbs, rows)[e := StoreOf(c.resource)]
  {
  }

  // ---------------------------------------------------------------- list operations

  /** Block i is in the table with the bits OS_TCBInit computed. */
  predicate BlockOk(m: Memory, i: nat) {
    i < |m.tcbs| && BitsOk(m.tcbs[i]) && m.tcbs[i].prio <= m.lowest
  }

  function MadeReady(m: Memory, i: nat): Memory
    requires i < |m.tcbs| && m.tcbs[i].y < |m.rdy.tbl|
  {
    m.(rdy := Insert(m.rdy, m.tcbs[i].y, m.tcbs[i].bitX, m.tcbs[i].bitY))
  }

  function MadeUnready(m: Memory, i: nat): Memory
    requires i < |m.tcbs| && m.tcbs[i].y < |m.rdy.tbl|
  {
    m.(rdy := Remove(m.rdy, m.tcbs[i].y, m.tcbs[i].bitX, m.tcbs[i].bitY))
  }

  function Joined(m: Memory, i: nat, e: EventId): Memory
    requires i < |m.tcbs| && e < |m.ecbs| && m.tcbs[i].y < |m.ecbs[e].wait.tbl|
  {
    var c, t := m.ecbs[e], m.tcbs[i];
    m.(ecbs := m.ecbs[e := c.(wait := Insert(c.wait, t.y, t.bitX, t.bitY))])
  }

  function Removed(m: Memory, i: nat, e: EventId): Memory
    requires i < |m.tcbs| && e < |m.ecbs| && m.tcbs[i].y < |m.ecbs[e].wait.tbl|
  {
    var c, t := m.ecbs[e], m.tcbs[i];
    m.(ecbs := m.ecbs[e := c.(wait := Remove(c.wait, t.y, t.bitX, t.bitY))])
  }

  lemma ReadyStored(m: Memory, i: nat, rdy: PrioList)
    requires i < |m.tcbs| && m.tcbs[i].y < |m.rdy.tbl|
    requires rdy.tbl == m.rdy.tbl[m.tcbs[i].y := m.rdy.tbl[m.tcbs[i].y] | m.tcbs[i].bitX]
    requires rdy.grp == m.rdy.grp | m.tcbs[i].bitY
    ensures m.(rdy := rdy) == MadeReady(m, i)
  {
  }

  lemma JoinedStored(m: Memory, i: nat, e: EventId, c: Ecb)
    requires i < |m.tcbs| && e < |m.ecbs| && m.tcbs[i].y < |m.ecbs[e].wait.tbl|
    requires var w := m.ecbs[e].wait;
      && c.resource == m.ecbs[e].resource
      && c.wait.tbl == w.tbl[m.tcbs[i].y := w.tbl[m.tcbs[i].y] | m.tcbs[i].bitX]
      && c.wait.grp == w.grp | m.tcbs[i].bitY
    ensures m.(ecbs := m.ecbs[e := c]) == Joined(m, i, e)
  {
  }

  lemma UnreadyStored(m: Memory, i: nat, rdy: PrioList)
    requires i < |m.tcbs| && m.tcbs[i].y < |m.rdy.tbl|
    requires var b := m.rdy.tbl[m.tcbs[i].y] & !m.tcbs[i].bitX;
      && rdy.tbl == m.rdy.tbl[m.tcbs[i].y := b]
      && rdy.grp == if b == 0 then m.rdy.grp & !m.tcbs[i].bitY else m.rdy.grp
    ensures m.(rdy := rdy) == MadeUnready(m, i)
  {
  }

  lemma RemovedStored(m: Memory, i: nat, e: EventId, c: Ecb)
    requires i < |m.tcbs| && e < |m.ecbs| && m.tcbs[i].y < |m.ecbs[e].wait.tbl|
    requires var b, w := m.ecbs[e].wait.tbl[m.tcbs[i].y] & !m.tcbs[i].bitX, m.ecbs[e].wait;
      && c.resource == m.ecbs[e].resource
      && c.wait.tbl == w.tbl[m.tcbs[i].y := b]
      && c.wait.grp == if b == 0 then w.grp & !m.tcbs[i].bitY else w.grp
    ensures m.(ecbs := m.ecbs[e := c]) == Removed(m, i, e)
  {
  }

  /** The loops of OS_EventTaskWaitMulti and OS_EventTaskRemoveMulti over an event array. */
  function JoinedAll(m: Memory, i: nat, es: seq<EventId>): (r: Memory)
    requires MemoryOk(m) && BlockOk(m, i) && forall j :: 0 <= j < |es| ==> es[j] < |m.ecbs|
    ensures MemoryOk(r) && r == m.(ecbs := r.ecbs) && |r.ecbs| == |m.ecbs|
    decreases |es|
  {
    if es == [] then m
    else
      var m1 := JoinedAll(m, i, es[..|es| - 1]);
      JoinedOk(m1, i, es[|es| - 1]);
      Joined(m1, i, es[|es| - 1])
  }

  function RemovedAll(m: Memory, i: nat, es: seq<EventId>): (r: Memory)
    requires MemoryOk(m) && BlockOk(m, i) && forall j :: 0 <= j < |es| ==> es[j] < |m.ecbs|
    ensures MemoryOk(r) && r == m.(ecbs := r.ecbs) && |r.ecbs| == |m.ecbs|
    decreases |es|
  {
    if es == [] then m
    else
      var m1 := RemovedAll(m, i, es[..|es| - 1]);
      RemovedOk(m1, i, es[|es| - 1]);
      Removed(m1, i, es[|es| - 1])
  }

  lemma JoinOneMore(w: seq<set<Prio>>, p: Prio, es: seq<EventId>, e: EventId)
    ensures Join(Join(w, p, es), p, [e]) == Join(w, p, es + [e])
  {
    forall k | 0 <= k < |w| ensures Join(Join(w, p, es), p, [e])[k] == Join(w, p, es + [e])[k] {
      assert k in es + [e] <==> k in es || k == e;
    }
  }

  lemma LeaveOneMore(w: seq<set<Prio>>, p: Prio, es: seq<EventId>, e: EventId)
    ensures Leave(Leave(w, p, es), p, [e]) == Leave(w, p, es + [e])
  {
    forall k | 0 <= k < |w| ensures Leave(Leave(w, p, es), p, [e])[k] == Leave(w, p, es + [e])[k] {
      assert k in es + [e] <==> k in es || k == e;
    }
  }

  lemma {:induction false} JoinedAllOk(m: Memory, i: nat, es: seq<EventId>)
    requires MemoryOk(m) && BlockOk(m, i) && forall j :: 0 <= j < |es| ==> es[j] < |m.ecbs|
    ensures Meaning(JoinedAll(m, i, es)) == Meaning(m).(waiting := Join(Meaning(m).waiting, m.tcbs[i].prio, es))
    decreases |es|
  {
    var p, w := m.tcbs[i].prio, Meaning(m).waiting;
    if es == [] {
      assert Join(w, p, es) == w;
    } else {
      var rest, e := es[..|es| - 1], es[|es| - 1];
      JoinedAllOk(m, i, rest);
      JoinedOk(JoinedAll(m, i, rest), i, e);
      assert es == rest + [e];
      JoinOneMore(w, p, rest, e);
    }
  }

  lemma {:induction false} RemovedAllOk(m: Memory, i: nat, es: seq<EventId>)
    requires MemoryOk(m) && BlockOk(m, i) && forall j :: 0 <= j < |es| ==> es[j] < |m.ecbs|
    ensures Meaning(RemovedAll(m, i, es)) == Meaning(m).(waiting := Leave(Meaning(m).waiting, m.tcbs[i].prio, es))
    decreases |es|
  {
    var p, w := m.tcbs[i].prio, Meaning(m).waiting;
    if es == [] {
      assert Leave(w, p, es) == w;
    } else {
      var rest, e := es[..|es| - 1], es[|es| - 1];
      RemovedAllOk(m, i, rest);
      RemovedOk(RemovedAll(m, i, rest), i, e);
      assert es == rest + [e];
      LeaveOneMore(w, p, rest, e);
    }
  }

  lemma MadeReadyOk(m: Memory, i: nat)
    requires MemoryOk(m) && BlockOk(m, i)
    ensures MemoryOk(MadeReady(m, i))
    ensures Meaning(MadeReady(m, i)) == Meaning(m).(ready := Meaning(m).ready + {m.tcbs[i].prio})
  {
    InsertOk(m.rdy, m.tcbs[i].prio);
    ReadyWritten(m, MadeReady(m, i).rdy);
  }

  lemma MadeUnreadyOk(m: Memory, i: nat)
    requires MemoryOk(m) && BlockOk(m, i)
    ensures MemoryOk(MadeUnready(m, i))
    ensures Meaning(MadeUnready(m, i)) == Meaning(m).(ready := Meaning(m).ready - {m.tcbs[i].prio})
  {
    RemoveOk(m.rdy, m.tcbs[i].prio);
    ReadyWritten(m, MadeUnready(m, i).rdy);
  }

  lemma JoinedOk(m: Memory, i: nat, e: EventId)
    requires MemoryOk(m) && BlockOk(m, i) && e < |m.ecbs|
    ensures MemoryOk(Joined(m, i, e))
    ensures Meaning(Joined(m, i, e)) == Meaning(m).(waiting := Join(Meaning(m).waiting, m.tcbs[i].prio, [e]))
  {
    var c, t := m.ecbs[e], m.tcbs[i];
    InsertOk(c.wait, t.prio);
    EcbWritten(m, e, c.(wait := Insert(c.wait, t.y, t.bitX, t.bitY)));
    assert Meaning(m).waiting[e := Members(c.wait) + {t.prio}] == Join(Meaning(m).waiting, t.prio, [e]);
    assert Meaning(m).stores[e := StoreOf(c.resource)] == Meaning(m).stores;
  }

  lemma RemovedOk(m: Memory, i: nat, e: EventId)
    requires MemoryOk(m) && BlockOk(m, i) && e < |m.ecbs|
    ensures MemoryOk(Removed(m, i, e))
    ensures Meaning(Removed(m, i, e)) == Meaning(m).(waiting := Leave(Meaning(m).waiting, m.tcbs[i].prio, [e]))
  {
    var c, t := m.ecbs[e], m.tcbs[i];
    RemoveOk(c.wait, t.prio);
    EcbWritten(m, e, c.(wait := Remove(c.wait, t.y, t.bitX, t.bitY)));
    assert Meaning(m).waiting[e := Members(c.wait) - {t.prio}] == Leave(Meaning(m).waiting, t.prio, [e]);
    assert Meaning(m).stores[e := StoreOf(c.resource)] == Meaning(m).stores;
  }

  /** The block of task p after OS_EventTaskRdy has cleared its delay and handed it the event. */
  function Handed(m: Memory, msg: Message, msk: Flag, pend: PendStat, p: Prio): (t: Tcb)
    requires MemoryOk(m) && p < |m.prioTbl| && m.prioTbl[p].Some?
    ensures t.prio == p && BitsOk(t)
  {
    var t := m.tcbs[m.prioTbl[p].value];
    BlockBits(m, p);
    t.(dly := 0, msg := msg, stat := t.stat - {msk}, pend := pend)
  }

  /** That block written, and the task made ready unless it is suspended. */
  function Woken(m: Memory, p: Prio, t: Tcb): (r: Memory)
    requires MemoryOk(m) && p < |m.prioTbl| && m.prioTbl[p].Some? && t.prio == p && BitsOk(t)
    ensures MemoryOk(r) && BlockOk(r, m.prioTbl[p].value)
    ensures r.tcbs == m.tcbs[m.prioTbl[p].value := t] && r == m.(tcbs := r.tcbs, rdy := r.rdy)
    ensures |r.rdy.tbl| == |m.rdy.tbl|
  {
    var m1 := m.(tcbs := m.tcbs[m.prioTbl[p].value := t]);
    BlockWritten(m, p, t);
    MadeReadyOk(m1, m.prioTbl[p].value);
    if SUSPEND in t.stat then m1 else MadeReady(m1, m.prioTbl[p].value)
  }

  lemma WokenOk(m: Memory, p: Prio, t: Tcb)
    requires MemoryOk(m) && p < |m.prioTbl| && m.prioTbl[p].Some? && t.prio == p && BitsOk(t)
    ensures var s := Meaning(m);
      Meaning(Woken(m, p, t)) ==
        s.(tasks := s.tasks[p := TaskOf(t, m.pos[p])], ready := if SUSPEND in t.stat then s.ready else s.ready + {p})
  {
    BlockWritten(m, p, t);
    MadeReadyOk(m.(tcbs := m.tcbs[m.prioTbl[p].value := t]), m.prioTbl[p].value);
  }

  /** OS_EventTaskRdy on the tables for the task p it picked, up to the removal from the list
      of the event itself. */
  function ReadiedHere(m: Memory, e: EventId, msg: Message, msk: Flag, pend: PendStat, p: Prio): (r: Memory)
    requires MemoryOk(m) && e < |m.ecbs| && p < |m.prioTbl| && m.prioTbl[p].Some?
    ensures MemoryOk(r) && r.prioTbl == m.prioTbl && r.pos == m.pos && |r.ecbs| == |m.ecbs|
    ensures r.tcbs == m.tcbs[m.prioTbl[p].value := Handed(m, msg, msk, pend, p)]
    ensures |r.rdy.tbl| == |m.rdy.tbl| && r.lowest == m.lowest
  {
    var i, m1 := m.prioTbl[p].value, Woken(m, p, Handed(m, msg, msk, pend, p));
    RemovedOk(m1, i, e);
    Removed(m1, i, e)
  }

  /** ... and the removal from the other lists of a multi pend. */
  function Readied(m: Memory, e: EventId, msg: Message, msk: Flag, pend: PendStat, p: Prio): (r: Memory)
    requires MemoryOk(m) && e < |m.ecbs| && p < |m.prioTbl| && m.prioTbl[p].Some?
    requires var multi := m.tcbs[m.prioTbl[p].value].multiPtr;
      multi.Some? ==> forall j :: 0 <= j < |multi.value| ==> multi.value[j] < |m.ecbs|
    ensures SameLinks(m.tcbs, r.tcbs)
  {
    var i := m.prioTbl[p].value;
    var m3 := ReadiedHere(m, e, msg, msk, pend, p);
    var multi := m.tcbs[i].multiPtr;
    if multi == None then m3
    else
      var m4 := RemovedAll(m3, i, multi.value);
      m4.(tcbs := m4.tcbs[i := m4.tcbs[i].(eventPtr := Some(e))])
  }

  lemma BlockWritten(m: Memory, p: Prio, t: Tcb)
    requires MemoryOk(m) && p < |m.prioTbl| && m.prioTbl[p].Some? && t.prio == p && BitsOk(t)
    ensures var m1 := m.(tcbs := m.tcbs[m.prioTbl[p].value := t]);
      MemoryOk(m1) && Meaning(m1) == Meaning(m).(tasks := Meaning(m).tasks[p := TaskOf(t, m.pos[p])])
  {
    TaskWritten(m, p, t, m.pos[p]);
    assert m.pos[p := m.pos[p]] == m.pos;
  }

  lemma ReadiedHereOk(m: Memory, e: EventId, msg: Message, msk: Flag, pend: PendStat, p: Prio)
    requires MemoryOk(m) && e < |m.ecbs| && p < |m.prioTbl| && m.prioTbl[p].Some?
    ensures var s, t := Meaning(m), Meaning(m).tasks[p];
      var t1 := t.(dly := 0, msg := msg, stat := t.stat - {msk}, pend := pend);
      Meaning(ReadiedHere(m, e, msg, msk, pend, p)) ==
        s.(tasks := s.tasks[p := t1], ready := if SUSPEND in t1.stat then s.ready else s.ready + {p},
           waiting := Leave(s.waiting, p, [e]))
  {
    var t := Handed(m, msg, msk, pend, p);
    WokenOk(m, p, t);
    RemovedOk(Woken(m, p, t), m.prioTbl[p].value, e);
  }

  lemma ReadiedOk(m: Memory, e: EventId, msg: Message, msk: Flag, pend: PendStat, p: Prio)
    requires MemoryOk(m) && e < |m.ecbs| && p < |m.prioTbl| && m.prioTbl[p].Some?
    requires var multi := m.tcbs[m.prioTbl[p].value].multiPtr;
      multi.Some? ==> forall j :: 0 <= j < |multi.value| ==> multi.value[j] < |m.ecbs|
    requires msk == KindFlag(Meaning(m).stores[e])
    ensures var m1 := Readied(m, e, msg, msk, pend, p);
      MemoryOk(m1) && Meaning(m1) == GivenTo(Meaning(m), e, msg, pend, p)
  {
    ReadiedHereOk(m, e, msg, msk, pend, p);
    var multi := m.tcbs[m.prioTbl[p].value].multiPtr;
    if multi.Some? {
      MultiDelivered(ReadiedHere(m, e, msg, msk, pend, p), e, p, multi.value);
      var tasks := Meaning(m).tasks;
      var t1 := tasks[p].(dly := 0, msg := msg, stat := tasks[p].stat - {msk}, pend := pend);
      WrittenTwice(tasks, p, t1, t1.(eventPtr := Some(e)));
    }
  }

  lemma WrittenTwice(tasks: map<Prio, Task>, p: Prio, t: Task, t1: Task)
    ensures tasks[p := t][p := t1] == tasks[p := t1]
  {
  }

  lemma MultiDelivered(m: Memory, e: EventId, p: Prio, es: seq<EventId>)
    requires MemoryOk(m) && p < |m.prioTbl| && m.prioTbl[p].Some?
    requires forall j :: 0 <= j < |es| ==> es[j] < |m.ecbs|
    ensures var i, m1 := m.prioTbl[p].value, RemovedAll(m, m.prioTbl[p].value, es);
      var m2 := m1.(tcbs := m1.tcbs[i := m1.tcbs[i].(eventPtr := Some(e))]);
      && MemoryOk(m2)
      && Meaning(m2) == Meaning(m).(waiting := Leave(Meaning(m).waiting, p, es),
                                    tasks := Meaning(m).tasks[p := Meaning(m).tasks[p].(eventPtr := Some(e))])
  {
    var i := m.prioTbl[p].value;
    RemovedAllOk(m, i, es);
    var m1 := RemovedAll(m, i, es);
    BlockWritten(m1, p, m1.tcbs[i].(eventPtr := Some(e)));
  }

  /** Advancing OUT past the oldest message, wrapping at the end, drops exactly that message. */
  lemma RingTake(r: Resource)
    requires r.Ring? && ResourceOk(r) && r.entries > 0
    ensures var out := if r.out + 1 == |r.buf| then 0 else r.out + 1;
      var r1 := r.(out := out, entries := r.entries - 1);
      ResourceOk(r1) && !Empty(StoreOf(r)) && Take(StoreOf(r)) == (StoreOf(r1), r.buf[r.out])
  {
    var out := if r.out + 1 == |r.buf| then 0 else r.out + 1;
    var r1 := r.(out := out, entries := r.entries - 1);
    assert StoreOf(r).messages[1..] == StoreOf(r1).messages;
  }

  // ---------------------------------------------------------------- one control block

  lemma PositionMoved(m: Memory, p: Prio, q: Position)
    requires MemoryOk(m) && p < |m.prioTbl| && m.prioTbl[p].Some?
    ensures var m1 := m.(pos := m.pos[p := q]);
      && MemoryOk(m1)
      && Meaning(m1) ==
           Meaning(m).(tasks := Meaning(m).tasks[p := Meaning(m).tasks[p].(phase := q.phase, owes := q.owes)])
  {
    var i := m.prioTbl[p].value;
    TaskWritten(m, p, m.tcbs[i], q);
    assert m.tcbs[i := m.tcbs[i]] == m.tcbs;
  }

  /** The control block after one pass of the tick loop. */
  function Ticked(t: Tcb): Tcb {
    if t.dly == 0 then t
    else if t.dly > 1 then t.(dly := t.dly - 1)
    else if t.stat * PEND_ANY != {} then t.(dly := 0, stat := t.stat - PEND_ANY, pend := PendTo)
    else t.(dly := 0, pend := PendOk)
  }

  function TickedAt(m: Memory, i: nat): Memory
    requires i < |m.tcbs| && m.tcbs[i].y < |m.rdy.tbl|
  {
    var t := m.tcbs[i];
    var m1 := m.(tcbs := m.tcbs[i := Ticked(t)]);
    if t.dly == 1 && SUSPEND !in t.stat then MadeReady(m1, i) else m1
  }

  lemma TickedLinks(m: Memory, i: nat)
    requires i < |m.tcbs| && m.tcbs[i].y < |m.rdy.tbl|
    ensures SameLinks(m.tcbs, TickedAt(m, i).tcbs)
  {
  }

  lemma TickedOk(m: Memory, p: Prio)
    requires MemoryOk(m) && p < |m.prioTbl| && m.prioTbl[p].Some?
    ensures var m1 := TickedAt(m, m.prioTbl[p].value);
      MemoryOk(m1) && p in Meaning(m).tasks && Meaning(m1) == TickOne(Meaning(m), p)
  {
    var i := m.prioTbl[p].value;
    var t := m.tcbs[i];
    TickedIsTickTask(t, m.pos[p]);
    BlockBits(m, p);
    BlockWritten(m, p, Ticked(t));
    if t.dly == 1 && SUSPEND !in t.stat {
      MadeReadyOk(m.(tcbs := m.tcbs[i := Ticked(t)]), i);
    }
  }

  lemma TickedIsTickTask(t: Tcb, q: Position)
    ensures TaskOf(Ticked(t), q) == TickTask(TaskOf(t, q))
  {
  }

  // ---------------------------------------------------------------- waiting

  /** OS_EventTaskWait for block i. */
  function Waited(m: Memory, i: nat, e: EventId): (r: Memory)
    requires i < |m.tcbs| && e < |m.ecbs| && m.tcbs[i].y < |m.ecbs[e].wait.tbl| && m.tcbs[i].y < |m.rdy.tbl|
    ensures SameLinks(m.tcbs, r.tcbs)
  {
    var m1 := m.(tcbs := m.tcbs[i := m.tcbs[i].(eventPtr := Some(e))]);
    MadeUnready(Joined(m1, i, e), i)
  }

  lemma WaitedOk(m: Memory, p: Prio, e: EventId)
    requires MemoryOk(m) && e < |m.ecbs| && p < |m.prioTbl| && m.prioTbl[p].Some?
    ensures var s, m1 := Meaning(m), Waited(m, m.prioTbl[p].value, e);
      && MemoryOk(m1)
      && Meaning(m1) == s.(tasks := s.tasks[p := s.tasks[p].(eventPtr := Some(e))],
                           waiting := Join(s.waiting, p, [e]), ready := s.ready - {p})
  {
    var i := m.prioTbl[p].value;
    BlockBits(m, p);
    BlockWritten(m, p, m.tcbs[i].(eventPtr := Some(e)));
    var m1 := m.(tcbs := m.tcbs[i := m.tcbs[i].(eventPtr := Some(e))]);
    JoinedOk(m1, i, e);
    MadeUnreadyOk(Joined(m1, i, e), i);
  }

  /** OS_EventTaskWaitMulti for block i; its control block is t by then. */
  function MultiWaited(m: Memory, i: nat, es: seq<EventId>): Memory
    requires MemoryOk(m) && BlockOk(m, i) && forall j :: 0 <= j < |es| ==> es[j] < |m.ecbs|
  {
    MadeUnready(JoinedAll(m, i, es), i)
  }

  lemma MultiWaitedOk(m: Memory, p: Prio, es: seq<EventId>)
    requires MemoryOk(m) && p < |m.prioTbl| && m.prioTbl[p].Some?
    requires forall j :: 0 <= j < |es| ==> es[j] < |m.ecbs|
    ensures var s, m1 := Meaning(m), MultiWaited(m, m.prioTbl[p].value, es);
      && MemoryOk(m1)
      && Meaning(m1) == s.(waiting := Join(s.waiting, p, es), ready := s.ready - {p})
  {
    var i := m.prioTbl[p].value;
    JoinedAllOk(m, i, es);
    MadeUnreadyOk(JoinedAll(m, i, es), i);
  }

  // ---------------------------------------------------------------- the immediate path

  lemma FlagsOneMore(stores: seq<Store>, es: seq<EventId>, j: nat)
    requires j < |es| && forall i :: 0 <= i < |es| ==> es[i] < |stores|
    ensures FlagsOf(stores, es[..j + 1]) == FlagsOf(stores, es[..j]) + {KindFlag(stores[es[j]])}
  {
    var a, b := FlagsOf(stores, es[..j + 1]), FlagsOf(stores, es[..j]) + {KindFlag(stores[es[j]])};
    forall f ensures f in a <==> f in b {
      if f in a {
        var i :| 0 <= i <= j && KindFlag(stores[es[..j + 1][i]]) == f;
        if i < j { assert es[..j][i] == es[..j + 1][i]; }
      }
      if f in FlagsOf(stores, es[..j]) {
        var i :| 0 <= i < j && KindFlag(stores[es[..j][i]]) == f;
        assert es[..j][i] == es[..j + 1][i];
      }
      assert es[..j + 1][j] == es[j];
    }
  }

  predicate HasUnit(r: Resource) {
    match r
    case SemCount(count) => count > 0
    case MboxPtr(message) => message != 0
    case Ring(_, _, entries) => entries > 0
  }

  /** One arm of the switch in OSEventPendMulti: the resource left and the message returned. */
  function Taken(r: Resource): (Resource, Message)
    requires HasUnit(r) && ResourceOk(r)
  {
    match r
    case SemCount(count) => (SemCount(count - 1), 0)
    case MboxPtr(message) => (MboxPtr(0), message)
    case Ring(buf, out, entries) =>
      (Ring(buf, if out + 1 == |buf| then 0 else out + 1, entries - 1), buf[out])
  }

  lemma TakenOk(r: Resource)
    requires ResourceOk(r)
    ensures HasUnit(r) <==> !Empty(StoreOf(r))
    ensures HasUnit(r) ==> ResourceOk(Taken(r).0) && Take(StoreOf(r)) == (StoreOf(Taken(r).0), Taken(r).1)
  {
    if r.Ring? && r.entries > 0 {
      RingTake(r);
    }
  }

  function TakenFrom(ecbs: seq<Ecb>, rows: nat, es: seq<EventId>): (r: (seq<Ecb>, seq<(EventId, Message)>))
    requires EcbsOk(ecbs, rows) && forall j :: 0 <= j < |es| ==> es[j] < |ecbs|
    ensures EcbsOk(r.0, rows) && |r.0| == |ecbs|
    decreases |es|
  {
    if es == [] then (ecbs, [])
    else
      var e := es[|es| - 1];
      var (ecbs1, taken) := TakenFrom(ecbs, rows, es[..|es| - 1]);
      var c := ecbs1[e];
      TakenOk(c.resource);
      if HasUnit(c.resource) then
        (ecbs1[e := c.(resource := Taken(c.resource).0)], taken + [(e, Taken(c.resource).1)])
      else (ecbs1, taken)
  }

  /** The entry j of es, after those before it. */
  lemma TakenFromNext(ecbs: seq<Ecb>, rows: nat, es: seq<EventId>, j: nat)
    requires EcbsOk(ecbs, rows) && j < |es| && forall i :: 0 <= i < |es| ==> es[i] < |ecbs|
    ensures var (mid, taken), (next, taken1) := TakenFrom(ecbs, rows, es[..j]), TakenFrom(ecbs, rows, es[..j + 1]);
      var c := mid[es[j]];
      if HasUnit(c.resource) then
        next == mid[es[j] := c.(resource := Taken(c.resource).0)] && taken1 == taken + [(es[j], Taken(c.resource).1)]
      else next == mid && taken1 == taken
  {
    assert es[..j + 1][..j] == es[..j];
  }

  lemma {:induction false} TakenFromOk(ecbs: seq<Ecb>, rows: nat, es: seq<EventId>)
    requires EcbsOk(ecbs, rows) && forall j :: 0 <= j < |es| ==> es[j] < |ecbs|
    ensures var (ecbs1, taken) := TakenFrom(ecbs, rows, es);
      && (StoresOf(ecbs1, rows), taken) == TakeAll(StoresOf(ecbs, rows), es)
      && WaitsOf(ecbs1) == WaitsOf(ecbs)
    decreases |es|
  {
    if es != [] {
      var rest, e := es[..|es| - 1], es[|es| - 1];
      TakenFromOk(ecbs, rows, rest);
      var mid := TakenFrom(ecbs, rows, rest).0;
      TakenOk(mid[e].resource);
      if HasUnit(mid[e].resource) {
        var c := mid[e].(resource := Taken(mid[e].resource).0);
        StoreWritten(mid, rows, e, c);
        WaitWritten(mid, e, c);
      }
    }
  }

  /** The waiting half of OSEventPendMulti for the running task. */
  function MultiPended(m: Memory, es: seq<EventId>, timeout: nat): (r: Memory)
    requires MemoryOk(m) && m.cur < |m.prioTbl| && m.prioTbl[m.cur].Some?
    requires forall j :: 0 <= j < |es| ==> es[j] < |m.ecbs|
    ensures SameLinks(m.tcbs, r.tcbs)
  {
    var i := m.prioTbl[m.cur].value;
    var t := m.tcbs[i];
    var t1 := t.(stat := t.stat + FlagsOf(StoresOf(m.ecbs, |m.rdy.tbl|), es) + {MULTI}, pend := PendOk, dly := timeout,
                 eventPtr := None, multiPtr := Some(es));
    var m1 := m.(tcbs := m.tcbs[i := t1], pos := m.pos[m.cur := Position(MultiPending(es), true)]);
    BlockBits(m, m.cur);
    TaskWritten(m, m.cur, t1, Position(MultiPending(es), true));
    MultiWaited(m1, i, es)
  }

  lemma MultiPendedOk(m: Memory, es: seq<EventId>, timeout: nat)
    requires MemoryOk(m) && m.cur < |m.prioTbl| && m.prioTbl[m.cur].Some?
    requires forall j :: 0 <= j < |es| ==> es[j] < |m.ecbs|
    ensures MemoryOk(MultiPended(m, es, timeout)) && m.cur in Meaning(m).tasks
    ensures Meaning(MultiPended(m, es, timeout)) == MultiWait(Meaning(m), es, timeout)
  {
    var i := m.prioTbl[m.cur].value;
    var t := m.tcbs[i];
    var t1 := t.(stat := t.stat + FlagsOf(StoresOf(m.ecbs, |m.rdy.tbl|), es) + {MULTI}, pend := PendOk, dly := timeout,
                 eventPtr := None, multiPtr := Some(es));
    var m1 := m.(tcbs := m.tcbs[i := t1], pos := m.pos[m.cur := Position(MultiPending(es), true)]);
    BlockBits(m, m.cur);
    TaskWritten(m, m.cur, t1, Position(MultiPending(es), true));
    MultiWaitedOk(m1, m.cur, es);
  }

  /** The immediate half of OSEventPendMulti. */
  lemma ImmediateOk(m: Memory, es: seq<EventId>)
    requires MemoryOk(m) && forall j :: 0 <= j < |es| ==> es[j] < |m.ecbs|
    ensures var m1 := m.(ecbs := TakenFrom(m.ecbs, |m.rdy.tbl|, es).0);
      && MemoryOk(m1)
      && Meaning(m1) == Meaning(m).(stores := TakeAll(Meaning(m).stores, es).0)
      && TakenFrom(m.ecbs, |m.rdy.tbl|, es).1 == TakeAll(Meaning(m).stores, es).1
  {
    TakenFromOk(m.ecbs, |m.rdy.tbl|, es);
  }

  /** The code of OSEventPendMulti after OS_Sched, for a task on the events es. */
  function MultiReturned(m: Memory, es: seq<EventId>): (r: Memory)
    requires MemoryOk(m) && m.cur < |m.prioTbl| && m.prioTbl[m.cur].Some?
    requires forall j :: 0 <= j < |es| ==> es[j] < |m.ecbs|
    ensures SameLinks(m.tcbs, r.tcbs)
  {
    var i := m.prioTbl[m.cur].value;
    var t := m.tcbs[i];
    var m1 := if t.pend == PendTo || t.eventPtr == None then RemovedAll(m, i, es) else m;
    var t1 := t.(stat := {}, pend := PendOk, eventPtr := None, multiPtr := None, msg := 0);
    m1.(tcbs := m1.tcbs[i := t1], pos := m1.pos[m.cur := Position(Running, m.pos[m.cur].owes)])
  }

  lemma MultiReturnedOk(m: Memory, es: seq<EventId>)
    requires MemoryOk(m) && m.cur < |m.prioTbl| && m.prioTbl[m.cur].Some?
    requires forall j :: 0 <= j < |es| ==> es[j] < |m.ecbs|
    requires m.pos[m.cur].phase == MultiPending(es)
    ensures MemoryOk(MultiReturned(m, es)) && m.cur in Meaning(m).tasks
    ensures Meaning(MultiReturned(m, es)) == Tail(Meaning(m))
  {
    var i := m.prioTbl[m.cur].value;
    var t := m.tcbs[i];
    RemovedAllOk(m, i, es);
    var m1 := if t.pend == PendTo || t.eventPtr == None then RemovedAll(m, i, es) else m;
    var t1 := t.(stat := {}, pend := PendOk, eventPtr := None, multiPtr := None, msg := 0);
    TaskWritten(m1, m.cur, t1, Position(Running, m.pos[m.cur].owes));
  }
}
