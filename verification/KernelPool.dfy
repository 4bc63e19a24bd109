/** The pool of task control blocks: the free list, the active list and the blocks between. */
module KernelPool {
  import opened Options
  import opened PriorityList
  import opened KernelModel
  import opened KernelTicks
  import opened KernelData

  // ---------------------------------------------------------------- the pool of control blocks

  /** The blocks of `list` are linked in order from head. */
  predicate Chain(tcbs: seq<Tcb>, head: Option<nat>, list: seq<nat>) {
    && head == (if list == [] then None else Some(list[0]))
    && (forall j :: 0 <= j < |list| ==> list[j] < |tcbs|)
    && (forall j, k {:trigger tcbs[list[j]], list[k]} :: 0 <= j < |list| && k == j + 1 < |list| ==>
          tcbs[list[j]].next == Some(list[k]))
    && (list != [] ==> tcbs[list[|list| - 1]].next == None)
  }

  predicate BackLinks(tcbs: seq<Tcb>, list: seq<nat>) {
    && (forall j :: 0 <= j < |list| ==> list[j] < |tcbs|)
    && (list != [] ==> tcbs[list[0]].prev == None)
    && (forall j, k {:trigger list[j], tcbs[list[k]]} :: 0 <= j < |list| && k == j + 1 < |list| ==>
          tcbs[list[k]].prev == Some(list[j]))
  }

  predicate NoRepeats(list: seq<nat>) {
    forall j, k :: 0 <= j < k < |list| ==> list[j] != list[k]
  }

  /** Every block is on the active list, on the free list, or taken and not yet linked. */
  predicate Partitioned(n: nat, active: seq<nat>, free: seq<nat>, inFlight: set<nat>) {
    && NoRepeats(active) && NoRepeats(free)
    && (forall i :: i in active ==> i !in free && i !in inFlight)
    && (forall i :: i in free ==> i !in inFlight)
    && (forall i :: i in inFlight ==> i < n)
    && (forall i: nat :: i < n ==> i in active || i in free || i in inFlight)
  }

  /** The priority table and the active list name the same blocks; the idle task is last. */
  predicate ActiveOk(prioTbl: seq<Option<nat>>, tcbs: seq<Tcb>, lowest: Prio, active: seq<nat>) {
    && (forall j :: 0 <= j < |active| ==>
          && active[j] < |tcbs| && tcbs[active[j]].prio < |prioTbl|
          && prioTbl[tcbs[active[j]].prio] == Some(active[j]))
    && (forall p {:trigger prioTbl[p].value in active} :: 0 <= p < |prioTbl| && prioTbl[p].Some? ==>
          prioTbl[p].value in active)
    && (active != [] ==> tcbs[active[|active| - 1]].prio == lowest)
  }

  /** OSTCBList, OSTCBFreeList and OSTaskCtr with the lists they stand for. */
  datatype Lists = Lists(
    tcbList: Option<nat>,
    tcbFreeList: Option<nat>,
    taskCtr: nat,
    active: seq<nat>,
    free: seq<nat>,
    inFlight: set<nat>)

  predicate PoolOk(prioTbl: seq<Option<nat>>, tcbs: seq<Tcb>, lowest: Prio, l: Lists) {
    && Chain(tcbs, l.tcbList, l.active) && BackLinks(tcbs, l.active)
    && Chain(tcbs, l.tcbFreeList, l.free)
    && Partitioned(|tcbs|, l.active, l.free, l.inFlight)
    && ActiveOk(prioTbl, tcbs, lowest, l.active)
    && l.taskCtr == |l.active|
  }

  lemma LinksKept(prioTbl: seq<Option<nat>>, tcbs: seq<Tcb>, tcbs1: seq<Tcb>, lowest: Prio, l: Lists)
    requires PoolOk(prioTbl, tcbs, lowest, l) && SameLinks(tcbs, tcbs1)
    ensures PoolOk(prioTbl, tcbs1, lowest, l)
  {
  }

  lemma AnyLinksKept(prioTbl: seq<Option<nat>>, tcbs: seq<Tcb>, lowest: Prio, l: Lists)
    requires PoolOk(prioTbl, tcbs, lowest, l)
    ensures forall tcbs1 {:trigger SameLinks(tcbs, tcbs1)} :: SameLinks(tcbs, tcbs1) ==>
      PoolOk(prioTbl, tcbs1, lowest, l)
  {
    forall tcbs1 | SameLinks(tcbs, tcbs1) ensures PoolOk(prioTbl, tcbs1, lowest, l) {
      LinksKept(prioTbl, tcbs, tcbs1, lowest, l);
    }
  }

  function PriosOf(tcbs: seq<Tcb>, list: seq<nat>): (r: seq<Prio>)
    requires forall j :: 0 <= j < |list| ==> list[j] < |tcbs|
    ensures |r| == |list|
  {
    seq(|list|, j requires 0 <= j < |list| => tcbs[list[j]].prio)
  }

  /** Walking the list until the idle task meets every other task exactly once. */
  lemma WalkMeetsAll(prioTbl: seq<Option<nat>>, tcbs: seq<Tcb>, lowest: Prio, active: seq<nat>)
    requires ActiveOk(prioTbl, tcbs, lowest, active) && NoRepeats(active) && active != []
    requires forall p :: 0 <= p < |prioTbl| && prioTbl[p].Some? ==>
      prioTbl[p].value < |tcbs| && tcbs[prioTbl[p].value].prio == p
    ensures forall k :: 0 <= k < |active| ==> (tcbs[active[k]].prio == lowest <==> k == |active| - 1)
    ensures var ps := PriosOf(tcbs, active)[..|active| - 1];
      Distinct(ps) && forall p: Prio :: p in ps <==> p < |prioTbl| && prioTbl[p].Some? && p != lowest
  {
    var last := |active| - 1;
    var ps := PriosOf(tcbs, active)[..last];
    forall p: Prio | p < |prioTbl| && prioTbl[p].Some? && p != lowest ensures p in ps {
      assert prioTbl[p].value in active;
      var j :| 0 <= j < |active| && active[j] == prioTbl[p].value;
      assert j != last;
      assert ps[j] == p;
    }
  }

  lemma TaskKeys(m: Memory)
    requires MemoryOk(m)
    ensures forall p: Prio :: p in Meaning(m).tasks <==> p < |m.prioTbl| && m.prioTbl[p].Some?
  {
  }

  /** ps are the priorities of the blocks `list`. */
  predicate Names(prioTbl: seq<Option<nat>>, list: seq<nat>, ps: seq<Prio>) {
    |ps| == |list| && forall j :: 0 <= j < |list| ==> ps[j] < |prioTbl| && prioTbl[ps[j]] == Some(list[j])
  }

  /** The tasks in the order of the list. */
  lemma ActiveNames(m: Memory, active: seq<nat>) returns (ps: seq<Prio>)
    requires MemoryOk(m) && ActiveOk(m.prioTbl, m.tcbs, m.lowest, active)
    ensures ps == PriosOf(m.tcbs, active) && Names(m.prioTbl, active, ps)
    ensures forall j :: 0 <= j < |ps| ==> ps[j] in Meaning(m).tasks
  {
    ps := PriosOf(m.tcbs, active);
    TaskKeys(m);
  }

  /** The whole walk, from OSTCBList to the idle task, is one whole tick. */
  lemma WalkIsTick(m: Memory, active: seq<nat>, ps: seq<Prio>)
    requires MemoryOk(m) && Meaning(m).ready <= Meaning(m).tasks.Keys
    requires ActiveOk(m.prioTbl, m.tcbs, m.lowest, active) && NoRepeats(active) && active != []
    requires ps == PriosOf(m.tcbs, active) && forall j :: 0 <= j < |ps| ==> ps[j] in Meaning(m).tasks
    ensures TickList(Meaning(m), ps[..|active| - 1]) == TickAll(Meaning(m))
  {
    WalkMeetsAll(m.prioTbl, m.tcbs, m.lowest, active);
    WholeTick(m, ps[..|active| - 1]);
  }

  lemma WholeTick(m: Memory, ps: seq<Prio>)
    requires MemoryOk(m) && Meaning(m).ready <= Meaning(m).tasks.Keys && Distinct(ps)
    requires forall p: Prio :: p in ps <==> p < |m.prioTbl| && m.prioTbl[p].Some? && p != m.lowest
    ensures (forall j :: 0 <= j < |ps| ==> ps[j] in Meaning(m).tasks) && TickList(Meaning(m), ps) == TickAll(Meaning(m))
  {
    TaskKeys(m);
    forall j | 0 <= j < |ps| ensures ps[j] in Meaning(m).tasks { assert ps[j] in ps; }
    TickListIsTickAll(Meaning(m), ps);
  }

  /** What the walk needs to know before it starts, and that it will be one whole tick. */
  lemma WalkPlan(m: Memory, s: State, l: Lists) returns (ps: seq<Prio>, others: seq<Prio>)
    requires MemoryOk(m) && PoolOk(m.prioTbl, m.tcbs, m.lowest, l)
    requires Meaning(m) == s && s.ready <= s.tasks.Keys && s.idle in s.ready
    ensures l.active != [] && Names(m.prioTbl, l.active, ps) && others == ps[..|ps| - 1]
    ensures forall k :: 0 <= k < |l.active| ==> (m.tcbs[l.active[k]].prio == m.lowest <==> k == |l.active| - 1)
    ensures forall j :: 0 <= j < |ps| ==> ps[j] in s.tasks
    ensures forall j :: 0 <= j < |others| ==> others[j] in s.tasks
    ensures TickList(s, others) == TickAll(s)
  {
    TaskKeys(m);
    assert m.prioTbl[m.lowest].value in l.active;
    ps := ActiveNames(m, l.active);
    others := ps[..|ps| - 1];
    WalkMeetsAll(m.prioTbl, m.tcbs, m.lowest, l.active);
    WalkIsTick(m, l.active, ps);
  }

  // ---------------------------------------------------------------- OS_TCBInit

  /** A block just initialised for priority p. */
  function FreshTcb(p: Prio, next: Option<nat>, prev: Option<nat>): Tcb
    requires p < 64
  {
    Tcb(p, p / 8, Bit(p % 8), Bit(p / 8), {}, PendOk, 0, None, None, 0, next, prev)
  }

  /** Writing a block that no priority names changes no task. */
  lemma UnnamedWritten(m: Memory, i: nat, t: Tcb)
    requires MemoryOk(m) && i < |m.tcbs|
    requires forall p :: 0 <= p < |m.prioTbl| ==> m.prioTbl[p] != Some(i)
    ensures var m1 := m.(tcbs := m.tcbs[i := t]); MemoryOk(m1) && Meaning(m1) == Meaning(m)
  {
    var m1 := m.(tcbs := m.tcbs[i := t]);
    assert Meaning(m1).tasks == Meaning(m).tasks;
  }

  lemma ChainTail(tcbs: seq<Tcb>, head: Option<nat>, list: seq<nat>)
    requires Chain(tcbs, head, list) && list != []
    ensures Chain(tcbs, tcbs[list[0]].next, list[1..])
  {
    var rest := list[1..];
    assert forall j :: 0 <= j < |rest| ==> rest[j] == list[j + 1];
  }

  lemma ChainUnaffected(tcbs: seq<Tcb>, tcbs1: seq<Tcb>, head: Option<nat>, list: seq<nat>)
    requires Chain(tcbs, head, list) && |tcbs1| == |tcbs|
    requires forall j :: 0 <= j < |list| ==> tcbs1[list[j]].next == tcbs[list[j]].next
    ensures Chain(tcbs1, head, list)
  {
  }

  lemma ChainCons(tcbs: seq<Tcb>, head: Option<nat>, list: seq<nat>, i: nat)
    requires Chain(tcbs, head, list) && i < |tcbs| && tcbs[i].next == head
    ensures Chain(tcbs, Some(i), [i] + list)
  {
    var all := [i] + list;
    assert forall j :: 0 < j < |all| ==> all[j] == list[j - 1];
  }

  /** Taking the first block off the free list. */
  lemma TakenFromPool(prioTbl: seq<Option<nat>>, tcbs: seq<Tcb>, lowest: Prio, l: Lists, t: Tcb)
    requires PoolOk(prioTbl, tcbs, lowest, l) && l.free != []
    ensures var i := l.free[0];
      && i < |tcbs| && l.tcbFreeList == Some(i)
      && (forall p :: 0 <= p < |prioTbl| ==> prioTbl[p] != Some(i))
      && PoolOk(prioTbl, tcbs[i := t], lowest,
                l.(tcbFreeList := tcbs[i].next, free := l.free[1..], inFlight := l.inFlight + {i}))
  {
    var i := l.free[0];
    assert i in l.free;
    forall p | 0 <= p < |prioTbl| ensures prioTbl[p] != Some(i) {
      if prioTbl[p].Some? { assert prioTbl[p].value in l.active; }
    }
    forall j | 0 <= j < |l.active| ensures l.active[j] != i { assert l.active[j] in l.active; }
    var rest := l.free[1..];
    assert forall k :: 0 <= k < |rest| ==> rest[k] == l.free[k + 1];
    assert forall x :: x in l.free <==> x == i || x in rest;
    ChainTail(tcbs, l.tcbFreeList, l.free);
    ChainUnaffected(tcbs, tcbs[i := t], tcbs[i].next, rest);
    ChainUnaffected(tcbs, tcbs[i := t], l.tcbList, l.active);
  }

  lemma LinkedChains(tcbs: seq<Tcb>, tcbs1: seq<Tcb>, l: Lists, i: nat, p: Prio)
    requires Chain(tcbs, l.tcbList, l.active) && BackLinks(tcbs, l.active) && Chain(tcbs, l.tcbFreeList, l.free)
    requires Partitioned(|tcbs|, l.active, l.free, l.inFlight) && i in l.inFlight
    requires HeadLinked(tcbs, tcbs1, l.tcbList, i, p)
    ensures Chain(tcbs1, Some(i), [i] + l.active) && BackLinks(tcbs1, [i] + l.active)
    ensures Chain(tcbs1, l.tcbFreeList, l.free)
  {
    InFlightMoves(|tcbs|, l, i);
    forall j | 0 <= j < |l.free| ensures l.free[j] != i && l.tcbList != Some(l.free[j]) {
      assert l.free[j] in l.free;
      if l.active != [] { assert l.active[0] in l.active; }
    }
    ChainUnaffected(tcbs, tcbs1, l.tcbFreeList, l.free);
    ChainUnaffected(tcbs, tcbs1, l.tcbList, l.active);
    ChainCons(tcbs1, l.tcbList, l.active, i);
    BackCons(tcbs, tcbs1, l.tcbList, l.active, i, p);
  }

  /** Linking block i in at the head of the active list. */
  lemma LinkedIn(prioTbl: seq<Option<nat>>, tcbs: seq<Tcb>, tcbs1: seq<Tcb>, lowest: Prio, l: Lists, i: nat, p: Prio)
    requires PoolOk(prioTbl, tcbs, lowest, l) && i in l.inFlight
    requires p < |prioTbl| && prioTbl[p] == None && (l.active == [] ==> p == lowest)
    requires HeadLinked(tcbs, tcbs1, l.tcbList, i, p)
    ensures PoolOk(prioTbl[p := Some(i)], tcbs1, lowest,
                   l.(tcbList := Some(i), taskCtr := l.taskCtr + 1, active := [i] + l.active,
                      inFlight := l.inFlight - {i}))
  {
    LinkedChains(tcbs, tcbs1, l, i, p);
    InFlightMoves(|tcbs|, l, i);
    NowActive(prioTbl, tcbs, tcbs1, lowest, l.active, i, p);
  }

  /** The writes of the second critical section of OS_TCBInit. */
  predicate HeadLinked(tcbs: seq<Tcb>, tcbs1: seq<Tcb>, head: Option<nat>, i: nat, p: Prio) {
    && |tcbs1| == |tcbs| && i < |tcbs|
    && tcbs1[i].prio == p && tcbs1[i].next == head && tcbs1[i].prev == None
    && forall k :: 0 <= k < |tcbs| && k != i ==>
         tcbs1[k] == if head == Some(k) then tcbs[k].(prev := Some(i)) else tcbs[k]
  }

  lemma InFlightMoves(n: nat, l: Lists, i: nat)
    requires Partitioned(n, l.active, l.free, l.inFlight) && i in l.inFlight
    ensures i !in l.active && i !in l.free
    ensures forall j :: 0 <= j < |l.active| ==> l.active[j] != i
    ensures Partitioned(n, [i] + l.active, l.free, l.inFlight - {i})
  {
    var all := [i] + l.active;
    forall j | 0 <= j < |l.active| ensures l.active[j] != i { assert l.active[j] in l.active; }
    assert forall j :: 0 < j < |all| ==> all[j] == l.active[j - 1];
    assert forall x :: x in all <==> x == i || x in l.active;
  }

  lemma BackCons(tcbs: seq<Tcb>, tcbs1: seq<Tcb>, head: Option<nat>, list: seq<nat>, i: nat, p: Prio)
    requires BackLinks(tcbs, list) && Chain(tcbs, head, list) && HeadLinked(tcbs, tcbs1, head, i, p)
    requires NoRepeats(list) && forall j :: 0 <= j < |list| ==> list[j] != i
    ensures BackLinks(tcbs1, [i] + list)
  {
    var all := [i] + list;
    assert forall j :: 0 < j < |all| ==> all[j] == list[j - 1];
  }

  lemma NowActive(prioTbl: seq<Option<nat>>, tcbs: seq<Tcb>, tcbs1: seq<Tcb>, lowest: Prio, list: seq<nat>, i: nat,
                  p: Prio)
    requires ActiveOk(prioTbl, tcbs, lowest, list) && p < |prioTbl| && prioTbl[p] == None
    requires list == [] ==> p == lowest
    requires |tcbs1| == |tcbs| && i < |tcbs| && tcbs1[i].prio == p
    requires forall k :: 0 <= k < |tcbs| && k != i ==> tcbs1[k].prio == tcbs[k].prio
    requires forall j :: 0 <= j < |list| ==> list[j] != i
    ensures ActiveOk(prioTbl[p := Some(i)], tcbs1, lowest, [i] + list)
  {
    var all, prios := [i] + list, prioTbl[p := Some(i)];
    assert forall j :: 0 < j < |all| ==> all[j] == list[j - 1];
    assert all[0] == i;
    forall q | 0 <= q < |prios| && prios[q].Some? ensures prios[q].value in all {
      if q != p { assert prioTbl[q].value in list; }
    }
  }

  lemma PrioTblAdded(prioTbl: seq<Option<nat>>, tcbs: seq<Tcb>, tcbs1: seq<Tcb>, pos: map<Prio, Position>,
                     head: Option<nat>, i: nat, p: Prio)
    requires PrioTblOk(prioTbl, tcbs, pos) && p < |prioTbl| && prioTbl[p] == None
    requires HeadLinked(tcbs, tcbs1, head, i, p) && BitsOk(tcbs1[i])
    requires forall q :: 0 <= q < |prioTbl| ==> prioTbl[q] != Some(i)
    ensures PrioTblOk(prioTbl[p := Some(i)], tcbs1, pos[p := InOwnCode])
  {
    var prios := prioTbl[p := Some(i)];
    forall q | 0 <= q < |prios| && prios[q].Some?
      ensures prios[q].value < |tcbs1| && BitsOk(tcbs1[prios[q].value])
    {
      if q != p { assert BitsOk(tcbs[prioTbl[q].value]); }
    }
  }

  lemma TaskMapAdded(prioTbl: seq<Option<nat>>, tcbs: seq<Tcb>, tcbs1: seq<Tcb>, pos: map<Prio, Position>,
                     head: Option<nat>, i: nat, p: Prio)
    requires PrioTblOk(prioTbl, tcbs, pos) && p < |prioTbl| && prioTbl[p] == None
    requires HeadLinked(tcbs, tcbs1, head, i, p)
    requires BitsOk(tcbs1[i]) && TaskOf(tcbs1[i], InOwnCode) == FreshTask
    requires forall q :: 0 <= q < |prioTbl| ==> prioTbl[q] != Some(i)
    ensures PrioTblOk(prioTbl[p := Some(i)], tcbs1, pos[p := InOwnCode])
    ensures TaskMap(prioTbl[p := Some(i)], tcbs1, pos[p := InOwnCode]) == TaskMap(prioTbl, tcbs, pos)[p := FreshTask]
  {
    PrioTblAdded(prioTbl, tcbs, tcbs1, pos, head, i, p);
    var before, after := TaskMap(prioTbl, tcbs, pos), TaskMap(prioTbl[p := Some(i)], tcbs1, pos[p := InOwnCode]);
    assert after.Keys == before.Keys + {p};
    forall q | q in before ensures after[q] == before[q] {
      assert prioTbl[q].value != i;
    }
    assert after[p] == FreshTask;
  }

  /** Entering block i in OSTCBPrioTbl adds one fresh task. */
  lemma TaskAdded(m: Memory, tcbs1: seq<Tcb>, head: Option<nat>, i: nat, p: Prio)
    requires MemoryOk(m) && p < |m.prioTbl| && m.prioTbl[p] == None
    requires HeadLinked(m.tcbs, tcbs1, head, i, p)
    requires BitsOk(tcbs1[i]) && TaskOf(tcbs1[i], InOwnCode) == FreshTask
    requires forall q :: 0 <= q < |m.prioTbl| ==> m.prioTbl[q] != Some(i)
    ensures var m1 := m.(tcbs := tcbs1, prioTbl := m.prioTbl[p := Some(i)], pos := m.pos[p := InOwnCode]);
      MemoryOk(m1) && Meaning(m1) == Meaning(m).(tasks := Meaning(m).tasks[p := FreshTask])
  {
    TaskMapAdded(m.prioTbl, m.tcbs, tcbs1, m.pos, head, i, p);
  }

  lemma InFlightUnnamed(prioTbl: seq<Option<nat>>, tcbs: seq<Tcb>, lowest: Prio, l: Lists, i: nat)
    requires PoolOk(prioTbl, tcbs, lowest, l) && i in l.inFlight
    ensures i < |tcbs| && l.tcbList != Some(i) && forall q :: 0 <= q < |prioTbl| ==> prioTbl[q] != Some(i)
  {
    if l.active != [] { assert l.active[0] in l.active; }
    forall q | 0 <= q < |prioTbl| ensures prioTbl[q] != Some(i) {
      if prioTbl[q].Some? { assert prioTbl[q].value in l.active; }
    }
  }

  // ---------------------------------------------------------------- OSInit

  const ZeroTcb := Tcb(0, 0, 0, 0, {}, PendOk, 0, None, None, 0, None, None)

  /** The tables as OSInit leaves them. */
  function InitialMemory(lowest: Prio, tcbs: seq<Tcb>, resources: seq<Resource>): Memory {
    var rows := lowest / 8 + 1;
    Memory(lowest, EmptyList(rows), seq(lowest + 1, i => None), tcbs,
           seq(|resources|, e requires 0 <= e < |resources| => Ecb(resources[e], EmptyList(rows))),
           0, 0, 0, map[], false)
  }

  lemma InitialOk(lowest: Prio, tcbs: seq<Tcb>, resources: seq<Resource>)
    requires lowest < 64 && forall e :: 0 <= e < |resources| ==> ResourceOk(resources[e])
    ensures var m := InitialMemory(lowest, tcbs, resources);
      && MemoryOk(m)
      && Meaning(m).tasks == map[] && Meaning(m).ready == {}
      && forall e :: 0 <= e < |resources| ==> Meaning(m).waiting[e] == {}
  {
    EmptyListOk(lowest / 8 + 1);
  }

  lemma InitialPool(prioTbl: seq<Option<nat>>, tcbs: seq<Tcb>, lowest: Prio)
    requires |tcbs| > 0 && forall p :: 0 <= p < |prioTbl| ==> prioTbl[p] == None
    requires forall i :: 0 <= i < |tcbs| ==> tcbs[i].next == if i + 1 < |tcbs| then Some(i + 1) else None
    ensures PoolOk(prioTbl, tcbs, lowest, Lists(None, Some(0), 0, [], seq(|tcbs|, i => i), {}))
  {
    var free: seq<nat> := seq(|tcbs|, i => i);
    forall i: nat | i < |tcbs| ensures i in free { assert free[i] == i; }
  }
}
