/** OSTimeTick over the whole list of control blocks, and n ticks in a row. */
module KernelTicks {
  import opened KernelModel
  import opened KernelInvariant

  /** The loop of OSTimeTick over the control blocks ps, one critical section each. */
  function TickList(s: State, ps: seq<Prio>): (r: State)
    requires forall i :: 0 <= i < |ps| ==> ps[i] in s.tasks
    ensures r.tasks.Keys == s.tasks.Keys
    decreases |ps|
  {
    if ps == [] then s else TickOne(TickList(s, ps[..|ps| - 1]), ps[|ps| - 1])
  }

  lemma TickListStep(s: State, ps: seq<Prio>, k: nat)
    requires 0 < k <= |ps| && forall i :: 0 <= i < |ps| ==> ps[i] in s.tasks
    ensures TickList(s, ps[..k]) == TickOne(TickList(s, ps[..k - 1]), ps[k - 1])
  {
    assert ps[..k][..k - 1] == ps[..k - 1];
  }

  lemma TickListNext(s: State, ps: seq<Prio>, k: nat, t: State) returns (u: State)
    requires k < |ps| && (forall i :: 0 <= i < |ps| ==> ps[i] in s.tasks) && t == TickList(s, ps[..k])
    ensures ps[k] in t.tasks && u == TickOne(t, ps[k]) && u == TickList(s, ps[..k + 1])
  {
    u := TickOne(t, ps[k]);
    TickListStep(s, ps, k + 1);
  }

  /** One whole tick: every task but the idle one is ticked once. */
  function TickAll(s: State): State
    requires s.ready <= s.tasks.Keys
  {
    s.(tasks := map p | p in s.tasks :: if p == s.idle then s.tasks[p] else TickTask(s.tasks[p]),
       ready := s.ready + set p | p in s.tasks && p != s.idle && TickReadies(s.tasks[p]))
  }

  predicate Distinct(ps: seq<Prio>) {
    forall i, j :: 0 <= i < j < |ps| ==> ps[i] != ps[j]
  }

  lemma {:induction false} TickListPointwise(s: State, ps: seq<Prio>)
    requires Distinct(ps) && forall i :: 0 <= i < |ps| ==> ps[i] in s.tasks
    ensures var r := TickList(s, ps);
      && r == s.(tasks := r.tasks, ready := r.ready)
      && (forall p :: p in s.tasks ==> r.tasks[p] == if p in ps then TickTask(s.tasks[p]) else s.tasks[p])
      && (forall p :: p in r.ready <==> p in s.ready || (p in ps && TickReadies(s.tasks[p])))
    decreases |ps|
  {
    if ps != [] {
      var front := ps[..|ps| - 1];
      TickListPointwise(s, front);
      assert ps == front + [ps[|ps| - 1]];
      assert ps[|ps| - 1] !in front;
    }
  }

  /** Walking the list of control blocks, in any order, each once, is one whole tick. */
  lemma TickListIsTickAll(s: State, ps: seq<Prio>)
    requires s.ready <= s.tasks.Keys && Distinct(ps)
    requires forall p :: p in ps <==> p in s.tasks && p != s.idle
    ensures TickList(s, ps) == TickAll(s)
  {
    TickListPointwise(s, ps);
    assert TickList(s, ps).tasks == TickAll(s).tasks;
    assert TickList(s, ps).ready == TickAll(s).ready;
  }

  function Ticks(s: State, n: nat): (r: State)
    requires s.ready <= s.tasks.Keys
    ensures r.tasks.Keys == s.tasks.Keys && r.ready <= r.tasks.Keys && r.idle == s.idle
    decreases n
  {
    if n == 0 then s else TickAll(Ticks(s, n - 1))
  }

  /** n ticks with nothing else happening: a task whose delay was in 1..n becomes ready unless
      suspended, told of a timeout exactly when it was pending; a longer delay shrinks by n;
      every other task keeps its block and its readiness, and nothing else changes. */
  lemma {:induction false} TicksExact(s: State, n: nat, p: Prio)
    requires Inv(s) && p in s.tasks && p != s.idle
    ensures Ticks(s, n) == s.(tasks := Ticks(s, n).tasks, ready := Ticks(s, n).ready)
    ensures var t, r := s.tasks[p], Ticks(s, n);
      if 1 <= t.dly <= n then
        && r.tasks[p] == t.(dly := 0, stat := t.stat - PEND_ANY,
                            pend := if t.stat * PEND_ANY != {} then PendTo else PendOk)
        && (p in r.ready <==> SUSPEND !in t.stat)
      else
        && r.tasks[p] == t.(dly := if t.dly == 0 then 0 else t.dly - n)
        && (p in r.ready <==> p in s.ready)
    decreases n
  {
    assert TaskOk(s, p);
    var t := s.tasks[p];
    if t.stat * PEND_ANY == {} {
      forall x | x in t.stat ensures x !in PEND_ANY { assert x !in t.stat * PEND_ANY; }
      assert t.stat - PEND_ANY == t.stat;
    }
    TicksOfOne(s, n, p);
    TicksTouch(s, n);
  }

  lemma {:induction false} TicksTouch(s: State, n: nat)
    requires s.ready <= s.tasks.Keys
    ensures Ticks(s, n) == s.(tasks := Ticks(s, n).tasks, ready := Ticks(s, n).ready)
    decreases n
  {
    if n > 0 {
      TicksTouch(s, n - 1);
    }
  }

  lemma TickAllAt(s: State, p: Prio)
    requires s.ready <= s.tasks.Keys && p in s.tasks && p != s.idle
    ensures TickAll(s).tasks[p] == TickTask(s.tasks[p])
    ensures p in TickAll(s).ready <==> p in s.ready || TickReadies(s.tasks[p])
  {
  }

  /** A control block after n ticks. */
  function TaskAfter(t: Task, n: nat): Task {
    if t.dly == 0 then t
    else if t.dly > n then t.(dly := t.dly - n)
    else TickTask(t.(dly := 1))
  }

  lemma OneMoreTick(t: Task, n: nat)
    ensures TaskAfter(t, n + 1) == TickTask(TaskAfter(t, n))
    ensures TickReadies(TaskAfter(t, n)) <==> t.dly == n + 1 && SUSPEND !in t.stat
  {
  }

  /** p's block and readiness n ticks after they were t and `ready`. */
  predicate AfterTicks(r: State, p: Prio, t: Task, ready: bool, n: nat) {
    && p in r.tasks && r.tasks[p] == TaskAfter(t, n)
    && (p in r.ready <==> ready || (1 <= t.dly <= n && SUSPEND !in t.stat))
  }

  lemma AfterOneMore(s: State, p: Prio, t: Task, ready: bool, n: nat)
    requires s.ready <= s.tasks.Keys && p != s.idle && AfterTicks(s, p, t, ready, n)
    ensures AfterTicks(TickAll(s), p, t, ready, n + 1)
  {
    TickAllAt(s, p);
    OneMoreTick(t, n);
  }

  lemma {:induction false} TicksOfOne(s: State, n: nat, p: Prio)
    requires s.ready <= s.tasks.Keys && p in s.tasks && p != s.idle
    ensures AfterTicks(Ticks(s, n), p, s.tasks[p], p in s.ready, n)
    decreases n
  {
    if n > 0 {
      TicksOfOne(s, n - 1, p);
      AfterOneMore(Ticks(s, n - 1), p, s.tasks[p], p in s.ready, n - 1);
    }
  }
}
