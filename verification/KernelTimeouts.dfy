/** When waits time out and delays end, over whole runs. */
module KernelTimeouts {
  import opened Options
  import opened KernelModel
  import opened KernelInvariant
  import opened KernelRuns
  import opened KernelScheduling

  /** How often p is ticked. */
  function TicksOf(p: Prio, acts: seq<Action>): nat {
    if acts == [] then 0 else (if acts[0] == Tick(p) then 1 else 0) + TicksOf(p, acts[1..])
  }

  /** What is left of n ticks after k. */
  function Left(n: nat, k: nat): nat {
    if k < n then n - k else 0
  }

  // ---------------------------------------------------------------- pends

  /** The block of a task that pends with timeout n, k ticks later: 0 means it never times out. */
  predicate Counting(t: Task, n: nat, k: nat) {
    t.dly == Left(n, k) && t.pend == if 0 < n <= k then PendTo else PendOk
  }

  lemma CountTick(s: State, p: Prio, es: seq<EventId>, n: nat, k: nat)
    requires Inv(s) && Episode(s, p, es, []) && es != [] && Enabled(s, Tick(p)) && Counting(s.tasks[p], n, k)
    ensures Counting(Step(s, Tick(p)).tasks[p], n, k + 1)
  {
    assert TaskOk(s, p);
    StillWaiting(s, p);
    assert Step(s, Tick(p)).tasks[p] == TickTask(s.tasks[p]);
  }

  lemma CountStep(s: State, p: Prio, es: seq<EventId>, n: nat, k: nat, a: Action)
    requires Inv(s) && Episode(s, p, es, []) && es != [] && Counting(s.tasks[p], n, k)
    requires Enabled(s, a) && !(a == PendReturn && s.cur == p) && !GivenBy(s, p, a)
    ensures p in Step(s, a).tasks && Counting(Step(s, a).tasks[p], n, k + if a == Tick(p) then 1 else 0)
  {
    if a == Tick(p) {
      CountTick(s, p, es, n, k);
    } else if a != Suspend(p) && a != Resume(p) {
      OthersUnlessGiven(s, p, a);
    }
  }

  lemma {:induction false} CountRun(s: State, p: Prio, es: seq<EventId>, n: nat, k: nat, acts: seq<Action>)
    requires Inv(s) && Episode(s, p, es, []) && es != [] && Counting(s.tasks[p], n, k)
    requires IsRun(s, acts) && StaysInCall(p, s, acts) && DeliveriesTo(p, s, acts) == []
    ensures p in End(s, acts).tasks && Counting(End(s, acts).tasks[p], n, k + TicksOf(p, acts))
    decreases |acts|
  {
    if acts != [] {
      var a := acts[0];
      assert NewFor(p, s, a) + DeliveriesTo(p, Step(s, a), acts[1..]) == [];
      CountStep(s, p, es, n, k, a);
      StepKeepsInv(s, a);
      EpisodeStep(s, p, es, [], a);
      CountRun(Step(s, a), p, es, n, k + if a == Tick(p) then 1 else 0, acts[1..]);
    }
  }

  /** From the moment a task waits with timeout n, whatever happens but a delivery to it: after k ticks
      of it its delay is n - k, it is told of a timeout from the n-th tick on and not before, with
      n = 0 never, and its call can come to report a timeout only then. */
  lemma TimeoutExact(s: State, a: Action, acts: seq<Action>)
    requires Inv(s) && Enabled(s, a) && s.lockNesting == 0
    requires match a
      case Pend(e, _) => Empty(s.stores[e])
      case PendMulti(es, _) => TakeAll(s.stores, es).1 == [] && es != []
      case _ => false
    requires IsRun(Step(s, a), acts) && StaysInCall(s.cur, Step(s, a), acts)
    requires DeliveriesTo(s.cur, Step(s, a), acts) == []
    ensures var p, n, k, s1 := s.cur, a.timeout, TicksOf(s.cur, acts), End(Step(s, a), acts);
      && p in s1.tasks
      && s1.tasks[p].dly == (if k < n then n - k else 0)
      && (s1.tasks[p].pend == PendTo <==> 0 < n <= k)
      && (Typed(s1) && s1.cur == p && Enabled(s1, PendReturn) ==> 0 < n <= k)
  {
    var p, es := s.cur, if a.Pend? then [a.event] else a.events;
    var s0 := Step(s, a);
    EpisodeStart(s, a);
    StepKeepsInv(s, a);
    StartsCounting(s, a);
    CountRun(s0, p, es, a.timeout, 0, acts);
    EpisodeRun(s0, p, es, [], acts);
    assert [] + DeliveriesTo(p, s0, acts) == [];
    var s1 := End(s0, acts);
    if s1.cur == p && Enabled(s1, PendReturn) {
      ReturnsTimedOut(s1, es);
    }
  }

  lemma StartsCounting(s: State, a: Action)
    requires Inv(s) && Enabled(s, a) && s.lockNesting == 0
    requires match a
      case Pend(e, _) => Empty(s.stores[e])
      case PendMulti(es, _) => TakeAll(s.stores, es).1 == []
      case _ => false
    ensures s.cur in Step(s, a).tasks && Counting(Step(s, a).tasks[s.cur], a.timeout, 0)
  {
  }

  /** A call that can go on although nothing was handed over has timed out. */
  lemma ReturnsTimedOut(s: State, es: seq<EventId>)
    requires Inv(s) && Episode(s, s.cur, es, []) && es != [] && Enabled(s, PendReturn)
    ensures s.tasks[s.cur].pend == PendTo
  {
    assert TaskOk(s, s.cur);
    assert s.cur in s.ready;
  }

  // ---------------------------------------------------------------- delays

  /** p itself calls nothing that waits. */
  predicate Leaves(s: State, p: Prio, a: Action) {
    s.cur == p ==> !a.Pend? && !a.PendMulti? && !a.Delay?
  }

  ghost predicate Sleeps(p: Prio, s: State, acts: seq<Action>)
    requires IsRun(s, acts)
    decreases |acts|
  {
    acts == [] || (Leaves(s, p, acts[0]) && Sleeps(p, Step(s, acts[0]), acts[1..]))
  }

  predicate Delayed(s: State, p: Prio, n: nat, k: nat) {
    p in s.tasks && s.tasks[p].phase == Running && s.tasks[p].dly == Left(n, k)
  }

  lemma DelayedTick(s: State, p: Prio, n: nat, k: nat)
    requires Inv(s) && Delayed(s, p, n, k) && Enabled(s, Tick(p))
    ensures Delayed(Step(s, Tick(p)), p, n, k + 1)
  {
    assert Step(s, Tick(p)).tasks[p] == TickTask(s.tasks[p]);
  }

  lemma DelayedGiven(s: State, p: Prio, n: nat, k: nat, a: Action)
    requires Inv(s) && Delayed(s, p, n, k) && Enabled(s, a) && DeliveryOf(s, a).Some?
    ensures Delayed(Step(s, a), p, n, k)
  {
    assert TaskOk(s, p);
    var d := DeliveryOf(s, a).value;
    assert Step(s, a) == Owing(EventTaskRdy(s, d.event, d.msg, d.pend));
    assert d.prio in s.waiting[d.event] && d.prio != p;
    RdyOthers(s, d.event, d.msg, d.pend, p);
  }

  lemma DelayedOther(s: State, p: Prio, n: nat, k: nat, a: Action)
    requires Inv(s) && Delayed(s, p, n, k) && Enabled(s, a) && Leaves(s, p, a)
    requires DeliveryOf(s, a) == None && a != Tick(p)
    ensures Delayed(Step(s, a), p, n, k)
  {
  }

  lemma DelayedStep(s: State, p: Prio, n: nat, k: nat, a: Action)
    requires Inv(s) && Delayed(s, p, n, k) && Enabled(s, a) && Leaves(s, p, a)
    ensures Delayed(Step(s, a), p, n, k + if a == Tick(p) then 1 else 0)
  {
    if a == Tick(p) { DelayedTick(s, p, n, k); }
    else if DeliveryOf(s, a).Some? { DelayedGiven(s, p, n, k, a); }
    else { DelayedOther(s, p, n, k, a); }
  }

  lemma {:induction false} DelayedRun(s: State, p: Prio, n: nat, k: nat, acts: seq<Action>)
    requires Inv(s) && Delayed(s, p, n, k) && IsRun(s, acts) && Sleeps(p, s, acts)
    ensures Inv(End(s, acts)) && Delayed(End(s, acts), p, n, k + TicksOf(p, acts))
    decreases |acts|
  {
    if acts != [] {
      DelayedStep(s, p, n, k, acts[0]);
      StepKeepsInv(s, acts[0]);
      DelayedRun(Step(s, acts[0]), p, n, k + if acts[0] == Tick(p) then 1 else 0, acts[1..]);
    }
  }

  /** A task that delays itself by n ticks (0 is no delay) is ready again, unless suspended, from its
      n-th tick on, and not before. */
  lemma DelayExact(s: State, n: nat, acts: seq<Action>)
    requires Inv(s) && Enabled(s, Delay(n)) && n > 0
    requires IsRun(Step(s, Delay(n)), acts) && Sleeps(s.cur, Step(s, Delay(n)), acts)
    ensures var p, k, s1 := s.cur, TicksOf(s.cur, acts), End(Step(s, Delay(n)), acts);
      && p in s1.tasks && (p in s1.ready <==> k >= n && SUSPEND !in s1.tasks[p].stat)
  {
    var p, k, s0 := s.cur, TicksOf(s.cur, acts), Step(s, Delay(n));
    assert TaskOk(s, p);
    StepKeepsInv(s, Delay(n));
    DelayedRun(s0, p, n, 0, acts);
    assert TaskOk(End(s0, acts), p);
  }
}
