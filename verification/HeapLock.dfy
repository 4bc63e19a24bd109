/** The recursive lock around the heap: a semaphore of one, the priority of the task that has it,
    and how many times that task has locked it.  Tasks may be switched between any two statements
    outside a critical section. */
module HeapLock {

  /** Where a task is: outside the two functions, or in them after the statement named. */
  datatype Phase =
    | Outside
    | Queried(count: nat)
    | Waiting
    | Pended
    | Counted
    | Posting

  /** Tasks are numbered by priority.  depths[i] is how many locks task i has taken and not yet
      given back, which the code does not know. */
  datatype Heap = Heap(count: nat, owner: int, locks: int, phases: seq<Phase>, depths: seq<nat>)

  datatype Action =
    | Query(i: nat)
    | Check(i: nat)
    | Pend(i: nat)
    | SetLocks(i: nat)
    | SetOwner(i: nat)
    | Unlock(i: nat)
    | Post(i: nat)

  predicate Formed(s: Heap) {
    |s.phases| == |s.depths|
  }

  predicate Enabled(s: Heap, a: Action)
    requires Formed(s)
  {
    && a.i < |s.phases|
    && var p := s.phases[a.i];
      match a
      case Query(_) => p.Outside?
      case Check(_) => p.Queried?
      case Pend(_) => p.Waiting? && s.count > 0
      case SetLocks(_) => p.Pended?
      case SetOwner(_) => p.Counted?
      case Unlock(_) => p.Outside?
      case Post(_) => p.Posting?
  }

  function At(s: Heap, i: nat, p: Phase): Heap
    requires i < |s.phases|
  {
    s.(phases := s.phases[i := p])
  }

  function Step(s: Heap, a: Action): (r: Heap)
    requires Formed(s) && Enabled(s, a)
    ensures Formed(r) && |r.phases| == |s.phases|
  {
    var i := a.i;
    match a
    case Query(_) => At(s, i, Queried(s.count))
    case Check(_) =>
      if s.phases[i].count == 0 && i == s.owner then
        At(s, i, Outside).(locks := s.locks + 1, depths := s.depths[i := s.depths[i] + 1])
      else At(s, i, Waiting)
    case Pend(_) => At(s, i, Pended).(count := s.count - 1)
    case SetLocks(_) => At(s, i, Counted).(locks := 1)
    case SetOwner(_) => At(s, i, Outside).(owner := i, depths := s.depths[i := 1])
    case Unlock(_) =>
      var d := s.depths[i := if s.depths[i] > 0 then s.depths[i] - 1 else 0];
      if s.locks == 0 then s.(depths := d)
      else if s.locks == 1 then At(s, i, Posting).(locks := 0, owner := -1, depths := d)
      else s.(locks := s.locks - 1, depths := d)
    case Post(_) => At(s, i, Outside).(count := s.count + 1)
  }

  // ---------------------------------------------------------------- the invariant

  /** The task has the semaphore's one unit. */
  predicate Has(s: Heap, i: nat)
    requires Formed(s) && i < |s.phases|
  {
    s.depths[i] > 0 || s.phases[i].Pended? || s.phases[i].Counted? || s.phases[i].Posting?
  }

  predicate TaskOk(s: Heap, i: nat)
    requires Formed(s) && i < |s.phases|
  {
    && (s.depths[i] > 0 <==> s.owner == i)
    && (s.depths[i] > 0 ==> s.locks == s.depths[i])
    && (s.depths[i] > 0 ==> match s.phases[i]
          case Outside => true
          case Queried(count) => count == 0
          case _ => false)
    && (s.phases[i].Counted? ==> s.locks == 1)
    && (s.phases[i].Pended? || s.phases[i].Posting? ==> s.locks == 0)
  }

  /** At most one task has the unit, and if none has, the semaphore holds it. */
  predicate OneUnit(s: Heap)
    requires Formed(s)
  {
    && s.count <= 1
    && (forall i, j :: 0 <= i < |s.phases| && 0 <= j < |s.phases| && Has(s, i) && Has(s, j) ==> i == j)
    && (s.count == 1 <==> forall i :: 0 <= i < |s.phases| ==> !Has(s, i))
  }

  predicate Inv(s: Heap) {
    && Formed(s) && OneUnit(s)
    && (forall i :: 0 <= i < |s.phases| ==> TaskOk(s, i))
    && (s.count == 1 ==> s.locks == 0)
    && (s.owner == -1 || 0 <= s.owner < |s.phases|)
    && s.locks >= 0
  }

  /** Only a task that has locked the heap unlocks it. */
  predicate Proper(s: Heap, a: Action)
    requires Formed(s) && Enabled(s, a)
  {
    a.Unlock? ==> s.depths[a.i] > 0
  }

  lemma HolderUnique(s: Heap, s1: Heap, i: nat)
    requires Inv(s) && Formed(s1) && |s1.phases| == |s.phases| && i < |s.phases|
    requires Has(s, i) && Has(s1, i) && s1.count == s.count
    requires forall j :: 0 <= j < |s.phases| && j != i ==> s1.phases[j] == s.phases[j] && s1.depths[j] == s.depths[j]
    ensures OneUnit(s1)
  {
    assert forall j :: 0 <= j < |s.phases| && j != i ==> Has(s1, j) == Has(s, j);
  }

  lemma NonHolder(s: Heap, s1: Heap, i: nat)
    requires Inv(s) && Formed(s1) && |s1.phases| == |s.phases| && i < |s.phases|
    requires !Has(s, i) && !Has(s1, i) && s1.count == s.count
    requires forall j :: 0 <= j < |s.phases| && j != i ==> s1.phases[j] == s.phases[j] && s1.depths[j] == s.depths[j]
    ensures OneUnit(s1)
  {
    assert forall j :: 0 <= j < |s.phases| ==> Has(s1, j) == Has(s, j);
  }

  lemma PendKeeps(s: Heap, i: nat)
    requires Inv(s) && Enabled(s, Pend(i))
    ensures Inv(Step(s, Pend(i)))
  {
    var s1 := Step(s, Pend(i));
    assert !Has(s, i) && Has(s1, i);
    forall j | 0 <= j < |s.phases| && j != i ensures !Has(s1, j) { assert !Has(s, j); }
    forall j | 0 <= j < |s.phases| ensures TaskOk(s1, j) { assert TaskOk(s, j); }
  }

  lemma PostKeeps(s: Heap, i: nat)
    requires Inv(s) && Enabled(s, Post(i))
    ensures Inv(Step(s, Post(i)))
  {
    var s1 := Step(s, Post(i));
    assert TaskOk(s, i);
    assert Has(s, i) && !Has(s1, i);
    forall j | 0 <= j < |s.phases| && j != i ensures !Has(s1, j) { assert !Has(s, j); }
    forall j | 0 <= j < |s.phases| ensures TaskOk(s1, j) { assert TaskOk(s, j); }
  }

  lemma HolderKeeps(s: Heap, a: Action)
    requires Inv(s) && Enabled(s, a) && Proper(s, a) && (a.SetLocks? || a.SetOwner? || a.Unlock?)
    ensures Inv(Step(s, a))
  {
    var s1, i := Step(s, a), a.i;
    assert TaskOk(s, i);
    assert Has(s, i) && Has(s1, i);
    HolderUnique(s, s1, i);
    forall j | 0 <= j < |s.phases| ensures TaskOk(s1, j) {
      assert TaskOk(s, j) && (j != i ==> !Has(s, j));
    }
  }

  lemma LockKeeps(s: Heap, a: Action)
    requires Inv(s) && Enabled(s, a) && (a.Query? || a.Check?)
    ensures Inv(Step(s, a))
  {
    var s1, i := Step(s, a), a.i;
    assert TaskOk(s, i);
    if Has(s, i) { HolderUnique(s, s1, i); } else { NonHolder(s, s1, i); }
    forall j | 0 <= j < |s.phases| ensures TaskOk(s1, j) {
      assert TaskOk(s, j) && (Has(s, i) && j != i ==> !Has(s, j));
    }
  }

  lemma StepKeepsInv(s: Heap, a: Action)
    requires Inv(s) && Enabled(s, a) && Proper(s, a)
    ensures Inv(Step(s, a))
  {
    match a
    case Pend(i) => PendKeeps(s, i);
    case Post(i) => PostKeeps(s, i);
    case Query(_) => LockKeeps(s, a);
    case Check(_) => LockKeeps(s, a);
    case _ => HolderKeeps(s, a);
  }

  // ---------------------------------------------------------------- what that means

  ghost predicate IsRun(s: Heap, acts: seq<Action>)
    decreases |acts|, 0
  {
    acts == [] ||
    (var n := |acts| - 1;
     IsRun(s, acts[..n]) && Formed(End(s, acts[..n])) && Enabled(End(s, acts[..n]), acts[n])
       && Proper(End(s, acts[..n]), acts[n]))
  }

  ghost function End(s: Heap, acts: seq<Action>): Heap
    requires IsRun(s, acts)
    decreases |acts|, 1
  {
    if acts == [] then s else Step(End(s, acts[..|acts| - 1]), acts[|acts| - 1])
  }

  /** The semaphore made with one unit, nobody inside. */
  predicate Started(s: Heap) {
    && Formed(s) && s.count == 1 && s.owner == -1 && s.locks == 0
    && forall i :: 0 <= i < |s.phases| ==> s.phases[i] == Outside && s.depths[i] == 0
  }

  lemma {:induction false} RunKeepsInv(s: Heap, acts: seq<Action>)
    requires Inv(s) && IsRun(s, acts)
    ensures Inv(End(s, acts))
    decreases |acts|
  {
    if acts != [] {
      var n := |acts| - 1;
      RunKeepsInv(s, acts[..n]);
      StepKeepsInv(End(s, acts[..n]), acts[n]);
    }
  }

  /** In every reachable state at most one task has the heap locked, and the count of the code
      is how often that task has locked it. */
  lemma Exclusive(s: Heap, acts: seq<Action>, i: nat, j: nat)
    requires Started(s) && IsRun(s, acts)
    ensures var e := End(s, acts);
      i < |e.depths| && j < |e.depths| && e.depths[i] > 0 && e.depths[j] > 0 ==>
        i == j && e.owner == i && e.locks == e.depths[i] && e.count == 0
  {
    assert forall k :: 0 <= k < |s.phases| ==> !Has(s, k) && TaskOk(s, k);
    RunKeepsInv(s, acts);
    var e := End(s, acts);
    if i < |e.depths| && j < |e.depths| && e.depths[i] > 0 && e.depths[j] > 0 {
      assert Has(e, i) && Has(e, j) && TaskOk(e, i);
    }
  }

  /** The count of the semaphore is read before the critical section, but never harmfully stale:
      the check lets a task through without waiting exactly if it has the heap locked. */
  lemma QueryNeverStale(s: Heap, i: nat)
    requires Inv(s) && Enabled(s, Check(i))
    ensures Step(s, Check(i)).phases[i] == (if s.depths[i] > 0 then Outside else Waiting)
    ensures s.depths[i] > 0 ==> Step(s, Check(i)).depths[i] == s.depths[i] + 1
  {
    assert TaskOk(s, i);
  }

  /** The semaphore is posted exactly when the unlocks have matched the locks. */
  lemma PostsWhenMatched(s: Heap, i: nat)
    requires Inv(s) && Enabled(s, Unlock(i)) && s.depths[i] > 0
    ensures Step(s, Unlock(i)).phases[i].Posting? <==> Step(s, Unlock(i)).depths[i] == 0
  {
    assert TaskOk(s, i);
  }

  // ---------------------------------------------------------------- a stray unlock

  /** Some proper run leads from s to t. */
  ghost predicate Reaches(s: Heap, t: Heap) {
    exists acts :: IsRun(s, acts) && End(s, acts) == t
  }

  lemma ReachesSelf(s: Heap)
    ensures Reaches(s, s)
  {
    assert IsRun(s, []) && End(s, []) == s;
  }

  lemma ReachesNext(s: Heap, t: Heap, a: Action)
    requires Reaches(s, t) && Formed(t) && Enabled(t, a) && Proper(t, a)
    ensures Reaches(s, Step(t, a))
  {
    var acts :| IsRun(s, acts) && End(s, acts) == t;
    assert (acts + [a])[..|acts|] == acts;
    assert IsRun(s, acts + [a]);
  }

  /** Two tasks have the heap locked. */
  predicate Shared(s: Heap) {
    exists i, j :: 0 <= i < |s.depths| && 0 <= j < |s.depths| && i != j && s.depths[i] > 0 && s.depths[j] > 0
  }

  /** With the unit back in the semaphore, the next to ask gets it, whatever h still believes. */
  lemma TakesToo(s: Heap, t: Heap, i: nat, h: nat)
    requires Reaches(s, t) && Formed(t) && i < |t.phases| && h < |t.phases| && i != h
    requires t.count == 1 && t.phases[i] == Outside && (t.depths[h] > 0 || t.phases[h] == Counted)
    ensures exists u :: Reaches(s, u) && Shared(u)
  {
    ReachesNext(s, t, Query(i));
    var t1 := At(t, i, Queried(1));
    ReachesNext(s, t1, Check(i));
    var t2 := At(t1, i, Waiting);
    ReachesNext(s, t2, Pend(i));
    var t3 := At(t2, i, Pended).(count := 0);
    ReachesNext(s, t3, SetLocks(i));
    var t4 := At(t3, i, Counted).(locks := 1);
    ReachesNext(s, t4, SetOwner(i));
    var t5 := At(t4, i, Outside).(owner := i, depths := t4.depths[i := 1]);
    if t.depths[h] > 0 {
      assert t5.depths[i] > 0 && t5.depths[h] > 0;
      assert Shared(t5);
    } else {
      assert t5.phases[h] == Counted;
      ReachesNext(s, t5, SetOwner(h));
      var t6 := Step(t5, SetOwner(h));
      assert t6.depths[i] > 0 && t6.depths[h] > 0;
      assert Shared(t6);
    }
  }

  /** The count runs out one unlock before those of h do, and the unit is given back too early. */
  lemma {:induction false} GivesBackEarly(s: Heap, t: Heap, i: nat, h: nat)
    requires Reaches(s, t) && Formed(t) && i < |t.phases| && h < |t.phases| && i != h
    requires t.count == 0 && t.phases[i] == Outside && t.phases[h] == Outside
    requires t.locks >= 1 && t.depths[h] == t.locks + 1
    ensures exists u :: Reaches(s, u) && Shared(u)
    decreases t.locks
  {
    ReachesNext(s, t, Unlock(h));
    var t1 := Step(t, Unlock(h));
    if t.locks > 1 {
      GivesBackEarly(s, t1, i, h);
    } else {
      ReachesNext(s, t1, Post(h));
      TakesToo(s, Step(t1, Post(h)), i, h);
    }
  }

  lemma StrayOpens(s: Heap, i: nat)
    requires Inv(s) && Enabled(s, Unlock(i)) && s.depths[i] == 0 && s.locks > 0
    ensures exists u :: Reaches(Step(s, Unlock(i)), u) && Shared(u)
  {
    var s1 := Step(s, Unlock(i));
    assert s.count == 0;
    var h :| 0 <= h < |s.phases| && Has(s, h);
    assert TaskOk(s, h) && TaskOk(s, i);
    assert h != i;
    ReachesSelf(s1);
    if s.locks == 1 {
      ReachesNext(s1, s1, Post(i));
      TakesToo(s1, Step(s1, Post(i)), i, h);
    } else if s.phases[h].Outside? {
      GivesBackEarly(s1, s1, i, h);
    } else {
      ReachesNext(s1, s1, Check(h));
      GivesBackEarly(s1, Step(s1, Check(h)), i, h);
    }
  }

  lemma NeverShared(s: Heap, u: Heap)
    requires Inv(s) && Reaches(s, u)
    ensures !Shared(u)
  {
    var acts :| IsRun(s, acts) && End(s, acts) == u;
    RunKeepsInv(s, acts);
    forall i, j | 0 <= i < |u.depths| && 0 <= j < |u.depths| && u.depths[i] > 0 && u.depths[j] > 0 ensures i == j {
      assert Has(u, i) && Has(u, j);
    }
  }

  /** An unlock by a task that has not locked the heap is harmless exactly while nobody's lock is
      counted; otherwise, though every later unlock is proper, two tasks can come to have it locked. */
  lemma StrayUnlock(s: Heap, i: nat)
    requires Inv(s) && Enabled(s, Unlock(i)) && s.depths[i] == 0
    ensures (exists u :: Reaches(Step(s, Unlock(i)), u) && Shared(u)) <==> s.locks > 0
  {
    if s.locks > 0 {
      StrayOpens(s, i);
    } else {
      assert Step(s, Unlock(i)).depths == s.depths;
      assert Step(s, Unlock(i)) == s;
      forall u | Reaches(s, u) ensures !Shared(u) {
        NeverShared(s, u);
      }
    }
  }

  // ---------------------------------------------------------------- the two functions

  /** alt_malloc_lock.c, the semaphore and the two static variables.  Where each task is, and
      how often it has locked the heap, is no data of the code: the contracts speak of it. */
  class HeapSemaphore {
    var count: nat
    var lockid: int
    var locks: int
    var phases: seq<Phase>
    var depths: seq<nat>

    function Now(): Heap
      reads this
    {
      Heap(count, lockid, locks, phases, depths)
    }

    constructor (tasks: nat)
      ensures Started(Now()) && |phases| == tasks
    {
      count, lockid, locks := 1, -1, 0;
      phases, depths := seq(tasks, i => Outside), seq(tasks, i => 0);
    }

    /** A statement of another task, if it can be taken. */
    method Other(id: nat, a: Action)
      requires Inv(Now()) && id < |phases| && phases[id] == Waiting
      modifies this
      ensures Inv(Now()) && |phases| == old(|phases|) && phases[id] == Waiting && depths[id] == old(depths)[id]
    {
      if a.i != id && Enabled(Now(), a) && Proper(Now(), a) {
        StepKeepsInv(Now(), a);
        var t := Step(Now(), a);
        count, lockid, locks, phases, depths := t.count, t.owner, t.locks, t.phases, t.depths;
      }
    }

    /** __malloc_lock by task id.  It waits only if it has not locked the heap already; `turns` is
        what other tasks do meanwhile, and if they never give the semaphore up it still waits. */
    method Lock(id: nat, turns: seq<Action>) returns (done: bool)
      requires Inv(Now()) && id < |phases| && phases[id] == Outside
      modifies this
      ensures Inv(Now()) && id < |phases| == old(|phases|)
      ensures old(depths)[id] > 0 || old(count) > 0 ==>
        done && phases == old(phases) && depths == old(depths)[id := old(depths)[id] + 1]
      ensures done ==> phases[id] == Outside && depths[id] == old(depths)[id] + 1 && lockid == id && locks == depths[id]
      ensures !done ==> phases[id] == Waiting && depths[id] == 0 && count == 0
    {
      assert TaskOk(Now(), id) && (count > 0 ==> !Has(Now(), id));
      ghost var s := Step(Now(), Query(id));
      StepKeepsInv(Now(), Query(id));
      StepKeepsInv(s, Check(id));
      ghost var w := Step(s, Check(id));
      var seen := count;
      if seen == 0 && id == lockid {
        locks := locks + 1;
        depths := depths[id := depths[id] + 1];
        assert phases[id := Queried(0)][id := Outside] == phases;
        assert Now() == w;
        return true;
      }
      phases := phases[id := Waiting];
      assert Now() == w;
      var k := 0;
      while count == 0 && k < |turns|
        invariant Inv(Now()) && id < |phases| == old(|phases|) && phases[id] == Waiting && depths[id] == 0
        invariant seen > 0 ==> Now() == w
      {
        Other(id, turns[k]);
        k := k + 1;
      }
      if count == 0 {
        return false;
      }
      TakeUnit(id);
      return true;
    }

    /** OSSemPend gives the unit, and the two static variables are set. */
    method TakeUnit(id: nat)
      requires Inv(Now()) && id < |phases| && phases[id] == Waiting && depths[id] == 0 && count > 0
      modifies this
      ensures Inv(Now()) && phases == old(phases)[id := Outside] && depths == old(depths)[id := 1]
      ensures lockid == id && locks == 1
    {
      ghost var w := Now();
      StepKeepsInv(w, Pend(id));
      ghost var p := Step(w, Pend(id));
      StepKeepsInv(p, SetLocks(id));
      ghost var c := Step(p, SetLocks(id));
      StepKeepsInv(c, SetOwner(id));
      count := count - 1;
      locks := 1;
      lockid := id;
      depths := depths[id := 1];
      phases := phases[id := Outside];
      assert Step(c, SetOwner(id)).phases == phases;
      assert Now() == Step(c, SetOwner(id));
    }

    /** __malloc_unlock by a task that has the heap locked. */
    method Unlock(id: nat)
      requires Inv(Now()) && id < |phases| && phases[id] == Outside && depths[id] > 0
      modifies this
      ensures Inv(Now()) && phases == old(phases) && depths == old(depths)[id := old(depths)[id] - 1]
      ensures (count == 1) == (depths[id] == 0)
    {
      assert TaskOk(Now(), id) && Has(Now(), id);
      ghost var s := Now();
      StepKeepsInv(s, Action.Unlock(id));
      if locks == 0 {
        return;
      }
      locks := locks - 1;
      depths := depths[id := depths[id] - 1];
      if locks == 0 {
        lockid := -1;
        ghost var u := Step(s, Action.Unlock(id));
        StepKeepsInv(u, Post(id));
        count := count + 1;
        assert Step(u, Post(id)).phases == phases;
        assert Now() == Step(u, Post(id));
      } else {
        assert Now() == Step(s, Action.Unlock(id));
      }
    }
  }
}
