/** Units and messages: the immediate path of OSEventPendMulti, and conservation over runs. */
module KernelStores {
  import opened KernelModel
  import opened KernelInvariant
  import opened KernelRuns

  /** What a store has to give, oldest first; a semaphore unit carries the NULL message. */
  function Units(store: Store): seq<Message> {
    match store
    case Semaphore(count) => seq(count, i => 0)
    case Mailbox(message) => if message == 0 then [] else [message]
    case Queue(messages, _) => messages
  }

  function Occurrences(es: seq<EventId>, e: EventId): nat {
    if es == [] then 0
    else Occurrences(es[..|es| - 1], e) + if es[|es| - 1] == e then 1 else 0
  }

  /** The entries of es that have something to give when their turn comes: entry i does when
      fewer earlier entries name the same event than that event has units, and it hands out
      the next unit of its event. */
  function Available(stores: seq<Store>, es: seq<EventId>): seq<(EventId, Message)>
    requires forall i :: 0 <= i < |es| ==> es[i] < |stores|
    decreases |es|
  {
    if es == [] then []
    else
      var rest, e := es[..|es| - 1], es[|es| - 1];
      var units := Units(stores[e]);
      Available(stores, rest) +
      if Occurrences(rest, e) < |units| then [(e, units[Occurrences(rest, e)])] else []
  }

  /** What is left in the store of e after es has been served. */
  function LeftAfter(units: seq<Message>, used: nat): seq<Message> {
    if used <= |units| then units[used..] else []
  }

  lemma TakeIsFirstUnit(store: Store)
    ensures Empty(store) <==> Units(store) == []
    ensures !Empty(store) ==>
      Units(store) == [Take(store).1] + Units(Take(store).0) && KindFlag(Take(store).0) == KindFlag(store)
  {
    if store.Semaphore? && store.count > 0 {
      assert seq(store.count, i => 0) == [0] + seq(store.count - 1, i => 0);
    }
  }

  /** The immediate path over any event array, repeated entries included: the events returned
      are those available when visited, in array order, each with its own message; every event
      loses exactly the units returned, oldest first, and no other event changes. */
  lemma {:induction false} ImmediatePathExact(stores: seq<Store>, es: seq<EventId>)
    requires forall i :: 0 <= i < |es| ==> es[i] < |stores|
    ensures var (stores', taken) := TakeAll(stores, es);
      && taken == Available(stores, es)
      && (forall e :: 0 <= e < |stores| ==>
            && Units(stores'[e]) == LeftAfter(Units(stores[e]), Occurrences(es, e))
            && (Occurrences(es, e) == 0 ==> stores'[e] == stores[e]))
    decreases |es|
  {
    if es != [] {
      var rest, e := es[..|es| - 1], es[|es| - 1];
      ImmediatePathExact(stores, rest);
      var mid := TakeAll(stores, rest).0;
      TakeIsFirstUnit(mid[e]);
      if !Empty(mid[e]) {
        assert Units(mid[e])[0] == Take(mid[e]).1;
        assert Units(mid[e])[1..] == Units(Take(mid[e]).0);
      }
    }
  }

  // ---------------------------------------------------------------- conservation

  function CountOf(taken: seq<(EventId, Message)>, e: EventId): nat {
    if taken == [] then 0
    else CountOf(taken[..|taken| - 1], e) + if taken[|taken| - 1].0 == e then 1 else 0
  }

  /** A semaphore counts to 65535, a mailbox holds one message, a queue as many as it is long. */
  predicate HasRoom(store: Store) {
    match store
    case Semaphore(count) => count < 65535
    case Mailbox(message) => message == 0
    case Queue(messages, size) => |messages| < size
  }

  /** Whether a step puts a unit into the system through event e: a post that is not refused. */
  function Accepted(s: State, a: Action, e: EventId): nat
    requires Typed(s) && Enabled(s, a)
  {
    match a
    case Post(e', msg) =>
      if e' == e && (s.waiting[e] != {} || HasRoom(s.stores[e])) then 1 else 0
    case _ => 0
  }

  /** How many units of e a step hands to tasks: at once, or by waking a waiter. */
  function HandedOut(s: State, a: Action, e: EventId): nat
    requires Typed(s) && Enabled(s, a)
  {
    match a
    case Pend(e', _) => if e' == e && s.lockNesting == 0 && !Empty(s.stores[e]) then 1 else 0
    case PendMulti(es, _) => if s.lockNesting == 0 then CountOf(TakeAll(s.stores, es).1, e) else 0
    case Post(e', _) => if e' == e && s.waiting[e] != {} then 1 else 0
    case _ => 0
  }

  lemma {:induction false} TakeAllCount(stores: seq<Store>, es: seq<EventId>, e: EventId)
    requires e < |stores| && forall i :: 0 <= i < |es| ==> es[i] < |stores|
    ensures var (stores', taken) := TakeAll(stores, es);
      |Units(stores'[e])| + CountOf(taken, e) == |Units(stores[e])|
    decreases |es|
  {
    if es != [] {
      var rest, d := es[..|es| - 1], es[|es| - 1];
      TakeAllCount(stores, rest, e);
      var (mid, got) := TakeAll(stores, rest);
      TakeIsFirstUnit(mid[d]);
      if !Empty(mid[d]) {
        var last := (d, Take(mid[d]).1);
        assert (got + [last])[..|got|] == got;
      }
    }
  }

  /** A post that is not refused adds its unit or message behind the others; one that is changes nothing. */
  lemma PutExact(store: Store, msg: Message)
    requires !store.Semaphore? ==> msg != 0
    ensures Units(Put(store, msg)) ==
      Units(store) + if !HasRoom(store) then [] else if store.Semaphore? then [0] else [msg]
    ensures KindFlag(Put(store, msg)) == KindFlag(store)
  {
  }

  lemma StepConserves(s: State, a: Action, e: EventId)
    requires Typed(s) && Enabled(s, a) && e < |s.stores|
    ensures |Step(s, a).stores| == |s.stores|
    ensures |Units(Step(s, a).stores[e])| + HandedOut(s, a, e) == |Units(s.stores[e])| + Accepted(s, a, e)
  {
    match a
    case Pend(d, _) => TakeIsFirstUnit(s.stores[d]);
    case PendMulti(es, _) =>
      if s.lockNesting == 0 { TakeAllCount(s.stores, es, e); TakeNothing(s.stores, es); }
    case Post(d, msg) => PutExact(s.stores[d], msg);
    case _ => assert Step(s, a).stores == s.stores;
  }

  lemma TakeNothing(stores: seq<Store>, es: seq<EventId>)
    requires forall i :: 0 <= i < |es| ==> es[i] < |stores|
    ensures TakeAll(stores, es).1 == [] ==> TakeAll(stores, es).0 == stores
  {
    if TakeAll(stores, es).1 == [] { NothingTaken(stores, es); }
  }

  ghost function TotalAccepted(s: State, acts: seq<Action>, e: EventId): nat
    requires IsRun(s, acts)
    decreases |acts|
  {
    if acts == [] then 0 else Accepted(s, acts[0], e) + TotalAccepted(Step(s, acts[0]), acts[1..], e)
  }

  ghost function TotalHandedOut(s: State, acts: seq<Action>, e: EventId): nat
    requires IsRun(s, acts)
    decreases |acts|
  {
    if acts == [] then 0 else HandedOut(s, acts[0], e) + TotalHandedOut(Step(s, acts[0]), acts[1..], e)
  }

  /** Over any run, the units of an event are conserved: what is stored at the end and what
      was handed to tasks is what was stored at the start and what posts put in. */
  lemma {:induction false} UnitsConserved(s: State, acts: seq<Action>, e: EventId)
    requires IsRun(s, acts) && e < |s.stores|
    ensures |End(s, acts).stores| == |s.stores|
    ensures |Units(End(s, acts).stores[e])| + TotalHandedOut(s, acts, e)
         == |Units(s.stores[e])| + TotalAccepted(s, acts, e)
    decreases |acts|
  {
    if acts != [] {
      StepConserves(s, acts[0], e);
      UnitsConserved(Step(s, acts[0]), acts[1..], e);
    }
  }
}
