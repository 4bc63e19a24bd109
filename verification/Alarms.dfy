/** The alarm clock of the HAL: deadlines kept in 32 bits with a rollover flag, against timers
    whose deadlines are unbounded. */
module Alarms {
  import opened Options
  import opened Words

  /** `results` is what the callback will return, call after call; 0 once it runs out. */
  datatype Alarm = Alarm(id: nat, time: word, rollover: bool, results: seq<word>)

  /** The same with nothing wrapped: it goes off at tick `due`. */
  datatype Timer = Timer(id: nat, due: nat, results: seq<word>)

  function NextResult(results: seq<word>): word {
    if results == [] then 0 else results[0]
  }

  function LaterResults(results: seq<word>): seq<word> {
    if results == [] then [] else results[1..]
  }

  // ---------------------------------------------------------------- one alarm

  /** What alt_alarm_start sets when the tick counter shows `current`. */
  function Armed(id: nat, nticks: word, results: seq<word>, current: word): Alarm {
    var time := (nticks + current + 1) % WORD;
    Alarm(id, time, time < current, results)
  }

  function Cleared(a: Alarm, nticks: word): Alarm {
    if a.rollover && nticks == 0 then a.(rollover := false) else a
  }

  /** Whether alt_tick calls the callback, with the counter just advanced to nticks. */
  predicate Fires(a: Alarm, nticks: word) {
    a.time <= nticks && !Cleared(a, nticks).rollover
  }

  /** What alt_tick leaves of the alarm: nothing if the callback returned 0. */
  function Survivor(a: Alarm, nticks: word): seq<Alarm> {
    if !Fires(a, nticks) then [Cleared(a, nticks)]
    else if NextResult(a.results) == 0 then []
    else
      var time := (a.time + NextResult(a.results)) % WORD;
      [Alarm(a.id, time, time < nticks, LaterResults(a.results))]
  }

  function TimerAfter(t: Timer, now: nat): seq<Timer> {
    if t.due != now then [t]
    else if NextResult(t.results) == 0 then []
    else [Timer(t.id, t.due + NextResult(t.results), LaterResults(t.results))]
  }

  /** The alarm stands for the timer after `now` ticks.  On the last tick before the counter
      wraps the flag does not matter: it is cleared before it is looked at. */
  predicate Tracks(a: Alarm, t: Timer, now: nat) {
    && a.id == t.id && a.results == t.results
    && now < t.due <= now + WORD && a.time == t.due % WORD
    && (a.rollover == (t.due / WORD > now / WORD) || now % WORD == WORD - 1)
  }

  lemma NextWord(now: nat)
    ensures (now + 1) % WORD == (if now % WORD == WORD - 1 then 0 else now % WORD + 1)
    ensures (now + 1) / WORD == now / WORD + (if now % WORD == WORD - 1 then 1 else 0)
  {
  }

  /** Two numbers less than a turn apart compare as their epochs and remainders do. */
  lemma Epochs(now: nat, due: nat)
    requires now <= due <= now + WORD - 1
    ensures due / WORD == now / WORD || due / WORD == now / WORD + 1
    ensures due / WORD == now / WORD <==> due % WORD >= now % WORD
    ensures due / WORD == now / WORD && due % WORD == now % WORD ==> due == now
  {
  }

  /** Starting an alarm sets the right deadline, except that the longest interval goes wrong
      unless the counter is just about to wrap. */
  lemma ArmedTracks(id: nat, nticks: word, results: seq<word>, now: nat)
    ensures Tracks(Armed(id, nticks, results, now % WORD), Timer(id, now + nticks + 1, results), now)
        <==> nticks != WORD - 1 || now % WORD == WORD - 1
  {
    var due := now + nticks + 1;
    assert (nticks + now % WORD + 1) % WORD == due % WORD;
    if nticks != WORD - 1 {
      Epochs(now, due);
    }
  }

  /** It then goes off at the very next tick, 2^32 - 1 ticks early. */
  lemma LongestFiresAtOnce(id: nat, results: seq<word>, now: nat)
    requires now % WORD != WORD - 1
    ensures Fires(Armed(id, WORD - 1, results, now % WORD), (now + 1) % WORD)
  {
    NextWord(now);
  }

  /** A tick treats the alarm as it would the timer: it goes off exactly at its deadline, and
      the next deadline is counted from that one. */
  lemma TickTracks(a: Alarm, t: Timer, now: nat)
    requires Tracks(a, t, now)
    ensures Fires(a, (now + 1) % WORD) <==> t.due == now + 1
    ensures var s, u := Survivor(a, (now + 1) % WORD), TimerAfter(t, now + 1);
      |s| == |u| && (s != [] ==> Tracks(s[0], u[0], now + 1))
  {
    NextWord(now);
    Epochs(now + 1, t.due);
    if t.due == now + 1 && NextResult(t.results) != 0 {
      var p := NextResult(t.results);
      assert (t.due % WORD + p) % WORD == (t.due + p) % WORD;
      Epochs(now + 1, t.due + p);
    }
  }

  // ---------------------------------------------------------------- the list

  /** What a tick leaves of the first k alarms of the list. */
  function AlarmsAfter(alarms: seq<Alarm>, nticks: word, k: nat): seq<Alarm>
    requires k <= |alarms|
  {
    if k == 0 then [] else AlarmsAfter(alarms, nticks, k - 1) + Survivor(alarms[k - 1], nticks)
  }

  /** Which of them go off, in list order. */
  function Firing(alarms: seq<Alarm>, nticks: word, k: nat): seq<nat>
    requires k <= |alarms|
  {
    if k == 0 then []
    else Firing(alarms, nticks, k - 1) + if Fires(alarms[k - 1], nticks) then [alarms[k - 1].id] else []
  }

  function TimersAfter(timers: seq<Timer>, now: nat, k: nat): seq<Timer>
    requires k <= |timers|
  {
    if k == 0 then [] else TimersAfter(timers, now, k - 1) + TimerAfter(timers[k - 1], now)
  }

  function Ringing(timers: seq<Timer>, now: nat, k: nat): seq<nat>
    requires k <= |timers|
  {
    if k == 0 then []
    else Ringing(timers, now, k - 1) + if timers[k - 1].due == now then [timers[k - 1].id] else []
  }

  predicate Tracked(alarms: seq<Alarm>, timers: seq<Timer>, now: nat) {
    |alarms| == |timers| && forall i :: 0 <= i < |alarms| ==> Tracks(alarms[i], timers[i], now)
  }

  /** A tick of the 32-bit list is a tick of the unbounded one. */
  lemma {:induction false} ListTracked(alarms: seq<Alarm>, timers: seq<Timer>, now: nat, k: nat)
    requires Tracked(alarms, timers, now) && k <= |alarms|
    ensures Tracked(AlarmsAfter(alarms, (now + 1) % WORD, k), TimersAfter(timers, now + 1, k), now + 1)
    ensures Firing(alarms, (now + 1) % WORD, k) == Ringing(timers, now + 1, k)
    decreases k
  {
    if k > 0 {
      ListTracked(alarms, timers, now, k - 1);
      TickTracks(alarms[k - 1], timers[k - 1], now);
    }
  }

  // ---------------------------------------------------------------- when a timer rings

  /** A timer set to `due` goes off at tick t: at due, or later by sums of the results its
      callback gives, until one of them is 0. */
  predicate RingsAt(due: nat, results: seq<word>, t: nat)
    decreases |results|
  {
    t == due || (results != [] && results[0] != 0 && RingsAt(due + results[0], results[1..], t))
  }

  lemma {:induction false} RingsLater(due: nat, results: seq<word>, t: nat)
    ensures RingsAt(due, results, t) ==> t >= due
    decreases |results|
  {
    if results != [] && results[0] != 0 { RingsLater(due + results[0], results[1..], t); }
  }

  /** After tick `now` a timer rings as it was to. */
  lemma TimerOn(t: Timer, now: nat, x: nat)
    requires t.due >= now && x > now
    ensures var s := TimerAfter(t, now);
      RingsAt(t.due, t.results, x) <==> (s != [] && RingsAt(s[0].due, s[0].results, x))
  {
  }

  ghost predicate SameFuture(t: Timer, u: Timer, now: nat) {
    forall x :: x > now ==> (RingsAt(t.due, t.results, x) <==> RingsAt(u.due, u.results, x))
  }

  /** The timers of t0's name are to do from now on what t0 was to do; with none left, t0 has
      nothing more to do. */
  ghost predicate Represent(ts: seq<Timer>, t0: Timer, now: nat) {
    && (forall t :: t in ts && t.id == t0.id ==> t.due > now && SameFuture(t, t0, now))
    && ((forall t :: t in ts ==> t.id != t0.id) ==> forall x :: x > now ==> !RingsAt(t0.due, t0.results, x))
  }

  lemma {:induction false} AfterMembers(ts: seq<Timer>, now: nat, k: nat, u: Timer)
    requires k <= |ts|
    ensures u in TimersAfter(ts, now, k) <==> exists i :: 0 <= i < k && TimerAfter(ts[i], now) == [u]
    decreases k
  {
    if k > 0 { AfterMembers(ts, now, k - 1, u); }
  }

  lemma {:induction false} RingingMembers(ts: seq<Timer>, now: nat, k: nat, id: nat)
    requires k <= |ts|
    ensures id in Ringing(ts, now, k) <==> exists i :: 0 <= i < k && ts[i].id == id && ts[i].due == now
    decreases k
  {
    if k > 0 { RingingMembers(ts, now, k - 1, id); }
  }

  lemma SurvivorFuture(t: Timer, u: Timer, t0: Timer, now: nat)
    requires t.due > now && SameFuture(t, t0, now) && TimerAfter(t, now + 1) == [u]
    ensures u.id == t.id && u.due > now + 1 && SameFuture(u, t0, now + 1)
  {
    forall x | x > now + 1 ensures RingsAt(u.due, u.results, x) <==> RingsAt(t0.due, t0.results, x) {
      TimerOn(t, now + 1, x);
    }
  }

  lemma LastRing(t: Timer, t0: Timer, now: nat)
    requires t.due > now && SameFuture(t, t0, now) && TimerAfter(t, now + 1) == []
    ensures forall x :: x > now + 1 ==> !RingsAt(t0.due, t0.results, x)
  {
    forall x | x > now + 1 ensures !RingsAt(t0.due, t0.results, x) {
      TimerOn(t, now + 1, x);
    }
  }

  lemma TickRepresents(ts: seq<Timer>, t0: Timer, now: nat)
    requires Represent(ts, t0, now)
    ensures Represent(TimersAfter(ts, now + 1, |ts|), t0, now + 1)
  {
    var us := TimersAfter(ts, now + 1, |ts|);
    forall u | u in us && u.id == t0.id ensures u.due > now + 1 && SameFuture(u, t0, now + 1) {
      AfterMembers(ts, now + 1, |ts|, u);
      var i :| 0 <= i < |ts| && TimerAfter(ts[i], now + 1) == [u];
      SurvivorFuture(ts[i], u, t0, now);
    }
    if forall u :: u in us ==> u.id != t0.id {
      forall t | t in ts && t.id == t0.id ensures TimerAfter(t, now + 1) == [] {
        if TimerAfter(t, now + 1) != [] {
          AfterMembers(ts, now + 1, |ts|, TimerAfter(t, now + 1)[0]);
        }
      }
      if t :| t in ts && t.id == t0.id {
        LastRing(t, t0, now);
      }
    }
  }

  lemma RingsNow(ts: seq<Timer>, t0: Timer, now: nat)
    requires Represent(ts, t0, now)
    ensures t0.id in Ringing(ts, now + 1, |ts|) <==> RingsAt(t0.due, t0.results, now + 1)
  {
    RingingMembers(ts, now + 1, |ts|, t0.id);
    if RingsAt(t0.due, t0.results, now + 1) {
      var t :| t in ts && t.id == t0.id;
      RingsLater(t.due, t.results, now + 1);
    }
  }

  // ---------------------------------------------------------------- runs

  datatype Event =
    | Starts(id: nat, interval: word, results: seq<word>)
    | Stops(i: nat)
    | Ticks

  /** The clock as it is, and with nothing wrapped. */
  datatype Clock = Clock(nticks: word, alarms: seq<Alarm>)

  datatype Ideal = Ideal(now: nat, timers: seq<Timer>)

  function Without<T>(s: seq<T>, i: nat): seq<T> {
    if i < |s| then s[..i] + s[i + 1..] else s
  }

  function Next(c: Clock, e: Event): Clock {
    match e
    case Starts(id, interval, results) => c.(alarms := [Armed(id, interval, results, c.nticks)] + c.alarms)
    case Stops(i) => c.(alarms := Without(c.alarms, i))
    case Ticks =>
      var nticks := (c.nticks + 1) % WORD;
      Clock(nticks, AlarmsAfter(c.alarms, nticks, |c.alarms|))
  }

  /** The alarms that go off, in order. */
  function Fired(c: Clock, e: Event): seq<nat> {
    if e.Ticks? then Firing(c.alarms, (c.nticks + 1) % WORD, |c.alarms|) else []
  }

  function NextIdeal(d: Ideal, e: Event): Ideal {
    match e
    case Starts(id, interval, results) => d.(timers := [Timer(id, d.now + interval + 1, results)] + d.timers)
    case Stops(i) => d.(timers := Without(d.timers, i))
    case Ticks => Ideal(d.now + 1, TimersAfter(d.timers, d.now + 1, |d.timers|))
  }

  function Rung(d: Ideal, e: Event): seq<nat> {
    if e.Ticks? then Ringing(d.timers, d.now + 1, |d.timers|) else []
  }

  function After(c: Clock, es: seq<Event>): Clock {
    if es == [] then c else Next(After(c, es[..|es| - 1]), es[|es| - 1])
  }

  function AfterIdeal(d: Ideal, es: seq<Event>): Ideal {
    if es == [] then d else NextIdeal(AfterIdeal(d, es[..|es| - 1]), es[|es| - 1])
  }

  predicate Agree(c: Clock, d: Ideal) {
    c.nticks == d.now % WORD && Tracked(c.alarms, d.timers, d.now)
  }

  /** Not the longest interval, unless the counter is about to wrap. */
  predicate Armable(now: nat, e: Event) {
    e.Starts? ==> e.interval != WORD - 1 || now % WORD == WORD - 1
  }

  /** Every step goes off alike, and the two go on agreeing exactly if it does not start an alarm
      with the longest interval at the wrong time. */
  lemma StepAgrees(c: Clock, d: Ideal, e: Event)
    requires Agree(c, d)
    ensures Fired(c, e) == Rung(d, e)
    ensures Agree(Next(c, e), NextIdeal(d, e)) <==> Armable(d.now, e)
  {
    match e
    case Starts(id, interval, results) =>
      ArmedTracks(id, interval, results, d.now);
      StartTracked(c.alarms, d.timers, d.now, Armed(id, interval, results, c.nticks),
                   Timer(id, d.now + interval + 1, results));
    case Stops(i) => WithoutTracked(c.alarms, d.timers, d.now, i);
    case Ticks => TickAgrees(c, d);
  }

  lemma StartTracked(alarms: seq<Alarm>, timers: seq<Timer>, now: nat, a: Alarm, t: Timer)
    requires Tracked(alarms, timers, now)
    ensures Tracked([a] + alarms, [t] + timers, now) <==> Tracks(a, t, now)
  {
    var all, alls := [a] + alarms, [t] + timers;
    assert forall j :: 0 < j < |all| ==> all[j] == alarms[j - 1] && alls[j] == timers[j - 1];
    assert Tracked(all, alls, now) ==> Tracks(all[0], alls[0], now);
  }

  lemma TickAgrees(c: Clock, d: Ideal)
    requires Agree(c, d)
    ensures Fired(c, Ticks) == Rung(d, Ticks) && Agree(Next(c, Ticks), NextIdeal(d, Ticks))
  {
    NextWord(d.now);
    ListTracked(c.alarms, d.timers, d.now, |c.alarms|);
  }

  lemma WithoutTracked(alarms: seq<Alarm>, timers: seq<Timer>, now: nat, i: nat)
    requires Tracked(alarms, timers, now)
    ensures Tracked(Without(alarms, i), Without(timers, i), now)
  {
  }

  predicate AllArmable(d: Ideal, es: seq<Event>) {
    es == [] || (var front := es[..|es| - 1]; AllArmable(d, front) && Armable(AfterIdeal(d, front).now, es[|es| - 1]))
  }

  /** Over any run of starts, stops and ticks the 32-bit clock does what the unbounded one does. */
  lemma {:induction false} RunAgrees(c: Clock, d: Ideal, es: seq<Event>)
    requires Agree(c, d) && AllArmable(d, es)
    ensures Agree(After(c, es), AfterIdeal(d, es))
    decreases |es|
  {
    if es != [] {
      var front := es[..|es| - 1];
      RunAgrees(c, d, front);
      StepAgrees(After(c, front), AfterIdeal(d, front), es[|es| - 1]);
    }
  }

  /** The step neither starts nor stops an alarm of that name. */
  predicate Spares(d: Ideal, e: Event, id: nat) {
    && (e.Starts? ==> e.id != id)
    && (e.Stops? && e.i < |d.timers| ==> d.timers[e.i].id != id)
  }

  predicate AllSpare(d: Ideal, es: seq<Event>, id: nat) {
    es == [] || (var front := es[..|es| - 1]; AllSpare(d, front, id) && Spares(AfterIdeal(d, front), es[|es| - 1], id))
  }

  lemma WithoutMembers(ts: seq<Timer>, i: nat, t: Timer)
    requires i < |ts| && ts[i].id != t.id
    ensures t in Without(ts, i) <==> t in ts
  {
    if t in ts {
      var j :| 0 <= j < |ts| && ts[j] == t;
      assert Without(ts, i)[if j < i then j else j - 1] == t;
    }
  }

  lemma StopRepresents(ts: seq<Timer>, t0: Timer, now: nat, i: nat)
    requires Represent(ts, t0, now) && (i < |ts| ==> ts[i].id != t0.id)
    ensures Represent(Without(ts, i), t0, now)
  {
    if i < |ts| {
      forall t: Timer | t.id == t0.id ensures t in Without(ts, i) <==> t in ts {
        WithoutMembers(ts, i, t);
      }
    }
  }

  lemma StepRepresents(d: Ideal, e: Event, t0: Timer)
    requires Represent(d.timers, t0, d.now) && Spares(d, e, t0.id)
    ensures Represent(NextIdeal(d, e).timers, t0, NextIdeal(d, e).now)
  {
    match e
    case Starts(id, interval, results) =>
      var t := Timer(id, d.now + interval + 1, results);
      assert forall u :: u in [t] + d.timers <==> u == t || u in d.timers;
    case Stops(i) => StopRepresents(d.timers, t0, d.now, i);
    case Ticks => TickRepresents(d.timers, t0, d.now);
  }

  lemma {:induction false} RunRepresents(d: Ideal, es: seq<Event>, t0: Timer)
    requires Represent(d.timers, t0, d.now) && AllSpare(d, es, t0.id)
    ensures Represent(AfterIdeal(d, es).timers, t0, AfterIdeal(d, es).now)
    decreases |es|
  {
    if es != [] {
      var front := es[..|es| - 1];
      RunRepresents(d, front, t0);
      StepRepresents(AfterIdeal(d, front), es[|es| - 1], t0);
    }
  }

  lemma StartRepresents(d: Ideal, e: Event)
    requires e.Starts? && forall t :: t in d.timers ==> t.id != e.id
    ensures Represent(NextIdeal(d, e).timers, Timer(e.id, d.now + e.interval + 1, e.results), d.now)
  {
    var t := Timer(e.id, d.now + e.interval + 1, e.results);
    assert forall u :: u in [t] + d.timers <==> u == t || u in d.timers;
  }

  /** An alarm is started, and then others are started and stopped and ticks come, in any order.
      A tick calls its callback exactly if that tick is its deadline, or later than that by a sum
      of its callback's results: neither early nor late, across any number of wraps of the
      counter, and without drift. */
  lemma FiresExactly(c: Clock, d: Ideal, e: Event, es: seq<Event>)
    requires Agree(c, d) && e.Starts? && Armable(d.now, e) && forall t :: t in d.timers ==> t.id != e.id
    requires AllArmable(NextIdeal(d, e), es) && AllSpare(NextIdeal(d, e), es, e.id)
    ensures e.id in Fired(After(Next(c, e), es), Ticks) <==>
      RingsAt(d.now + e.interval + 1, e.results, AfterIdeal(NextIdeal(d, e), es).now + 1)
  {
    StepAgrees(c, d, e);
    StartRepresents(d, e);
    FiresAs(Next(c, e), NextIdeal(d, e), Timer(e.id, d.now + e.interval + 1, e.results), es);
  }

  lemma FiresAs(c: Clock, d: Ideal, t0: Timer, es: seq<Event>)
    requires Agree(c, d) && AllArmable(d, es) && Represent(d.timers, t0, d.now) && AllSpare(d, es, t0.id)
    ensures t0.id in Fired(After(c, es), Ticks) <==> RingsAt(t0.due, t0.results, AfterIdeal(d, es).now + 1)
  {
    RunAgrees(c, d, es);
    RunRepresents(d, es, t0);
    TickFires(After(c, es), AfterIdeal(d, es), t0);
  }

  lemma TickFires(c: Clock, d: Ideal, t0: Timer)
    requires Agree(c, d) && Represent(d.timers, t0, d.now)
    ensures t0.id in Fired(c, Ticks) <==> RingsAt(t0.due, t0.results, d.now + 1)
  {
    TickAgrees(c, d);
    RingsNow(d.timers, t0, d.now);
  }

  // ---------------------------------------------------------------- stopping

  /** No alarm of that name is set. */
  predicate Absent(ts: seq<Timer>, id: nat) {
    forall i :: 0 <= i < |ts| ==> ts[i].id != id
  }

  predicate NotStarted(e: Event, id: nat) {
    e.Starts? ==> e.id != id
  }

  lemma AbsentStays(d: Ideal, e: Event, id: nat)
    requires Absent(d.timers, id) && NotStarted(e, id)
    ensures Absent(NextIdeal(d, e).timers, id) && id !in Rung(d, e)
  {
    match e
    case Starts(_, interval, results) =>
      var t := Timer(e.id, d.now + interval + 1, results);
      assert forall j :: 0 < j < |[t] + d.timers| ==> ([t] + d.timers)[j] == d.timers[j - 1];
    case Stops(i) =>
    case Ticks =>
      AbsentAfter(d.timers, d.now + 1, |d.timers|, id);
      RingingMembers(d.timers, d.now + 1, |d.timers|, id);
  }

  lemma {:induction false} AbsentAfter(ts: seq<Timer>, now: nat, k: nat, id: nat)
    requires k <= |ts| && Absent(ts, id)
    ensures Absent(TimersAfter(ts, now, k), id)
    decreases k
  {
    if k > 0 { AbsentAfter(ts, now, k - 1, id); }
  }

  lemma {:induction false} RunAbsent(d: Ideal, es: seq<Event>, id: nat)
    requires Absent(d.timers, id) && forall k :: 0 <= k < |es| ==> NotStarted(es[k], id)
    ensures Absent(AfterIdeal(d, es).timers, id)
    decreases |es|
  {
    if es != [] {
      var front := es[..|es| - 1];
      RunAbsent(d, front, id);
      AbsentStays(AfterIdeal(d, front), es[|es| - 1], id);
    }
  }

  /** An alarm that has been stopped never goes off again, whatever else is started, stopped and ticked,
      until it is started again. */
  lemma StopSilences(c: Clock, d: Ideal, i: nat, es: seq<Event>)
    requires Agree(c, d) && i < |d.timers|
    requires forall j :: 0 <= j < |d.timers| && j != i ==> d.timers[j].id != d.timers[i].id
    requires AllArmable(NextIdeal(d, Stops(i)), es)
    requires forall k :: 0 <= k < |es| ==> NotStarted(es[k], d.timers[i].id)
    ensures d.timers[i].id !in Fired(After(Next(c, Stops(i)), es), Ticks)
  {
    var id, d1 := d.timers[i].id, NextIdeal(d, Stops(i));
    StepAgrees(c, d, Stops(i));
    RunAgrees(Next(c, Stops(i)), d1, es);
    RunAbsent(d1, es, id);
    AbsentStays(AfterIdeal(d1, es), Ticks, id);
    StepAgrees(After(Next(c, Stops(i)), es), AfterIdeal(d1, es), Ticks);
  }

  // ---------------------------------------------------------------- the alarm clock

  const ENOTSUP := 95
  const EINVAL := 22

  class AlarmClock {
    const ticksPerSecond: nat
    var nticks: word
    var alarms: seq<Alarm>

    function Now(): Clock
      reads this
    {
      Clock(nticks, alarms)
    }

    constructor (ticksPerSecond: nat)
      ensures this.ticksPerSecond == ticksPerSecond && Now() == Clock(0, [])
    {
      this.ticksPerSecond := ticksPerSecond;
      nticks, alarms := 0, [];
    }

    /** alt_alarm_start: the alarm, unless the pointer is null, goes to the head of the list. */
    method Start(alarm: Option<nat>, interval: word, results: seq<word>) returns (code: int)
      modifies `alarms
      ensures code == if ticksPerSecond == 0 then -ENOTSUP else if alarm.Some? then 0 else -EINVAL
      ensures Now() == if code == 0 then Next(old(Now()), Starts(alarm.value, interval, results)) else old(Now())
    {
      if ticksPerSecond == 0 {
        return -ENOTSUP;
      }
      if alarm == None {
        return -EINVAL;
      }
      var a := Alarm(alarm.value, (interval + nticks + 1) % WORD, false, results);
      if a.time < nticks {
        a := a.(rollover := true);
      }
      alarms := [a] + alarms;
      code := 0;
    }

    /** alt_alarm_stop: the alarm at that place in the list is taken out. */
    method Stop(i: nat)
      requires i < |alarms|
      modifies `alarms
      ensures Now() == Next(old(Now()), Stops(i))
    {
      alarms := alarms[..i] + alarms[i + 1..];
    }

    /** The body of the loop of alt_tick for the i-th alarm. */
    method Visit(i: nat) returns (fires: bool, leaves: bool)
      requires i < |alarms|
      modifies `alarms
      ensures fires == Fires(old(alarms[i]), nticks)
      ensures leaves == (Survivor(old(alarms[i]), nticks) == [])
      ensures leaves ==> alarms == Without(old(alarms), i)
      ensures !leaves ==> alarms == old(alarms)[i := Survivor(old(alarms[i]), nticks)[0]]
    {
      var a := alarms[i];
      leaves := false;
      if a.rollover && nticks == 0 {
        a := a.(rollover := false);
      }
      fires := a.time <= nticks && !a.rollover;
      if fires {
        var next := NextResult(a.results);
        if next == 0 {
          Stop(i);
          leaves := true;
          return;
        }
        a := a.(time := (a.time + next) % WORD, results := LaterResults(a.results));
        if a.time < nticks {
          a := a.(rollover := true);
        }
      }
      alarms := alarms[i := a];
    }

    /** alt_tick: one pass over the list, in which alarms go off, are set again or leave. */
    method Tick() returns (fired: seq<nat>)
      modifies this
      ensures Now() == Next(old(Now()), Ticks) && fired == Fired(old(Now()), Ticks)
    {
      nticks := (nticks + 1) % WORD;
      fired := Pass();
    }

    /** The loop over the list. */
    method Pass() returns (fired: seq<nat>)
      modifies `alarms
      ensures alarms == AlarmsAfter(old(alarms), nticks, |old(alarms)|)
      ensures fired == Firing(old(alarms), nticks, |old(alarms)|)
    {
      fired := [];
      var i: nat := 0;
      ghost var was, k: nat := alarms, 0;
      while i < |alarms|
        invariant Ticking(was, nticks, k, alarms, i)
        invariant fired == Firing(was, nticks, k)
        decreases |alarms| - i
      {
        i, fired := Turn(was, k, i, fired);
        k := k + 1;
      }
      assert alarms[..i] == alarms == AlarmsAfter(was, nticks, |was|);
    }

    /** One turn of the loop. */
    method Turn(ghost was: seq<Alarm>, ghost k: nat, i: nat, before: seq<nat>) returns (next: nat, fired: seq<nat>)
      requires i < |alarms| && Ticking(was, nticks, k, alarms, i) && before == Firing(was, nticks, k)
      modifies `alarms
      ensures Ticking(was, nticks, k + 1, alarms, next) && fired == Firing(was, nticks, k + 1)
      ensures |alarms| - next < old(|alarms|) - i
    {
      ghost var alarms0 := alarms;
      var id := alarms[i].id;
      var fires, leaves := Visit(i);
      fired := if fires then before + [id] else before;
      next := if leaves then i else i + 1;
      TickingOn(was, nticks, k, alarms0, i, alarms);
    }
  }

  /** How far a pass over the list has come: k of the alarms it began with have been visited,
      and the i that are left of them stand first. */
  ghost predicate Ticking(was: seq<Alarm>, nticks: word, k: nat, alarms: seq<Alarm>, i: nat) {
    && i <= |alarms| && k <= |was| && |alarms| - i == |was| - k
    && alarms[..i] == AlarmsAfter(was, nticks, k)
    && alarms[i..] == was[k..]
  }

  lemma TickingLeaves(was: seq<Alarm>, nticks: word, k: nat, alarms: seq<Alarm>, i: nat, after: seq<Alarm>)
    requires Ticking(was, nticks, k, alarms, i) && i < |alarms|
    requires Survivor(alarms[i], nticks) == [] && after == Without(alarms, i)
    ensures Ticking(was, nticks, k + 1, after, i)
  {
    assert after[..i] == alarms[..i];
    assert alarms[..i] + [] == alarms[..i];
    assert alarms[i] == alarms[i..][0] == was[k];
    assert after[i..] == alarms[i..][1..] == was[k..][1..] == was[k + 1..];
  }

  lemma TickingStays(was: seq<Alarm>, nticks: word, k: nat, alarms: seq<Alarm>, i: nat, after: seq<Alarm>)
    requires Ticking(was, nticks, k, alarms, i) && i < |alarms|
    requires Survivor(alarms[i], nticks) != [] && after == alarms[i := Survivor(alarms[i], nticks)[0]]
    ensures Ticking(was, nticks, k + 1, after, i + 1)
  {
    assert alarms[i] == alarms[i..][0] == was[k];
    assert after[..i + 1] == alarms[..i] + Survivor(alarms[i], nticks);
    assert after[i + 1..] == alarms[i..][1..] == was[k..][1..] == was[k + 1..];
  }

  lemma TickingOn(was: seq<Alarm>, nticks: word, k: nat, alarms: seq<Alarm>, i: nat, after: seq<Alarm>)
    requires Ticking(was, nticks, k, alarms, i) && i < |alarms|
    requires var s := Survivor(alarms[i], nticks); after == if s == [] then Without(alarms, i) else alarms[i := s[0]]
    ensures k < |was| && alarms[i] == was[k]
    ensures Ticking(was, nticks, k + 1, after, if Survivor(alarms[i], nticks) == [] then i else i + 1)
  {
    assert alarms[i] == alarms[i..][0] == was[k..][0] == was[k];
    if Survivor(alarms[i], nticks) == [] {
      TickingLeaves(was, nticks, k, alarms, i, after);
    } else {
      TickingStays(was, nticks, k, alarms, i, after);
    }
  }
}
