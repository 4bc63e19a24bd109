/** The rover's own protocol: the servo task watches the front, the navigation task acts on the
    messages it gets and keeps a log of moves, the history task looks at the log.  What the sensors
    see is arbitrary, and so is the order of the steps.  A step is one access to shared state,
    except that accesses of the navigation task with no wait between them are one step: of the
    three it has the highest priority, so neither of the others runs in between. */
module Rover {
  import opened Options

  // ---------------------------------------------------------------- headings

  datatype Direction = North | East | South | West

  datatype Move = Forward | Left | Right | Back

  /** newDir: the code's table of where one faces after a move. */
  function NewDir(facing: Direction, move: Move): Direction {
    match facing
    case North => (match move case Forward => North case Left => West case Right => East case Back => South)
    case West => (match move case Forward => West case Left => South case Right => North case Back => East)
    case East => (match move case Forward => East case Left => North case Right => South case Back => West)
    case South => (match move case Forward => South case Left => East case Right => West case Back => North)
  }

  /** Quarter turns clockwise from north. */
  function Quarter(d: Direction): int {
    match d case North => 0 case East => 1 case South => 2 case West => 3
  }

  datatype Entry = Entry(move: Move, dir: Direction)

  function Moves(log: seq<Entry>, m: Move): nat {
    if log == [] then 0 else Moves(log[..|log| - 1], m) + if log[|log| - 1].move == m then 1 else 0
  }

  /** The log starts with a step north, and every entry faces where its move leads from the one before. */
  predicate Faithful(log: seq<Entry>) {
    && log != [] && log[0] == Entry(Forward, North)
    && forall i :: 1 <= i < |log| ==> log[i].dir == NewDir(log[i - 1].dir, log[i].move)
  }

  /** Quarter turns clockwise that the moves make. */
  function Turns(log: seq<Entry>): int {
    Moves(log, Right) - Moves(log, Left) + 2 * Moves(log, Back)
  }

  lemma MovesOne(log: seq<Entry>, m: Move)
    requires |log| == 1
    ensures Moves(log, m) == if log[0].move == m then 1 else 0
  {
    assert log[..0] == [];
    assert Moves(log[..0], m) == 0;
  }

  /** After each entry the rover faces north turned right once for every right turn so far, left
      once for every left turn, and about for every reversal. */
  lemma {:induction false} HeadingExact(log: seq<Entry>)
    requires Faithful(log)
    ensures Quarter(log[|log| - 1].dir) == Turns(log) % 4
    decreases |log|
  {
    var n := |log| - 1;
    var front := log[..n];
    if n == 0 {
      MovesOne(log, Right);
      MovesOne(log, Left);
      MovesOne(log, Back);
    } else {
      HeadingExact(front);
      assert log[n].dir == NewDir(front[n - 1].dir, log[n].move);
      assert Turns(log) - Turns(front) ==
        match log[n].move case Forward => 0 case Right => 1 case Left => -1 case Back => 2;
    }
  }

  // ---------------------------------------------------------------- the tasks

  const QUEUE_SIZE := 10

  datatype Message = FrontBlocked | FrontClear

  datatype Servo = Watching | Testing(m: Message) | Claiming(m: Message) | Posting(m: Message)

  datatype Navigation =
    | Waiting
    | Stopping
    | Turning
    | Committing(way: Move)
    | Looking
    | Deciding
    | Going
    | Starting
    | Retrying
    | Reposting

  /** The heading newDir gave for the entry at `place`, from that of the entry before. */
  datatype Worked = Worked(place: nat, dir: Direction)

  /** Once its test has passed, the history task reads TRVL_INDEX twice more, in an order C leaves
      open: to work out a heading, and to find where it is to be stored. */
  datatype History = Idle | Storing(worked: Option<Worked>, target: Option<nat>) | Finishing

  /** `free` is SYSTEM_STATUS, `log` the entries of TRVL below TRVL_INDEX, and `moving` whether the
      entry at TRVL_INDEX is an unfinished move forward. */
  datatype State = State(
    free: bool,
    queue: seq<Message>,
    frontClear: bool,
    servo: Servo,
    navigation: Navigation,
    history: History,
    log: seq<Entry>,
    moving: bool)

  /** `seen` is what navigateFront concludes about the front, if anything. */
  datatype Action =
    | Watch(seen: Option<bool>)
    | Test
    | Claim
    | Post
    | Receive
    | Stop
    | Choose(way: Option<Move>)
    | Turn
    | Look(seen: Option<bool>)
    | Decide
    | Go
    | Start(moves: bool)
    | LookAgain(seen: Option<bool>)
    | Repost
    | GoalTest
    | GoalWork
    | GoalTarget
    | GoalStore
    | GoalBusy

  predicate Enabled(s: State, a: Action) {
    match a
    case Watch(_) => s.servo.Watching?
    case Test => s.servo.Testing?
    case Claim => s.servo.Claiming?
    case Post => s.servo.Posting?
    case Receive => s.navigation.Waiting? && s.queue != []
    case Stop => s.navigation.Stopping? && s.log != []
    case Choose(way) => s.navigation.Turning? && (way.Some? ==> !s.frontClear && way.value != Forward)
    case Turn => s.navigation.Committing? && s.log != []
    case Look(_) => s.navigation.Looking?
    case Decide => s.navigation.Deciding?
    case Go => s.navigation.Going?
    case Start(_) => s.navigation.Starting?
    case LookAgain(_) => s.navigation.Retrying?
    case Repost => s.navigation.Reposting?
    case GoalTest => s.history.Idle?
    case GoalWork => s.history.Storing? && s.history.worked.None? && s.log != []
    case GoalTarget => s.history.Storing? && s.history.target.None?
    case GoalStore => s.history.Storing? && s.history.worked.Some? && s.history.target.Some?
    case GoalBusy => s.history.Finishing?
  }

  function MessageOf(clear: bool): Message {
    if clear then FrontClear else FrontBlocked
  }

  /** navigateFront run by the navigation task itself. */
  function Looked(s: State, seen: Option<bool>): State {
    match seen
    case None => s
    case Some(clear) =>
      var t := s.(frontClear := clear);
      if s.free then t.(free := false, queue := s.queue + [MessageOf(clear)]) else t
  }

  function Commit(s: State, m: Move): State
    requires s.log != []
  {
    s.(log := s.log + [Entry(m, NewDir(s.log[|s.log| - 1].dir, m))], moving := false)
  }

  /** The heading the history task stores; an entry not committed yet gets its own heading then. */
  function Stored(log: seq<Entry>, at: nat, dir: Direction): seq<Entry> {
    if at < |log| then log[at := Entry(log[at].move, dir)] else log
  }

  function Step(s: State, a: Action): State
    requires Enabled(s, a)
  {
    match a
    case Watch(seen) =>
      (match seen
       case None => s
       case Some(clear) => s.(frontClear := clear, servo := Testing(MessageOf(clear))))
    case Test => s.(servo := if s.free then Claiming(s.servo.m) else Watching)
    case Claim => s.(free := false, servo := Posting(s.servo.m))
    case Post => s.(queue := s.queue + [s.servo.m], servo := Watching)
    case Receive =>
      s.(queue := s.queue[1..], navigation := if s.queue[0] == FrontBlocked then Stopping else Going)
    case Stop => (if s.moving then Commit(s, Forward) else s).(navigation := Turning)
    case Choose(way) => s.(navigation := if way.Some? then Committing(way.value) else Looking)
    case Turn => Commit(s, s.navigation.way).(navigation := Looking)
    case Look(seen) => Looked(s, seen).(navigation := Deciding)
    case Decide =>
      if s.frontClear then s.(free := true, navigation := Waiting)
      else s.(queue := s.queue + [FrontBlocked], navigation := Waiting)
    case Go => s.(moving := true, navigation := Starting)
    case Start(moves) => if moves then s.(free := true, navigation := Waiting) else s.(navigation := Retrying)
    case LookAgain(seen) => Looked(s, seen).(navigation := Reposting)
    case Repost => s.(queue := s.queue + [FrontClear], navigation := Waiting)
    case GoalTest => s.(history := if s.moving then Storing(None, None) else Finishing)
    case GoalWork =>
      s.(history := s.history.(worked := Some(Worked(|s.log|, NewDir(s.log[|s.log| - 1].dir, Forward)))))
    case GoalTarget => s.(history := s.history.(target := Some(|s.log|)))
    case GoalStore =>
      s.(log := Stored(s.log, s.history.target.value, s.history.worked.value.dir), history := Finishing)
    case GoalBusy => s.(free := false, history := Idle)
  }

  // ---------------------------------------------------------------- one message at a time

  /** Messages queued, being handled, or about to be posted. */
  function Afoot(s: State): nat {
    |s.queue| + (if s.navigation.Waiting? then 0 else 1) + (if s.servo.Claiming? || s.servo.Posting? then 1 else 0)
  }

  predicate OneMessage(s: State) {
    Afoot(s) <= 1 && (s.free ==> Afoot(s) == 0 || s.servo.Claiming?)
  }

  lemma StepKeepsOneMessage(s: State, a: Action)
    requires OneMessage(s) && Enabled(s, a)
    ensures OneMessage(Step(s, a))
  {
  }

  // ---------------------------------------------------------------- the log

  /** The store the history task is about to make comes too late: its target has been committed
      since, and the moves from the entry it worked for to its target turn the rover. */
  predicate Late(s: State) {
    && s.history.Storing? && s.history.worked.Some? && s.history.target.Some?
    && var place, target := s.history.worked.value.place, s.history.target.value;
      place <= |s.log| && target < |s.log| && (Turns(s.log[..target + 1]) - Turns(s.log[..place])) % 4 != 0
  }

  /** What the history task worked out comes from entries that have not changed since. */
  predicate HistoryOk(s: State) {
    && s.log != []
    && (s.history.Storing? ==>
          && (s.history.target.Some? ==> 1 <= s.history.target.value <= |s.log|)
          && (s.history.worked.Some? ==>
                var w := s.history.worked.value; 1 <= w.place <= |s.log| && w.dir == s.log[w.place - 1].dir))
  }

  lemma CommitKeepsHistory(s: State, m: Move)
    requires HistoryOk(s)
    ensures HistoryOk(Commit(s, m))
  {
  }

  lemma StepKeepsHistory(s: State, a: Action)
    requires HistoryOk(s) && Enabled(s, a)
    ensures HistoryOk(Step(s, a))
  {
    match a
    case Stop => CommitKeepsHistory(s, Forward);
    case Turn => CommitKeepsHistory(s, s.navigation.way);
    case _ =>
  }

  lemma QuarterInjective(d: Direction, e: Direction)
    ensures Quarter(d) == Quarter(e) <==> d == e
  {
  }

  /** Whether a store is late shows in the moves alone; that it is, exactly if it changes a heading. */
  lemma LateChanges(s: State)
    requires Faithful(s.log) && HistoryOk(s) && Enabled(s, GoalStore)
    ensures Late(s) <==> Step(s, GoalStore).log != s.log
  {
    var place, at, dir := s.history.worked.value.place, s.history.target.value, s.history.worked.value.dir;
    if at < |s.log| {
      HeadingExact(s.log[..place]);
      HeadingExact(s.log[..at + 1]);
      QuarterInjective(s.log[at].dir, dir);
      assert s.log[at].dir == dir <==> Step(s, GoalStore).log == s.log;
    }
  }

  lemma CommitFaithful(s: State, m: Move)
    requires Faithful(s.log)
    ensures Faithful(Commit(s, m).log)
  {
  }

  lemma StepKeepsLog(s: State, a: Action)
    requires Faithful(s.log) && HistoryOk(s) && Enabled(s, a) && !(a == GoalStore && Late(s))
    ensures Faithful(Step(s, a).log)
  {
    match a
    case Stop => if s.moving { CommitFaithful(s, Forward); }
    case Turn => CommitFaithful(s, s.navigation.way);
    case GoalStore => LateChanges(s);
    case _ =>
  }

  /** A committed entry does not face where its move leads, and no store yet to come is to it or
      the entry before. */
  predicate Broken(s: State, k: nat) {
    && 1 <= k < |s.log| && s.log[k].dir != NewDir(s.log[k - 1].dir, s.log[k].move)
    && (s.history.Storing? && s.history.target.Some? ==> s.history.target.value > k)
  }

  lemma LateBreaks(s: State)
    requires Faithful(s.log) && HistoryOk(s) && Enabled(s, GoalStore) && Late(s)
    ensures Broken(Step(s, GoalStore), s.history.target.value)
  {
    LateChanges(s);
  }

  lemma BrokenStays(s: State, a: Action, k: nat)
    requires HistoryOk(s) && Broken(s, k) && Enabled(s, a)
    ensures Broken(Step(s, a), k)
  {
  }

  // ---------------------------------------------------------------- runs

  ghost predicate IsRun(s: State, acts: seq<Action>)
    decreases |acts|, 0
  {
    acts == [] || (var n := |acts| - 1; IsRun(s, acts[..n]) && Enabled(End(s, acts[..n]), acts[n]))
  }

  ghost function End(s: State, acts: seq<Action>): State
    requires IsRun(s, acts)
    decreases |acts|, 1
  {
    if acts == [] then s else Step(End(s, acts[..|acts| - 1]), acts[|acts| - 1])
  }

  /** What main leaves. */
  predicate Started(s: State) {
    && s.free && s.queue == [] && s.servo == Watching && s.navigation == Waiting && s.history == Idle
    && s.log == [Entry(Forward, North)] && !s.moving && s.frontClear
  }

  /** However the tasks interleave, at most one message is queued, handled or about to be posted;
      none while the system is free; and so no post ever finds the queue full. */
  lemma {:induction false} AlwaysOneMessage(s: State, acts: seq<Action>)
    requires Started(s) && IsRun(s, acts)
    ensures OneMessage(End(s, acts))
    ensures var e := End(s, acts);
      && (e.free ==> e.queue == [] && e.navigation.Waiting? && !e.servo.Posting?)
      && (e.servo.Posting? || !e.navigation.Waiting? ==> |e.queue| < QUEUE_SIZE)
    decreases |acts|
  {
    if acts != [] {
      var n := |acts| - 1;
      AlwaysOneMessage(s, acts[..n]);
      StepKeepsOneMessage(End(s, acts[..n]), acts[n]);
    }
  }

  lemma {:induction false} RunKeepsHistory(s: State, acts: seq<Action>)
    requires HistoryOk(s) && IsRun(s, acts)
    ensures HistoryOk(End(s, acts))
    decreases |acts|
  {
    if acts != [] {
      var n := |acts| - 1;
      RunKeepsHistory(s, acts[..n]);
      StepKeepsHistory(End(s, acts[..n]), acts[n]);
    }
  }

  /** Some store of the run was late. */
  ghost predicate HadLateStore(s: State, acts: seq<Action>)
    requires IsRun(s, acts)
    decreases |acts|
  {
    acts != [] &&
    (var n := |acts| - 1;
     HadLateStore(s, acts[..n]) || (acts[n] == GoalStore && Late(End(s, acts[..n]))))
  }

  lemma {:induction false} RunKeepsLog(s: State, acts: seq<Action>)
    requires Started(s) && IsRun(s, acts)
    ensures HadLateStore(s, acts) ==> exists k :: Broken(End(s, acts), k)
    ensures !HadLateStore(s, acts) ==> Faithful(End(s, acts).log)
    decreases |acts|
  {
    if acts != [] {
      var n := |acts| - 1;
      var e := End(s, acts[..n]);
      RunKeepsLog(s, acts[..n]);
      RunKeepsHistory(s, acts[..n]);
      if HadLateStore(s, acts[..n]) {
        var k :| Broken(e, k);
        BrokenStays(e, acts[n], k);
        assert Broken(End(s, acts), k);
      } else if HadLateStore(s, acts) {
        LateBreaks(e);
        assert Broken(End(s, acts), e.history.target.value);
      } else {
        StepKeepsLog(e, acts[n]);
      }
    }
  }

  /** Over all interleavings the log is right if and only if no store of the history task was late;
      a wrong entry is never put right. */
  lemma LogRightUnlessLate(s: State, acts: seq<Action>)
    requires Started(s) && IsRun(s, acts)
    ensures Faithful(End(s, acts).log) <==> !HadLateStore(s, acts)
  {
    RunKeepsLog(s, acts);
  }

  /** While no store of the history task comes late, every entry ever committed faces as its moves say. */
  lemma AlwaysFaithful(s: State, acts: seq<Action>, k: nat)
    requires Started(s) && IsRun(s, acts) && k < |End(s, acts).log| && !HadLateStore(s, acts)
    ensures var log := End(s, acts).log[..k + 1];
      Quarter(log[k].dir) == Turns(log) % 4
  {
    RunKeepsLog(s, acts);
    HeadingExact(End(s, acts).log[..k + 1]);
  }

  /** If the index was the same both times it was read, a store is late exactly if what was committed
      there since is a turn. */
  lemma LateIfTurned(s: State)
    requires HistoryOk(s) && Enabled(s, GoalStore) && s.history.worked.value.place == s.history.target.value
    ensures var at := s.history.target.value;
      Late(s) <==> at < |s.log| && s.log[at].move != Forward
  {
    var at := s.history.target.value;
    if at < |s.log| {
      assert s.log[..at + 1][..at] == s.log[..at];
      assert Turns(s.log[..at + 1]) - Turns(s.log[..at]) ==
        match s.log[at].move case Forward => 0 case Right => 1 case Left => -1 case Back => 2;
    }
  }

  // ---------------------------------------------------------------- what messages mean

  /** Why a message was posted. */
  datatype Cause = Sighted(clear: bool) | StillBlocked | FailedStart

  /** What was last concluded about the front, by whichever task. */
  function Clear(acts: seq<Action>): bool {
    if acts == [] then true
    else
      var n := |acts| - 1;
      match acts[n]
      case Watch(Some(clear)) => clear
      case Look(Some(clear)) => clear
      case LookAgain(Some(clear)) => clear
      case _ => Clear(acts[..n])
  }

  /** What the servo task last concluded. */
  function Sighting(acts: seq<Action>): bool {
    if acts == [] then true
    else
      var n := |acts| - 1;
      match acts[n]
      case Watch(Some(clear)) => clear
      case _ => Sighting(acts[..n])
  }

  /** Why the last message of the run was posted. */
  function LastCause(acts: seq<Action>): Option<Cause> {
    if acts == [] then None
    else
      var n := |acts| - 1;
      match acts[n]
      case Post => Some(Sighted(Sighting(acts[..n])))
      case Decide => if Clear(acts[..n]) then LastCause(acts[..n]) else Some(StillBlocked)
      case Repost => Some(FailedStart)
      case _ => LastCause(acts[..n])
  }

  /** Whether the system is free: from the start, and after a turn that left the front clear or a start
      that moved; not once the servo task has claimed it or the history task has made it busy. */
  function Free(acts: seq<Action>): bool {
    if acts == [] then true
    else
      var n := |acts| - 1;
      match acts[n]
      case Decide => Clear(acts[..n])
      case Start(moves) => moves
      case Claim => false
      case GoalBusy => false
      case _ => Free(acts[..n])
  }

  predicate WantsStop(c: Cause) {
    c == Sighted(false) || c == StillBlocked
  }

  predicate HandlesBlocked(n: Navigation) {
    n.Stopping? || n.Turning? || n.Committing? || n.Looking? || n.Deciding?
  }

  predicate HandlesClear(n: Navigation) {
    n.Going? || n.Starting? || n.Retrying? || n.Reposting?
  }

  /** The state knows what was seen, and the message queued or handled is what it was posted for. */
  predicate Informed(s: State, clear: bool, sighting: bool, cause: Option<Cause>, free: bool) {
    && s.frontClear == clear && s.free == free
    && (match s.servo
        case Watching => true
        case Testing(m) => m == MessageOf(sighting)
        case Claiming(m) => m == MessageOf(sighting)
        case Posting(m) => m == MessageOf(sighting))
    && (s.queue != [] || !s.navigation.Waiting? ==> cause.Some?)
    && (s.queue != [] ==> s.queue[0] == if WantsStop(cause.value) then FrontBlocked else FrontClear)
    && (HandlesBlocked(s.navigation) ==> WantsStop(cause.value))
    && (HandlesClear(s.navigation) ==> !WantsStop(cause.value))
  }

  lemma {:induction false} RunInforms(s: State, acts: seq<Action>)
    requires Started(s) && IsRun(s, acts)
    ensures OneMessage(End(s, acts)) && Informed(End(s, acts), Clear(acts), Sighting(acts), LastCause(acts), Free(acts))
    decreases |acts|
  {
    if acts != [] {
      var n := |acts| - 1;
      RunInforms(s, acts[..n]);
      StepKeepsOneMessage(End(s, acts[..n]), acts[n]);
      StepInforms(End(s, acts[..n]), acts[n], Clear(acts[..n]), Sighting(acts[..n]), LastCause(acts[..n]),
                  Free(acts[..n]), Clear(acts), Sighting(acts), LastCause(acts), Free(acts));
    }
  }

  lemma StepInforms(s: State, a: Action, clear: bool, sighting: bool, cause: Option<Cause>, free: bool,
                    clear1: bool, sighting1: bool, cause1: Option<Cause>, free1: bool)
    requires OneMessage(s) && Informed(s, clear, sighting, cause, free) && Enabled(s, a)
    requires clear1 ==
      (match a case Watch(Some(c)) => c case Look(Some(c)) => c case LookAgain(Some(c)) => c case _ => clear)
    requires sighting1 == (match a case Watch(Some(c)) => c case _ => sighting)
    requires cause1 ==
      (match a
       case Post => Some(Sighted(sighting))
       case Decide => if clear then cause else Some(StillBlocked)
       case Repost => Some(FailedStart)
       case _ => cause)
    requires free1 ==
      (match a
       case Decide => clear
       case Start(moves) => moves
       case Claim => false
       case GoalBusy => false
       case _ => free)
    ensures Informed(Step(s, a), clear1, sighting1, cause1, free1)
  {
  }

  /** Over all interleavings, the message the navigation task takes makes it stop exactly if it was
      posted because the servo task saw the front blocked or because the front was still blocked
      after a turn, and go exactly if the front was seen clear or a start failed. */
  lemma ActsAsTold(s: State, acts: seq<Action>)
    requires Started(s) && IsRun(s, acts) && acts != [] && acts[|acts| - 1] == Receive
    ensures LastCause(acts).Some?
    ensures End(s, acts).navigation == if WantsStop(LastCause(acts).value) then Stopping else Going
  {
    RunInforms(s, acts[..|acts| - 1]);
  }

  /** In every reachable state SYSTEM_STATUS says what has happened. */
  lemma StatusExact(s: State, acts: seq<Action>)
    requires Started(s) && IsRun(s, acts)
    ensures End(s, acts).free == Free(acts)
  {
    RunInforms(s, acts);
  }

  /** A front still blocked after a turn makes the navigation task tell itself; a clear one leaves nothing
      to do. */
  lemma TellsItself(s: State, acts: seq<Action>)
    requires Started(s) && IsRun(s, acts) && acts != [] && acts[|acts| - 1] == Decide
    ensures End(s, acts).queue == if Clear(acts) then [] else [FrontBlocked]
  {
    RunInforms(s, acts[..|acts| - 1]);
  }

  /** While the history task has not stepped in, a system that is not free has a message queued, handled
      or about to be posted: it never stalls. */
  lemma {:induction false} NeverStalls(s: State, acts: seq<Action>)
    requires Started(s) && IsRun(s, acts) && GoalBusy !in acts
    ensures OneMessage(End(s, acts)) && (!End(s, acts).free ==> Afoot(End(s, acts)) == 1)
    decreases |acts|
  {
    if acts != [] {
      var n := |acts| - 1;
      assert acts[n] in acts;
      NeverStalls(s, acts[..n]);
      StepKeepsOneMessage(End(s, acts[..n]), acts[n]);
      StepNeverStalls(End(s, acts[..n]), acts[n]);
    }
  }

  lemma StepNeverStalls(s: State, a: Action)
    requires OneMessage(s) && Enabled(s, a) && a != GoalBusy && (!s.free ==> Afoot(s) == 1)
    ensures !Step(s, a).free ==> Afoot(Step(s, a)) == 1
  {
  }

  // ---------------------------------------------------------------- the log is the course

  /** The rover has set out and has not stopped or turned since. */
  predicate Driving(acts: seq<Action>) {
    acts != [] &&
    (var n := |acts| - 1;
     match acts[n] case Go => true case Stop => false case Turn => false case _ => Driving(acts[..n]))
  }

  /** The way last chosen. */
  function Chosen(acts: seq<Action>): Option<Move> {
    if acts == [] then None
    else
      var n := |acts| - 1;
      match acts[n] case Choose(Some(way)) => Some(way) case _ => Chosen(acts[..n])
  }

  /** The moves made: a way forward for each stretch that ended in a stop, and each turn. */
  function Course(acts: seq<Action>): seq<Move> {
    if acts == [] then []
    else
      var n := |acts| - 1;
      var front := acts[..n];
      match acts[n]
      case Stop => if Driving(front) then Course(front) + [Forward] else Course(front)
      case Turn => if Chosen(front).Some? then Course(front) + [Chosen(front).value] else Course(front)
      case _ => Course(front)
  }

  function MovesOf(log: seq<Entry>): seq<Move> {
    seq(|log|, i requires 0 <= i < |log| => log[i].move)
  }

  lemma MovesOfCommit(s: State, m: Move)
    requires s.log != []
    ensures MovesOf(Commit(s, m).log) == MovesOf(s.log) + [m]
  {
  }

  /** The log records the course, and the state knows what is still to be recorded. */
  predicate Recorded(s: State, course: seq<Move>, driving: bool, chosen: Option<Move>) {
    && s.log != [] && MovesOf(s.log) == [Forward] + course && s.moving == driving
    && (s.navigation.Committing? ==> chosen == Some(s.navigation.way))
  }

  lemma CommitRecords(s: State, course: seq<Move>, m: Move)
    requires s.log != [] && MovesOf(s.log) == [Forward] + course
    ensures MovesOf(Commit(s, m).log) == [Forward] + (course + [m])
  {
    MovesOfCommit(s, m);
    assert [Forward] + course + [m] == [Forward] + (course + [m]);
  }

  lemma StepRecords(s: State, a: Action, course: seq<Move>, driving: bool, chosen: Option<Move>)
    requires Recorded(s, course, driving, chosen) && Enabled(s, a)
    ensures Recorded(Step(s, a),
      match a
      case Stop => if driving then course + [Forward] else course
      case Turn => if chosen.Some? then course + [chosen.value] else course
      case _ => course,
      match a case Go => true case Stop => false case Turn => false case _ => driving,
      match a case Choose(Some(way)) => Some(way) case _ => chosen)
  {
    match a
    case Stop => if s.moving { CommitRecords(s, course, Forward); }
    case Turn => CommitRecords(s, course, s.navigation.way);
    case GoalStore => assert MovesOf(Step(s, GoalStore).log) == MovesOf(s.log);
    case _ => assert Step(s, a).log == s.log;
  }

  /** Over all interleavings the log records exactly the moves made, in order. */
  lemma {:induction false} LogIsCourse(s: State, acts: seq<Action>)
    requires Started(s) && IsRun(s, acts)
    ensures Recorded(End(s, acts), Course(acts), Driving(acts), Chosen(acts))
    decreases |acts|
  {
    if acts != [] {
      var n := |acts| - 1;
      LogIsCourse(s, acts[..n]);
      StepRecords(End(s, acts[..n]), acts[n], Course(acts[..n]), Driving(acts[..n]), Chosen(acts[..n]));
    } else {
      assert MovesOf(s.log) == [Forward] + Course(acts);
    }
  }

  // ---------------------------------------------------------------- a run that spoils the log

  /** Some run leads from s to t. */
  ghost predicate Reaches(s: State, t: State) {
    exists acts :: IsRun(s, acts) && End(s, acts) == t
  }

  lemma ReachesNext(s: State, t: State, a: Action)
    requires Reaches(s, t) && Enabled(t, a)
    ensures Reaches(s, Step(t, a))
  {
    var acts :| IsRun(s, acts) && End(s, acts) == t;
    assert (acts + [a])[..|acts|] == acts;
    assert IsRun(s, acts + [a]);
  }

  /** The servo task sees the front and tells the navigation task, which takes the message. */
  lemma Noticed(s: State, t: State, clear: bool)
    requires Reaches(s, t) && t.free && t.queue == [] && t.servo == Watching && t.navigation == Waiting
    ensures Reaches(s, t.(free := false, frontClear := clear, navigation := if clear then Going else Stopping))
  {
    var m := MessageOf(clear);
    ReachesNext(s, t, Watch(Some(clear)));
    var t1 := t.(frontClear := clear, servo := Testing(m));
    ReachesNext(s, t1, Test);
    ReachesNext(s, t1.(servo := Claiming(m)), Claim);
    var t2 := t1.(free := false, servo := Posting(m));
    ReachesNext(s, t2, Post);
    var t3 := t2.(queue := [m], servo := Watching);
    assert [] + [m] == [m];
    ReachesNext(s, t3, Receive);
    assert [m][1..] == [];
  }

  /** The rover sets out, and the test of the history task finds it moving. */
  lemma SetsOut(s: State)
    requires Started(s)
    ensures Reaches(s, s.(frontClear := true, moving := true, history := Storing(None, None)))
  {
    assert IsRun(s, []) && End(s, []) == s;
    Noticed(s, s, true);
    var t := s.(free := false, frontClear := true, navigation := Going);
    ReachesNext(s, t, Go);
    ReachesNext(s, t.(moving := true, navigation := Starting), Start(true));
    ReachesNext(s, s.(frontClear := true, moving := true), GoalTest);
  }

  /** It stops, so that the index the test was about is committed; only then does the history task
      read the index again. */
  lemma ReadsLate(s: State)
    requires Started(s)
    ensures var two := [Entry(Forward, North), Entry(Forward, North)];
      Reaches(s, s.(free := false, frontClear := false, log := two, navigation := Turning,
                    history := Storing(Some(Worked(2, North)), Some(2))))
  {
    var two := [Entry(Forward, North), Entry(Forward, North)];
    SetsOut(s);
    var t := s.(frontClear := true, moving := true, history := Storing(None, None));
    Noticed(s, t, false);
    var t1 := t.(free := false, frontClear := false, navigation := Stopping);
    ReachesNext(s, t1, Stop);
    assert t1.log + [Entry(Forward, North)] == two;
    var t2 := t1.(log := two, moving := false, navigation := Turning);
    ReachesNext(s, t2, GoalWork);
    ReachesNext(s, t2.(history := Storing(Some(Worked(2, North)), None)), GoalTarget);
  }

  /** The failure happens: a left turn is committed there before the store, which then turns its
      heading back to north. */
  lemma LateStoreHappens(s: State)
    requires Started(s)
    ensures exists t :: Reaches(s, t) && t.log == [Entry(Forward, North), Entry(Forward, North), Entry(Left, North)]
                        && !Faithful(t.log)
  {
    ReadsLate(s);
    var two := [Entry(Forward, North), Entry(Forward, North)];
    var t := s.(free := false, frontClear := false, log := two, navigation := Turning,
                history := Storing(Some(Worked(2, North)), Some(2)));
    ReachesNext(s, t, Choose(Some(Left)));
    var t1 := t.(navigation := Committing(Left));
    ReachesNext(s, t1, Turn);
    var t2 := t1.(log := two + [Entry(Left, West)], navigation := Looking);
    ReachesNext(s, t2, GoalStore);
    var t3 := t2.(log := two + [Entry(Left, North)], history := Finishing);
    assert Step(t2, GoalStore) == t3;
    assert NewDir(t3.log[1].dir, t3.log[2].move) == West;
  }

  // ---------------------------------------------------------------- the end of the course

  const COURSE_LENGTH: real := 20000.0

  datatype Leg = Leg(dir: Direction, count: real)

  /** How far north the first n legs lead. */
  function Progress(legs: seq<Leg>, n: nat): real
    requires n <= |legs|
  {
    if n == 0 then 0.0
    else
      var leg := legs[n - 1];
      Progress(legs, n - 1) + if leg.dir == North then leg.count else if leg.dir == South then -leg.count else 0.0
  }

  /** The first n legs lead to within a twentieth of the end of the course. */
  predicate ReachedBy(legs: seq<Leg>, n: nat)
    requires n <= |legs|
  {
    Progress(legs, n) >= COURSE_LENGTH - 0.05 * COURSE_LENGTH
  }

  /** evalHistory: whether the rover has ever been there.  `last` is the index of the unfinished
      leg, which counts too. */
  method EvalHistory(legs: seq<Leg>, last: nat) returns (reached: bool)
    requires last < |legs|
    ensures reached <==> exists n :: 1 <= n <= last + 1 && ReachedBy(legs, n)
  {
    reached := false;
    var dist := 0.0;
    for i := 0 to last + 1
      invariant dist == Progress(legs, i)
      invariant forall n :: 1 <= n <= i ==> !ReachedBy(legs, n)
    {
      if legs[i].dir == North {
        dist := dist + legs[i].count;
      } else if legs[i].dir == South {
        dist := dist - legs[i].count;
      }
      assert ReachedBy(legs, i + 1) <==> dist >= COURSE_LENGTH - 0.05 * COURSE_LENGTH;
      if dist >= COURSE_LENGTH - 0.05 * COURSE_LENGTH {
        return true;
      }
    }
  }
}
