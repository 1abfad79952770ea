/** A timer against its worker thread (aio/timer.c, aio/fsm.c, aio/worker_posix.inc).

    The owner starts and stops the timer under the context lock; the worker takes the tasks
    of its queue in FIFO batches, and fires the timer, outside that lock, and then feeds what
    it took to the timer under it.  Each such piece is one step; those that read the clock carry
    the instant.  A failed assertion or nn_fsm_bad_* call is recorded in `aborted`. */
module Timer {
  import opened Util
  import opened Wire

  datatype Fsm = FsmIdle | FsmActive | FsmStopping

  datatype State = Idle | Active | Stopping

  datatype Task = StartTask | StopTask

  /** What the worker has taken and not yet fed to the timer. */
  datatype Input = Execute(task: Task) | Timeout

  /** Events raised to the owner: timer->done and fsm->stopped. */
  datatype Event = TimedOut | Stopped

  /** What the owner asked for and what it was told, in order, and when the worker armed the
      timer and found it expired. */
  datatype Mark = Started(ms: int) | Armed(now: uint64) | Expired(now: uint64) | StopAsked | Told(event: Event)

  datatype Core = Core(
    fsm: Fsm,
    state: State,
    timeout: int,
    tasks: seq<Task>,
    batch: seq<Task>,
    holding: Option<Input>,
    due: Option<uint64>,
    events: seq<Event>,
    log: seq<Mark>,
    aborted: bool)

  /** nn_timer_init. */
  const INIT := Core(FsmIdle, Idle, -1, [], [], None, None, [], [], false)

  function Abort(t: Core): Core { t.(aborted := true) }

  /** nn_worker_execute: nn_queue_push insists that the task is in no queue. */
  function Execute1(t: Core, task: Task): Core {
    if task in t.tasks || task in t.batch then Abort(t) else t.(tasks := t.tasks + [task])
  }

  /** nn_fsm_raise, on one of the two event structures. */
  function Raise(t: Core, e: Event): Core {
    if e in t.events then Abort(t) else t.(events := t.events + [e], log := t.log + [Told(e)])
  }

  predicate IsIdle(t: Core) { t.fsm == FsmIdle && Stopped !in t.events }

  /** nn_timer_start. */
  function Start(t: Core, timeout: int): Core {
    if timeout < 0 || !IsIdle(t) || t.state != Idle then Abort(t)
    else
      Execute1(t.(timeout := timeout, state := Active, log := t.log + [Started(timeout)]), StartTask)
      .(fsm := FsmActive)
  }

  /** nn_timer_stop. */
  function Stop(t: Core): Core {
    if t.fsm != FsmActive then t
    else Execute1(t.(fsm := FsmStopping, state := Stopping, log := t.log + [StopAsked]), StopTask)
  }

  /** nn_timer_handler on what the worker feeds, at instant `now`. */
  function Handler(t: Core, input: Input, now: uint64): Core {
    if t.state != Active then Abort(t)
    else match input
      case Execute(StartTask) =>
        if t.timeout < 0 || t.due.Some? then Abort(t)
        else t.(due := Some((now + t.timeout) % TWO_64), timeout := -1, log := t.log + [Armed(now)])
      case Execute(StopTask) => Abort(t)
      case Timeout => if t.timeout != -1 then Abort(t) else Raise(t, TimedOut)
  }

  /** nn_timer_shutdown on what the worker feeds. */
  function Shutdown(t: Core, input: Input): Core {
    if t.state != Stopping then Abort(t)
    else if input != Execute(StopTask) then t
    else Raise(t.(due := None, state := Idle), Stopped).(fsm := FsmIdle)
  }

  /** nn_fsm_feed. */
  function Feed(t: Core, input: Input, now: uint64): Core {
    if t.fsm != FsmStopping then Handler(t, input, now) else Shutdown(t, input)
  }

  /** The owner's calls, the worker's pieces, and the context handing an event to the owner. */
  datatype Step =
    | DoStart(timeout: int)
    | DoStop
    | Grab
    | Pop
    | Fire(now: uint64)
    | FeedIt(now: uint64)
    | Deliver

  /** When a step can be taken.  A start is the owner's to make only on an idle timer with a
      timeout that is not negative; the worker fires timers only between batches. */
  predicate Enabled(t: Core, st: Step) {
    match st
    case DoStart(timeout) => timeout >= 0 && IsIdle(t)
    case DoStop => true
    case Grab => t.batch == [] && t.holding == None
    case Pop => t.batch != [] && t.holding == None
    case Fire(now) => t.due.Some? && t.due.value <= now && t.batch == [] && t.holding == None
    case FeedIt(_) => t.holding.Some?
    case Deliver => t.events != []
  }

  function Apply(t: Core, st: Step): Core
    requires Enabled(t, st)
  {
    match st
    case DoStart(timeout) => Start(t, timeout)
    case DoStop => Stop(t)
    case Grab => t.(batch := t.tasks, tasks := [])
    case Pop => t.(batch := t.batch[1..], holding := Some(Execute(t.batch[0])))
    case Fire(now) => t.(due := None, holding := Some(Timeout), log := t.log + [Expired(now)])
    case FeedIt(now) => Feed(t.(holding := None), t.holding.value, now)
    case Deliver => t.(events := t.events[1..])
  }

  predicate ValidRun(t: Core, steps: seq<Step>)
    decreases |steps|
  {
    steps == [] || (Enabled(t, steps[0]) && ValidRun(Apply(t, steps[0]), steps[1..]))
  }

  function Run(t: Core, steps: seq<Step>): Core
    requires ValidRun(t, steps)
    decreases |steps|
  {
    if steps == [] then t else Run(Apply(t, steps[0]), steps[1..])
  }

  /** The protocol an owner sees: a start; at most one timeout, and that only after the timer was
      armed and found expired no earlier than the time asked for after that; a stop request, the
      stop. */
  datatype Phase = Quiet | Waiting(ms: int) | Due(at: uint64) | Ringing | Fired | Asked | Wrong

  function After(p: Phase, m: Mark): Phase {
    match (p, m)
    case (Quiet, Started(ms)) => Waiting(ms)
    case (Waiting(ms), Armed(now)) => Due((now + ms) % TWO_64)
    case (Due(at), Expired(now)) => if at <= now then Ringing else Wrong
    case (Ringing, Told(TimedOut)) => Fired
    case (_, StopAsked) => if p == Quiet || p == Asked || p == Wrong then Wrong else Asked
    case (Asked, Expired(_)) => Asked
    case (Asked, Told(Stopped)) => Quiet
    case _ => Wrong
  }

  function Scan(log: seq<Mark>): Phase {
    if log == [] then Quiet else After(Scan(log[..|log| - 1]), log[|log| - 1])
  }

  lemma ScanOne(log: seq<Mark>, m: Mark)
    ensures Scan(log + [m]) == After(Scan(log), m)
  {
    assert (log + [m])[..|log|] == log;
  }

  /** The tasks on their way to the timer, the held one first. */
  function Pending(t: Core): seq<Task> {
    (if t.holding.Some? && t.holding.value.Execute? then [t.holding.value.task] else []) + t.batch + t.tasks
  }

  ghost predicate Invariant(t: Core) {
    && !t.aborted
    && (t.events == [] || t.events == [TimedOut] || t.events == [Stopped] || t.events == [TimedOut, Stopped])
    && match t.fsm
       case FsmIdle => InIdle(t)
       case FsmActive => InActive(t)
       case FsmStopping => InStopping(t)
  }

  /** Idle: no task queued or held, and the handle not in the timer set. */
  ghost predicate InIdle(t: Core) {
    && t.state == Idle && Scan(t.log) == Quiet
    && Pending(t) == [] && t.holding == None && t.due == None
    && (TimedOut in t.events ==> Stopped in t.events)
  }

  ghost predicate InActive(t: Core) {
    && t.state == Active && Stopped !in t.events
    && (if t.timeout >= 0 then
          Pending(t) == [StartTask] && t.due == None && t.holding != Some(Timeout)
          && Scan(t.log) == Waiting(t.timeout) && t.events == []
        else
          t.timeout == -1 && Pending(t) == []
          && !(t.due.Some? && t.holding == Some(Timeout))
          && (t.due.Some? || t.holding == Some(Timeout) ==> t.events == [])
          && Scan(t.log) ==
             if t.due.Some? then Due(t.due.value) else if t.holding == Some(Timeout) then Ringing else Fired)
  }

  ghost predicate InStopping(t: Core) {
    && t.state == Stopping && Stopped !in t.events && Scan(t.log) == Asked
    && (Pending(t) == [StopTask] ||
        (Pending(t) == [StartTask, StopTask] && t.due == None && t.holding != Some(Timeout)))
  }

  /** Moving tasks towards the timer changes nothing in what is pending. */
  lemma MovePending(t: Core, st: Step)
    requires Enabled(t, st) && (st.Grab? || st.Pop?)
    ensures Pending(Apply(t, st)) == Pending(t)
  {
  }

  lemma FeedPending(t: Core)
    requires t.holding.Some?
    ensures Pending(t.(holding := None)) == if t.holding.value.Execute? then Pending(t)[1..] else Pending(t)
    ensures t.holding.value.Execute? ==> Pending(t)[0] == t.holding.value.task
  {
    assert t.holding.value.Execute? ==> Pending(t) == [t.holding.value.task] + (t.batch + t.tasks);
  }

  lemma PushPending(t: Core, task: Task)
    requires task !in Pending(t)
    ensures Execute1(t, task) == t.(tasks := t.tasks + [task])
    ensures Pending(Execute1(t, task)) == Pending(t) + [task]
  {
    assert forall x :: x in t.batch || x in t.tasks ==> x in Pending(t);
    assert (Pending(t) + [task]) == Pending(t.(tasks := t.tasks + [task]));
  }

  lemma WorkerKeeps(t: Core, st: Step)
    requires Invariant(t) && Enabled(t, st) && (st.Grab? || st.Pop? || st.Fire? || st.Deliver?)
    ensures Invariant(Apply(t, st))
  {
    hide Scan;
    if st.Grab? || st.Pop? { MovePending(t, st); }
    if st.Fire? { ScanOne(t.log, Expired(st.now)); }
    if st.Pop? && t.fsm == FsmStopping {
      assert Pending(t) == t.batch + t.tasks;
      assert t.batch == [t.batch[0]] + t.batch[1..];
    }
  }

  lemma FeedKeeps(t: Core, now: uint64)
    requires Invariant(t) && t.holding.Some?
    ensures Invariant(Apply(t, FeedIt(now)))
  {
    hide Scan;
    FeedPending(t);
    if t.fsm == FsmStopping {
      StopFeedKeeps(t, now);
    } else {
      ScanOne(t.log, Told(TimedOut));
      ScanOne(t.log, Armed(now));
    }
  }

  lemma StopFeedKeeps(t: Core, now: uint64)
    requires Invariant(t) && t.holding.Some? && t.fsm == FsmStopping
    ensures Invariant(Apply(t, FeedIt(now)))
  {
    hide Scan;
    FeedPending(t);
    ScanOne(t.log, Told(Stopped));
  }

  lemma OwnerKeeps(t: Core, st: Step)
    requires Invariant(t) && Enabled(t, st) && (st.DoStart? || st.DoStop?)
    ensures Invariant(Apply(t, st))
  {
    hide Scan;
    ScanOne(t.log, StopAsked);
    if st.DoStart? {
      ScanOne(t.log, Started(st.timeout));
      PushPending(t.(timeout := st.timeout, state := Active, log := t.log + [Started(st.timeout)]), StartTask);
    } else if t.fsm == FsmActive {
      PushPending(t.(fsm := FsmStopping, state := Stopping, log := t.log + [StopAsked]), StopTask);
    }
  }

  lemma StepKeeps(t: Core, st: Step)
    requires Invariant(t) && Enabled(t, st)
    ensures Invariant(Apply(t, st))
  {
    match st
    case DoStart(_) => OwnerKeeps(t, st);
    case DoStop => OwnerKeeps(t, st);
    case FeedIt(now) => FeedKeeps(t, now);
    case _ => WorkerKeeps(t, st);
  }

  lemma {:induction false} RunKeeps(t: Core, steps: seq<Step>)
    requires Invariant(t) && ValidRun(t, steps)
    ensures Invariant(Run(t, steps))
    decreases |steps|
  {
    if steps == [] {
    } else {
      StepKeeps(t, steps[0]);
      RunKeeps(Apply(t, steps[0]), steps[1..]);
    }
  }

  /** In every run no assertion of the timer, of its state machine or of the worker's queue
      fails, and the owner sees the protocol: at most one timeout after each start, and none
      once it has asked for the stop. */
  lemma OwnerSeesProtocol(steps: seq<Step>)
    requires ValidRun(INIT, steps)
    ensures var t := Run(INIT, steps);
            !t.aborted && Scan(t.log) != Wrong && (t.fsm == FsmStopping <==> Scan(t.log) == Asked)
  {
    RunKeeps(INIT, steps);
  }

  /** nn_timer_term's checks: a timer that nn_timer_isidle calls idle is in state IDLE, has
      no task in the worker's queue or hands, and its handle is not in the timer set. */
  lemma IdleCanTerm(steps: seq<Step>)
    requires ValidRun(INIT, steps) && IsIdle(Run(INIT, steps))
    ensures var t := Run(INIT, steps);
            t.state == Idle && t.tasks == t.batch == [] && t.holding == None && t.due == None && t.events == []
  {
    RunKeeps(INIT, steps);
    var t := Run(INIT, steps);
    assert |Pending(t)| >= |t.tasks| && |Pending(t)| >= |t.batch|;
  }

  function Count(log: seq<Mark>, e: Event): nat {
    if log == [] then 0 else Count(log[..|log| - 1], e) + if log[|log| - 1] == Told(e) then 1 else 0
  }

  function Starts(log: seq<Mark>): nat {
    if log == [] then 0 else Starts(log[..|log| - 1]) + if log[|log| - 1].Started? then 1 else 0
  }

  /** Read off the protocol: timeouts never outnumber starts, and stops are answered in turn. */
  lemma {:induction false} NoMoreTimeoutsThanStarts(log: seq<Mark>)
    requires Scan(log) != Wrong
    ensures var p := Scan(log);
            Count(log, TimedOut) + (if p.Waiting? || p.Due? || p.Ringing? then 1 else 0) <= Starts(log)
    ensures Starts(log) == Count(log, Stopped) + (if Scan(log) == Quiet then 0 else 1)
  {
    if log != [] { NoMoreTimeoutsThanStarts(log[..|log| - 1]); }
  }

  /** How much the worker has left to do. */
  function Work(t: Core): nat {
    8 * |t.tasks| + 7 * |t.batch| + (if t.due.Some? then 2 else 0)
    + match t.holding case None => 0 case Some(Timeout) => 1 case Some(Execute(_)) => 6
  }

  predicate WorkerStep(st: Step) { st.Grab? || st.Pop? || st.Fire? || st.FeedIt? }

  /** Each of the worker's steps leaves it less to do, an empty grab aside. */
  lemma WorkShrinks(t: Core, st: Step)
    requires Enabled(t, st) && ((st.Grab? && t.tasks != []) || st.Pop? || st.Fire? || st.FeedIt?)
    ensures Work(Apply(t, st)) < Work(t)
  {
  }

  /** A stop that is asked for is answered: the worker can always carry on until it is, and
      can take only Work(t) steps before it. */
  lemma {:induction false} StopIsAnswered(t: Core, now: uint64) returns (steps: seq<Step>)
    requires Invariant(t) && t.fsm == FsmStopping
    ensures ValidRun(t, steps) && (forall st :: st in steps ==> WorkerStep(st))
    ensures Run(t, steps).fsm == FsmIdle && Run(t, steps).log == t.log + [Told(Stopped)]
    decreases Work(t)
  {
    var st := if t.holding.Some? then FeedIt(now) else if t.batch != [] then Pop else Grab;
    StepKeeps(t, st);
    WorkShrinks(t, st);
    var t' := Apply(t, st);
    if t'.fsm == FsmStopping {
      assert t'.log == t.log;
      var rest := StopIsAnswered(t', now);
      steps := [st] + rest;
      assert steps[1..] == rest;
    } else {
      steps := [st];
      assert steps[1..] == [];
    }
  }

  // ---- When a timeout comes ----

  /** Read off the protocol: a timeout comes right after the timer was started for some time ms,
      armed at some instant, and found expired at one no earlier than ms later, as the 64-bit
      clock counts. */
  lemma {:induction false} TimeoutIsDue(log: seq<Mark>, i: nat)
    requires Scan(log) != Wrong && i < |log| && log[i] == Told(TimedOut)
    ensures i >= 3 && log[i - 3].Started? && log[i - 2].Armed? && log[i - 1].Expired?
    ensures (log[i - 2].now + log[i - 3].ms) % TWO_64 <= log[i - 1].now
    decreases |log|
  {
    if i < |log| - 1 {
      TimeoutIsDue(log[..|log| - 1], i);
    } else {
      var a := log[..i];
      assert Scan(a) == Ringing;
      var b := a[..|a| - 1];
      assert Scan(b).Due?;
      var c := b[..|b| - 1];
      assert Scan(c).Waiting?;
    }
  }

  /** The owner's starts, and the instants at which the worker found the timer expired. */
  function Given(log: seq<Mark>): seq<Mark> {
    if log == [] then []
    else
      var m := log[|log| - 1];
      Given(log[..|log| - 1]) + if m.Started? || m.Expired? then [m] else []
  }

  function Taken(steps: seq<Step>): seq<Mark> {
    if steps == [] then []
    else
      (match steps[0] case DoStart(ms) => [Started(ms)] case Fire(now) => [Expired(now)] case _ => [])
      + Taken(steps[1..])
  }

  lemma GivenOne(log: seq<Mark>, m: Mark)
    ensures Given(log + [m]) == Given(log) + if m.Started? || m.Expired? then [m] else []
  {
    assert (log + [m])[..|log|] == log;
  }

  /** What one step writes into the log. */
  lemma StepMarks(t: Core, st: Step)
    requires Invariant(t) && Enabled(t, st)
    ensures match st
            case DoStart(ms) => Apply(t, st).log == t.log + [Started(ms)]
            case Fire(now) => Apply(t, st).log == t.log + [Expired(now)]
            case FeedIt(now) => Apply(t, st).log == t.log || Apply(t, st).log == t.log + [Armed(now)]
                || exists e :: Apply(t, st).log == t.log + [Told(e)]
            case DoStop => Apply(t, st).log == t.log || Apply(t, st).log == t.log + [StopAsked]
            case _ => Apply(t, st).log == t.log
  {
    hide Scan;
    if st.FeedIt? {
      var r := Apply(t, st);
      assert r.log == t.log || r.log == t.log + [Armed(st.now)] || r.log == t.log + [Told(TimedOut)]
             || r.log == t.log + [Told(Stopped)];
    }
  }

  lemma StepGives(t: Core, st: Step)
    requires Invariant(t) && Enabled(t, st)
    ensures Given(Apply(t, st).log) == Given(t.log) + Taken([st])
    ensures forall a: uint64 :: Armed(a) in Apply(t, st).log ==> Armed(a) in t.log || st == FeedIt(a)
  {
    StepMarks(t, st);
    var r := Apply(t, st);
    hide Invariant, Apply, Enabled;
    if r.log != t.log {
      assert exists m :: r.log == t.log + [m];
      var m :| r.log == t.log + [m];
      GivenOne(t.log, m);
    }
  }

  /** In every run: the times in the log are those the owner asked for and the instants those at
      which the worker looked, each in order, and a timer is armed only at an instant at which
      the worker feeds it. */
  lemma {:induction false} LogIsTrue(t: Core, steps: seq<Step>)
    requires Invariant(t) && ValidRun(t, steps)
    ensures Given(Run(t, steps).log) == Given(t.log) + Taken(steps)
    ensures forall a: uint64 :: Armed(a) in Run(t, steps).log ==> Armed(a) in t.log || FeedIt(a) in steps
    decreases |steps|
  {
    hide Invariant, Apply, Enabled, Given;
    if steps == [] {
    } else {
      StepKeeps(t, steps[0]);
      StepGives(t, steps[0]);
      LogIsTrue(Apply(t, steps[0]), steps[1..]);
      assert steps == [steps[0]] + steps[1..];
    }
  }

  /** And it does come: from any state of a timer started and not yet fired, if the worker arms it
      at instant a and looks again at any b that is late enough. */
  lemma {:induction false} TimeoutComes(t: Core, a: uint64, b: uint64) returns (steps: seq<Step>)
    requires Invariant(t) && t.fsm == FsmActive && Scan(t.log) != Fired
    requires if t.timeout >= 0 then (a + t.timeout) % TWO_64 <= b else t.due.Some? ==> t.due.value <= b
    ensures ValidRun(t, steps) && (forall st :: st in steps ==> WorkerStep(st))
    ensures Run(t, steps).fsm == FsmActive && Run(t, steps).events == [TimedOut]
    decreases Work(t)
  {
    var st := if t.holding == Some(Timeout) then FeedIt(b) else if t.holding.Some? then FeedIt(a)
              else if t.due.Some? then Fire(b) else if t.batch != [] then Pop else Grab;
    NextForTimeout(t, st, a, b);
    hide Invariant, Apply, Enabled, Scan, Work;
    var t' := Apply(t, st);
    if t.holding == Some(Timeout) {
      steps := [st];
      assert steps[1..] == [];
    } else {
      var rest := TimeoutComes(t', a, b);
      steps := [st] + rest;
      assert steps[1..] == rest;
    }
  }

  lemma NextForTimeout(t: Core, st: Step, a: uint64, b: uint64)
    requires Invariant(t) && t.fsm == FsmActive && Scan(t.log) != Fired
    requires if t.timeout >= 0 then (a + t.timeout) % TWO_64 <= b else t.due.Some? ==> t.due.value <= b
    requires st == if t.holding == Some(Timeout) then FeedIt(b) else if t.holding.Some? then FeedIt(a)
                   else if t.due.Some? then Fire(b) else if t.batch != [] then Pop else Grab
    ensures Enabled(t, st) && Invariant(Apply(t, st)) && Work(Apply(t, st)) < Work(t)
    ensures var t' := Apply(t, st);
            && t'.fsm == FsmActive
            && if t.holding == Some(Timeout) then t'.events == [TimedOut]
               else
                 && Scan(t'.log) != Fired
                 && if t'.timeout >= 0 then (a + t'.timeout) % TWO_64 <= b else t'.due.Some? ==> t'.due.value <= b
  {
    hide Scan;
    FeedPendingOf(t);
    StepKeeps(t, st);
    WorkShrinks(t, st);
  }

  lemma FeedPendingOf(t: Core)
    ensures t.holding.Some? && t.holding.value.Execute? ==> Pending(t) != [] && Pending(t)[0] == t.holding.value.task
    ensures t.batch == t.tasks == [] && t.holding == None <==> Pending(t) == [] && t.holding != Some(Timeout)
  {
  }
}
