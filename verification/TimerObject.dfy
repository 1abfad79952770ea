/** The timer as the C code holds it (aio/timer.c, aio/fsm.c): its two tasks are items of the
    worker's queue, its two events items of the context's queue, and its handle is one of the
    worker's timer set.  What the C code asks of an item it asks here of the item's own mark. */
module TimerObject {
  import opened Util
  import opened Wire
  import opened Queue
  import L = List
  import TimerSet
  import T = Timer

  class Timer {
    var fsm: T.Fsm
    var state: T.State
    var timeout: int
    const startTask: Item
    const stopTask: Item
    const done: Item
    const stopped: Item
    /** The worker: its queue, its local copy of the tasks it is at, its timer set, and what
        it has taken and not yet fed; and the handle of this timer. */
    const tasks: Fifo
    const batch: Fifo
    const timerset: TimerSet.Set
    const hndl: L.Item
    var holding: Option<T.Input>
    /** The queue of the context. */
    const events: Fifo
    var aborted: bool
    ghost var log: seq<T.Mark>

    ghost function Queues(): set<Fifo> { {tasks, batch, events} }

    ghost function Items(): set<Item> { {startTask, stopTask, done, stopped} }

    /** Each item is in at most one queue, its mark says whether it is in one, and tasks and
        events keep to their own queues. */
    ghost predicate Shaped()
      reads this, Queues(), Items(), timerset, timerset.list, timerset.due.Keys
    {
      && tasks != batch && tasks != events && batch != events
      && startTask != stopTask && done != stopped && {startTask, stopTask} !! {done, stopped}
      && Apart() && timerset.Valid() && hndl in timerset.due
    }

    ghost predicate Apart()
      reads Queues(), Items()
    {
      && (forall x :: x in tasks.items ==> x == startTask || x == stopTask)
      && (forall x :: x in batch.items ==> x == startTask || x == stopTask)
      && (forall x :: x in events.items ==> x == done || x == stopped)
      && World(Queues(), Items())
    }

    ghost function TaskOf(x: Item): T.Task { if x == startTask then T.StartTask else T.StopTask }

    ghost function EventOf(x: Item): T.Event { if x == done then T.TimedOut else T.Stopped }

    ghost function Tasks(q: seq<Item>): (r: seq<T.Task>)
      ensures |r| == |q| && forall i :: 0 <= i < |q| ==> r[i] == TaskOf(q[i])
    {
      seq(|q|, i requires 0 <= i < |q| => TaskOf(q[i]))
    }

    ghost function Events(q: seq<Item>): (r: seq<T.Event>)
      ensures |r| == |q| && forall i :: 0 <= i < |q| ==> r[i] == EventOf(q[i])
    {
      seq(|q|, i requires 0 <= i < |q| => EventOf(q[i]))
    }

    ghost function View(): T.Core
      reads this, tasks, batch, events, timerset
    {
      T.Core(fsm, state, timeout, Tasks(tasks.items), Tasks(batch.items), holding,
             TimerSet.Deadline(timerset.timeouts, hndl), Events(events.items), log, aborted)
    }

    /** nn_timer_init, for a worker and a context whose queues are empty. */
    constructor (hndl: L.Item, tasks: Fifo, batch: Fifo, events: Fifo, timerset: TimerSet.Set)
      requires tasks != batch && tasks != events && batch != events
      requires tasks.Valid() && batch.Valid() && events.Valid() && tasks.items == batch.items == events.items == []
      requires timerset.Valid() && hndl in timerset.due && hndl.notInList
      ensures Shaped() && View() == T.INIT && fresh(Items())
      ensures this.hndl == hndl && this.tasks == tasks && this.batch == batch && this.events == events
      ensures this.timerset == timerset
    {
      hide World, L.World, TimerSet.Matches, TimerSet.Pending, TimerSet.Has, TimerSet.Deadline;
      this.hndl, this.tasks, this.batch, this.events, this.timerset := hndl, tasks, batch, events, timerset;
      fsm, state, timeout, holding, aborted, log := T.FsmIdle, T.Idle, -1, None, false, [];
      startTask := new Item();
      stopTask := new Item();
      done := new Item();
      stopped := new Item();
      new;
      EmptyWorld(Queues(), Items());
      timerset.Marked(hndl);
    }

    lemma OnItsWay(q: Fifo, x: Item)
      requires q.Valid()
      ensures x in q.items ==> !x.notInQueue
    {
      if x in q.items { var i :| 0 <= i < |q.items| && q.items[i] == x; }
    }

    /** An item's mark says whether it is on its way. */
    lemma Marked(x: Item)
      requires Shaped() && x in Items()
      ensures x == startTask || x == stopTask ==> (x.notInQueue <==> x !in tasks.items && x !in batch.items)
      ensures x == done || x == stopped ==> (x.notInQueue <==> x !in events.items)
    {
      OnItsWay(tasks, x);
      OnItsWay(batch, x);
      OnItsWay(events, x);
    }

    /** The specification sees the same: a task is queued when its name is. */
    lemma Seen(x: Item)
      requires Shaped() && x in Items()
      ensures x == startTask || x == stopTask ==>
                (TaskOf(x) in View().tasks || TaskOf(x) in View().batch <==> !x.notInQueue)
      ensures x == done || x == stopped ==> (EventOf(x) in View().events <==> !x.notInQueue)
    {
      Marked(x);
      if x == startTask || x == stopTask {
        InTasks(tasks.items, x);
        InTasks(batch.items, x);
      } else {
        InEvents(events.items, x);
      }
    }

    lemma InTasks(q: seq<Item>, x: Item)
      requires startTask != stopTask && (x == startTask || x == stopTask)
      requires forall y :: y in q ==> y == startTask || y == stopTask
      ensures TaskOf(x) in Tasks(q) <==> x in q
    {
      var t := Tasks(q);
      if x in q { var i :| 0 <= i < |q| && q[i] == x; assert t[i] == TaskOf(x); }
      if TaskOf(x) in t { var i :| 0 <= i < |t| && t[i] == TaskOf(x); assert q[i] in q; }
    }

    lemma InEvents(q: seq<Item>, x: Item)
      requires done != stopped && (x == done || x == stopped)
      requires forall y :: y in q ==> y == done || y == stopped
      ensures EventOf(x) in Events(q) <==> x in q
    {
      var t := Events(q);
      if x in q { var i :| 0 <= i < |q| && q[i] == x; assert t[i] == EventOf(x); }
      if EventOf(x) in t { var i :| 0 <= i < |t| && t[i] == EventOf(x); assert q[i] in q; }
    }

    /** nn_timer_isidle. */
    method IsIdle() returns (idle: bool)
      requires Shaped()
      ensures idle == T.IsIdle(View())
    {
      Seen(stopped);
      idle := fsm == T.FsmIdle && stopped.notInQueue;
    }

    /** nn_worker_execute: the assertion of nn_queue_push is the task's own mark. */
    method Execute(x: Item)
      requires Shaped() && (x == startTask || x == stopTask)
      modifies this`aborted, tasks, Items()
      ensures Shaped() && View() == T.Execute1(old(View()), TaskOf(x))
    {
      hide World, L.World, TimerSet.Matches, TimerSet.Pending, TimerSet.Has, TimerSet.Deadline;
      Seen(x);
      if !x.notInQueue { aborted := true; return; }
      assert forall y :: y in tasks.items ==> y in Items();
      PushIn(tasks, x, Queues(), Items());
      assert Tasks(tasks.items) == old(Tasks(tasks.items)) + [TaskOf(x)];
    }

    /** nn_fsm_raise and nn_ctx_raise: the assertion is the event's own mark. */
    method Raise(x: Item)
      requires Shaped() && (x == done || x == stopped)
      modifies this`aborted, this`log, events, Items()
      ensures Shaped() && View() == T.Raise(old(View()), EventOf(x))
    {
      hide World, L.World, TimerSet.Matches, TimerSet.Pending, TimerSet.Has, TimerSet.Deadline;
      Seen(x);
      if !x.notInQueue { aborted := true; return; }
      assert forall y :: y in events.items ==> y in Items();
      PushIn(events, x, Queues(), Items());
      log := log + [T.Told(EventOf(x))];
      assert Events(events.items) == old(Events(events.items)) + [EventOf(x)];
    }

    /** nn_timer_start: nn_fsm_start calls nn_timer_handler. */
    method Start(ms: int)
      requires Shaped()
      modifies this`fsm, this`state, this`timeout, this`aborted, this`log, tasks, Items()
      ensures Shaped() && View() == T.Start(old(View()), ms)
    {
      hide World, L.World, TimerSet.Matches, TimerSet.Pending, TimerSet.Has, TimerSet.Deadline, T.IsIdle, T.Execute1;
      var idle := IsIdle();
      if ms < 0 || !idle || state != T.Idle { aborted := true; return; }
      timeout := ms;
      StartFsm();
    }

    /** nn_fsm_start on an idle timer. */
    method StartFsm()
      requires Shaped()
      modifies this`fsm, this`state, this`aborted, this`log, tasks, Items()
      ensures Shaped()
      ensures View() == T.Execute1(old(View()).(state := T.Active, log := old(log) + [T.Started(timeout)]), T.StartTask)
                        .(fsm := T.FsmActive)
    {
      hide World, L.World, TimerSet.Matches, TimerSet.Pending, TimerSet.Has, TimerSet.Deadline, T.Execute1;
      HandleStart();
      fsm := T.FsmActive;
    }

    /** nn_timer_handler on NN_FSM_START, in state IDLE. */
    method HandleStart()
      requires Shaped()
      modifies this`state, this`aborted, this`log, tasks, Items()
      ensures Shaped()
      ensures View() == T.Execute1(old(View()).(state := T.Active, log := old(log) + [T.Started(timeout)]), T.StartTask)
    {
      hide World, L.World, TimerSet.Matches, TimerSet.Pending, TimerSet.Has, TimerSet.Deadline, T.Execute1;
      state := T.Active;
      log := log + [T.Started(timeout)];
      Execute(startTask);
    }

    /** nn_timer_stop: nn_fsm_stop calls nn_timer_shutdown. */
    method Stop()
      requires Shaped()
      modifies this`fsm, this`state, this`aborted, this`log, tasks, Items()
      ensures Shaped() && View() == T.Stop(old(View()))
    {
      hide World, L.World, TimerSet.Matches, TimerSet.Pending, TimerSet.Has, TimerSet.Deadline;
      if fsm != T.FsmActive { return; }
      fsm := T.FsmStopping;
      state := T.Stopping;
      log := log + [T.StopAsked];
      assert View() == old(View()).(fsm := T.FsmStopping, state := T.Stopping, log := old(log) + [T.StopAsked]);
      Execute(stopTask);
    }

    /** nn_worker_add_timer: the handle is due the time asked for after `now`. */
    method Arm(now: uint64)
      requires Shaped() && hndl.notInList
      modifies this`timeout, this`log, timerset, timerset.list, timerset.due.Keys
      ensures Shaped()
      ensures View() == old(View()).(
        timeout := -1, due := Some((now + old(timeout)) % TWO_64), log := old(log) + [T.Armed(now)])
    {
      hide World, L.World, TimerSet.Matches, TimerSet.Deadline, TimerSet.Pending, TimerSet.Has;
      Enlist(now);
      timeout := -1;
      log := log + [T.Armed(now)];
    }

    method Enlist(now: uint64)
      requires Shaped() && hndl.notInList
      modifies timerset, timerset.list, timerset.due.Keys
      ensures Shaped() && View() == old(View()).(due := Some((now + timeout) % TWO_64))
    {
      hide World, L.World, TimerSet.Matches, TimerSet.Deadline, TimerSet.Pending;
      ghost var h := TimerSet.Hndl(hndl, (now + timeout) % TWO_64, timerset.adds);
      var first := timerset.Add(now, timeout, hndl);
      assert h in timerset.timeouts;
      OneEach();
      TimerSet.DeadlineOf(timerset.timeouts, h);
    }

    lemma OneEach()
      requires timerset.Valid()
      ensures TimerSet.OneEach(timerset.timeouts)
    {
    }

    /** nn_worker_rm_timer. */
    method Disarm()
      requires Shaped()
      modifies timerset, timerset.list, timerset.due.Keys
      ensures Shaped() && View() == old(View()).(due := None)
    {
      hide World, L.World, TimerSet.Matches, TimerSet.Pending;
      var first := timerset.Rm(hndl);
    }

    /** nn_timer_handler on what the worker feeds, at instant `now`. */
    method Handler(input: T.Input, now: uint64)
      requires Shaped()
      modifies this`timeout, this`aborted, this`log, events, Items(), timerset, timerset.list, timerset.due.Keys
      ensures Shaped() && View() == T.Handler(old(View()), input, now)
    {
      hide World, L.World, TimerSet.Matches, TimerSet.Pending, TimerSet.Has, TimerSet.Deadline;
      if state != T.Active { aborted := true; return; }
      match input {
        case Execute(StartTask) =>
          timerset.Marked(hndl);
          if timeout < 0 || !hndl.notInList { aborted := true; return; }
          Arm(now);
        case Execute(StopTask) =>
          aborted := true;
        case Timeout =>
          if timeout != -1 { aborted := true; return; }
          Raise(done);
      }
    }

    /** nn_timer_shutdown on what the worker feeds. */
    method Shutdown(input: T.Input)
      requires Shaped()
      modifies this`fsm, this`state, this`aborted, this`log, events, Items(), timerset, timerset.list, timerset.due.Keys
      ensures Shaped() && View() == T.Shutdown(old(View()), input)
    {
      hide World, L.World, TimerSet.Matches, TimerSet.Pending, TimerSet.Has, TimerSet.Deadline;
      if state != T.Stopping { aborted := true; return; }
      if input != T.Execute(T.StopTask) { return; }
      Disarm();
      GoIdle();
    }

    /** nn_fsm_stopped. */
    method GoIdle()
      requires Shaped()
      modifies this`fsm, this`state, this`aborted, this`log, events, Items()
      ensures Shaped() && View() == T.Raise(old(View()).(state := T.Idle), T.Stopped).(fsm := T.FsmIdle)
    {
      hide World, L.World, TimerSet.Matches, TimerSet.Pending, TimerSet.Has, TimerSet.Deadline, T.Raise;
      state := T.Idle;
      assert View() == old(View()).(state := T.Idle);
      Raise(stopped);
      assert View() == T.Raise(old(View()).(state := T.Idle), T.Stopped);
      fsm := T.FsmIdle;
    }

    /** The worker makes its local copy of the queue. */
    method Grab()
      requires Shaped() && batch.items == []
      modifies tasks, batch
      ensures Shaped() && View() == old(View()).(batch := old(View()).tasks, tasks := [])
    {
      hide World, L.World, TimerSet.Matches, TimerSet.Pending, TimerSet.Has, TimerSet.Deadline;
      TakeOverIn(batch, tasks, Queues(), Items());
    }

    /** The worker takes the next task of its copy. */
    method Pop()
      requires Shaped() && batch.items != [] && holding == None
      modifies this`holding, batch, Items()
      ensures Shaped()
      ensures var v := old(View()); View() == v.(batch := v.batch[1..], holding := Some(T.Execute(v.batch[0])))
    {
      hide World, L.World, TimerSet.Matches, TimerSet.Pending, TimerSet.Has, TimerSet.Deadline;
      assert forall y :: y in batch.items ==> y in Items();
      ghost var q := batch.items;
      var item := PopIn(batch, Queues(), Items());
      TailOf(q);
      assert Tasks(q)[1..] == Tasks(batch.items);
      holding := Some(T.Execute(if item == startTask then T.StartTask else T.StopTask));
    }

    /** The worker finds this timer expired at instant `now`, or another timer, or none. */
    method Fire(now: uint64) returns (fired: bool)
      requires Shaped() && batch.items == [] && holding == None
      modifies this`holding, this`log, timerset, timerset.list, timerset.due.Keys
      ensures Shaped()
      ensures fired <==> Rings(old(timerset.timeouts), now)
      ensures View() == if fired
                        then old(View()).(due := None, holding := Some(T.Timeout), log := old(log) + [T.Expired(now)])
                        else old(View())
    {
      hide World, L.World, TimerSet.Matches, TimerSet.Pending, TimerSet.Deadline;
      ghost var was := timerset.timeouts;
      OneEach();
      TimerSet.IsOrdered(timerset.timeouts, timerset.adds);
      var r := timerset.Event(now);
      OneEach();
      fired := r != null && r == hndl;
      if r != null { FirstOut(was); }
      if fired {
        holding := Some(T.Timeout);
        log := log + [T.Expired(now)];
      }
    }

    /** The handle is the next to expire. */
    ghost predicate IsFirst(s: seq<TimerSet.Hndl>) { s != [] && s[0].item == hndl }

    ghost predicate Rings(s: seq<TimerSet.Hndl>, now: uint64) { IsFirst(s) && s[0].timeout <= now }

    /** With the first handle out the timer's own is gone, or due when it was. */
    lemma FirstOut(s: seq<TimerSet.Hndl>)
      requires TimerSet.OneEach(s) && s != [] && TimerSet.OneEach(s[1..])
      ensures s[0].item == hndl ==>
                TimerSet.Deadline(s, hndl) == Some(s[0].timeout) && TimerSet.Deadline(s[1..], hndl) == None
      ensures s[0].item != hndl ==> TimerSet.Deadline(s[1..], hndl) == TimerSet.Deadline(s, hndl)
    {
      hide TimerSet.Deadline;
      TimerSet.TakeFirst(s, hndl);
      if s[0].item == hndl {
        TimerSet.DeadlineOf(s, s[0]);
      } else {
        assert s == [s[0]] + s[1..];
        TimerSet.SameDeadline(s, s[1..], hndl);
      }
    }

    /** The worker feeds what it holds, under the context lock: nn_fsm_feed. */
    method Feed(now: uint64)
      requires Shaped() && holding.Some?
      modifies this, events, Items(), timerset, timerset.list, timerset.due.Keys
      ensures Shaped() && View() == T.Feed(old(View()).(holding := None), old(holding).value, now)
      ensures old(fsm) == T.FsmActive && old(state) == T.Active && old(holding) == Some(T.Execute(T.StartTask))
              && old(timeout) >= 0 && old(View()).due == None ==>
                exists h :: h in timerset.timeouts && h.item == hndl && h.timeout == (now + old(timeout)) % TWO_64
    {
      hide World, L.World, TimerSet.Matches, TimerSet.Pending, TimerSet.Has, TimerSet.Deadline, T.Handler, T.Shutdown;
      ghost var v := View().(holding := None);
      Arms(v, now);
      var input := holding.value;
      holding := None;
      if fsm != T.FsmStopping { Handler(input, now); } else { Shutdown(input); }
      HasEntry();
    }

    lemma Arms(v: T.Core, now: uint64)
      ensures v.fsm == T.FsmActive && v.state == T.Active && v.timeout >= 0 && v.due == None ==>
                T.Feed(v, T.Execute(T.StartTask), now).due == Some((now + v.timeout) % TWO_64)
    {
    }

    lemma HasEntry()
      requires Shaped()
      ensures View().due.Some? ==>
                exists h :: h in timerset.timeouts && h.item == hndl && h.timeout == View().due.value
    {
      hide World, L.World, TimerSet.Matches, TimerSet.Pending;
    }

    /** The context hands an event to the owner. */
    method Deliver() returns (e: T.Event)
      requires Shaped() && events.items != []
      modifies events, Items()
      ensures Shaped() && View() == old(View()).(events := old(View()).events[1..]) && e == old(View()).events[0]
    {
      hide World, L.World, TimerSet.Matches, TimerSet.Pending, TimerSet.Has, TimerSet.Deadline;
      assert forall y :: y in events.items ==> y in Items();
      ghost var q := events.items;
      var item := PopIn(events, Queues(), Items());
      TailOf(q);
      assert Events(q)[1..] == Events(events.items);
      e := if item == done then T.TimedOut else T.Stopped;
    }

    /** What every step keeps: the shape, and with it the invariant of module Timer, so that
        no assertion has failed. */
    ghost predicate Valid()
      reads this, Queues(), Items(), timerset, timerset.list, timerset.due.Keys
    {
      Shaped() && T.Invariant(View())
    }

    /** Any step that can be taken, by the owner, the worker or the context; a worker that looks
        for an expired timer finds this one if it is the first. */
    method Take(st: T.Step)
      requires Valid() && T.Enabled(View(), st)
      modifies this, Queues(), Items(), timerset, timerset.list, timerset.due.Keys
      ensures Valid() && !aborted
      ensures if st.Fire? && !IsFirst(old(timerset.timeouts)) then View() == old(View())
              else View() == T.Apply(old(View()), st)
    {
      T.StepKeeps(View(), st);
      hide World, L.World, TimerSet.Matches, TimerSet.Pending, TimerSet.Has, TimerSet.Deadline;
      hide T.Invariant, T.Start, T.Stop, T.Feed;
      match st {
        case DoStart(ms) => Start(ms);
        case DoStop => Stop();
        case Grab => Grab();
        case Pop => Pop();
        case Fire(now) =>
          if IsFirst(timerset.timeouts) { FirstIsDue(); }
          var fired := Fire(now);
        case FeedIt(now) => Feed(now);
        case Deliver => var e := Deliver();
      }
      NotAborted();
    }

    lemma FirstIsDue()
      requires Shaped() && IsFirst(timerset.timeouts)
      ensures View().due == Some(timerset.timeouts[0].timeout)
    {
      OneEach();
      TimerSet.DeadlineOf(timerset.timeouts, timerset.timeouts[0]);
    }

    lemma NotAborted()
      requires Valid()
      ensures !aborted
    {
    }

    /** nn_timer_term: on an idle timer all its checks, made of the real marks, hold. */
    method Term() returns (ok: bool)
      requires Valid() && T.IsIdle(View())
      ensures ok
    {
      Marked(startTask);
      Marked(stopTask);
      timerset.Marked(hndl);
      ok := state == T.Idle && startTask.notInQueue && stopTask.notInQueue && hndl.notInList;
    }
  }
}
