/** A socket object in the hands of its users: the calls made on its descriptor, the pieces of
    nn_close, the worker, the transports and the protocol (core/global.c, core/sock.c).  Every
    step of the runs of module Lifetime is taken here on the linked structures of module
    Socket. */
module SocketLife {
  import opened CoreInvariant
  import opened Lifetime
  import opened Socket
  import opened SocketCore
  import opened Util
  import L = List
  import Q = Queue

  class Descriptor {
    const sock: Sock
    /** The slot of the table, the global lock, and where each call stands. */
    var inTable: bool
    var glock: Option<CallId>
    var calls: map<CallId, Phase>
    /** Waits on the two semaphores that have come through, and the end of nn_sock_term. */
    var termTaken: nat
    var releTaken: nat
    var reaped: bool
    var freed: bool

    ghost function Gates(): Gate
      reads this, sock
    {
      Gate(sock.holds, sock.relesem, termTaken, releTaken, glock, reaped, freed, inTable, calls)
    }

    ghost function Heap(): set<object>
      reads sock
    {
      {sock, sock.eps, sock.sdeps, sock.events} + sock.cont.Keys + sock.kind.Keys + sock.table.Values
    }

    ghost function Now(): World
      reads this, Heap()
    {
      World(sock.View(), Gates())
    }

    /** What every step in time keeps. */
    ghost predicate Valid()
      reads this, Heap()
    {
      sock.Shaped() && WorldInvariant(Now())
    }

    /** nn_global_create_socket. */
    constructor (hasStop: bool)
      ensures Valid() && Now() == Opened(hasStop) && fresh(sock) && fresh(Heap())
    {
      hide L.World, Q.World, ItemsEmbedded, EventsEmbedded, WorldInvariant, Launched;
      sock := new Sock(hasStop);
      inTable, glock, calls := true, None, map[];
      termTaken, releTaken, reaped, freed := 0, 0, false, false;
      new;
      OpenedOk(hasStop);
    }

    /** nn_global_hold_socket at the start of a call. */
    method EnterCall(c: CallId, task: Task)
      requires Valid() && Enabled(Now(), Enter(c, task))
      modifies this`calls, sock`holds
      ensures Valid() && Now() == Apply(old(Now()), Enter(c, task))
    {
      hide L.World, Q.World, ItemsEmbedded, EventsEmbedded, WorldInvariant, Enabled, Apply;
      StepKeeps(Now(), Enter(c, task));
      Enters(Now(), c, task);
      var ok := TakeHold();
      calls := calls[c := if ok then Inside(task) else Refused];
    }

    /** nn_global_hold_socket_locked. */
    method TakeHold() returns (ok: bool)
      requires sock.Shaped()
      modifies sock`holds
      ensures sock.Shaped() && ok == (inTable && Holdable(old(sock.View())))
      ensures Now() == if ok then old(Now()).(gate := old(Now()).gate.(holds := old(sock.holds) + 1)) else old(Now())
    {
      hide L.World, Q.World, ItemsEmbedded, EventsEmbedded;
      if !inTable { return false; }
      var rc := sock.Hold();
      ok := rc == 0;
    }

    /** nn_global_rele_socket at the end of a call. */
    method LeaveCall(c: CallId)
      requires Valid() && Enabled(Now(), Leave(c))
      modifies this`calls, sock`holds, sock`relesem
      ensures Valid() && Now() == Apply(old(Now()), Leave(c))
    {
      hide L.World, Q.World, ItemsEmbedded, EventsEmbedded, WorldInvariant, Enabled, Apply;
      StepKeeps(Now(), Leave(c));
      Leaves(Now(), c);
      sock.Rele();
      calls := calls[c := Left];
    }

    /** The first locked piece of nn_close: the global lock stays taken. */
    method BeginClose(c: CallId, prompt: set<EpId>, quick: bool)
      requires Valid() && Enabled(Now(), CloseBegin(c, prompt, quick))
      modifies this`calls, this`glock, Heap()
      ensures Valid() && Now() == Apply(old(Now()), CloseBegin(c, prompt, quick))
    {
      hide L.World, Q.World, ItemsEmbedded, EventsEmbedded, WorldInvariant, Enabled, Apply, Invariant, StopSock;
      StepKeeps(Now(), CloseBegin(c, prompt, quick));
      Begins(Now(), c, prompt, quick);
      LockAndStop(c, prompt, quick);
    }

    method LockAndStop(c: CallId, prompt: set<EpId>, quick: bool)
      requires sock.Shaped()
      modifies this`calls, this`glock, Heap()
      ensures sock.Shaped()
      ensures var w := old(Now());
              Now() == if w.gate.inTable && Holdable(w.core)
                       then World(StopSock(w.core, prompt, quick),
                           Mark(w.gate.(holds := w.gate.holds + 1, glock := Some(c)), c, Draining))
                       else World(w.core, Mark(w.gate, c, Refused))
    {
      hide L.World, Q.World, ItemsEmbedded, EventsEmbedded, StopSock;
      var ok := TakeHold();
      if ok { CloseHeld(c, prompt, quick); } else { Note(c, Refused); }
    }

    /** A call stands elsewhere now. */
    method Note(c: CallId, p: Phase)
      requires sock.Shaped()
      modifies this`calls
      ensures sock.Shaped() && Now() == World(old(Now()).core, Mark(old(Now()).gate, c, p))
    {
      hide L.World, Q.World, ItemsEmbedded, EventsEmbedded;
      calls := calls[c := p];
    }

    /** nn_sock_stop under the lock. */
    method CloseHeld(c: CallId, prompt: set<EpId>, quick: bool)
      requires sock.Shaped()
      modifies this`calls, this`glock, Heap()
      ensures sock.Shaped()
      ensures var w := old(Now());
              Now() == World(StopSock(w.core, prompt, quick),
                  w.gate.(glock := Some(c), calls := w.gate.calls[c := Draining]))
    {
      hide L.World, Q.World, ItemsEmbedded, EventsEmbedded, Invariant, StopSock;
      StopHeld(prompt, quick);
      assert Gates() == old(Gates());
      calls, glock := calls[c := Draining], Some(c);
    }

    method StopHeld(prompt: set<EpId>, quick: bool)
      requires sock.Shaped()
      modifies Heap()
      ensures sock.Shaped() && sock.View() == StopSock(old(sock.View()), prompt, quick)
      ensures sock.holds == old(sock.holds) && sock.relesem == old(sock.relesem)
    {
      hide L.World, Q.World, ItemsEmbedded, EventsEmbedded, Invariant, StopSock;
      sock.Stop(prompt, quick);
    }

    /** The hold nn_close has just taken, and the original one. */
    method DropHolds()
      requires sock.Shaped()
      modifies sock`holds, sock`relesem
      ensures sock.Shaped() && Now() == World(old(Now()).core, Lifetime.Rele(Lifetime.Rele(old(Now()).gate)))
    {
      hide L.World, Q.World, ItemsEmbedded, EventsEmbedded;
      sock.Rele();
      sock.Rele();
    }

    /** Both releases, and the global lock. */
    method ReleaseClose(c: CallId)
      requires Valid() && Enabled(Now(), CloseRelease(c))
      modifies this`calls, this`glock, sock`holds, sock`relesem
      ensures Valid() && Now() == Apply(old(Now()), CloseRelease(c))
    {
      hide L.World, Q.World, ItemsEmbedded, EventsEmbedded, WorldInvariant, Enabled, Apply;
      StepKeeps(Now(), CloseRelease(c));
      Releases(Now(), c);
      DropHolds();
      calls, glock := calls[c := WaitTerm], None;
    }

    /** nn_sem_wait on termsem. */
    method TakeTerm(c: CallId)
      requires Valid() && Enabled(Now(), CloseTerm(c))
      modifies this`calls, this`termTaken
      ensures Valid() && Now() == Apply(old(Now()), CloseTerm(c))
    {
      hide L.World, Q.World, ItemsEmbedded, EventsEmbedded, WorldInvariant, Enabled, Apply;
      StepKeeps(Now(), CloseTerm(c));
      Waits(Now(), c);
      calls, termTaken := calls[c := WaitRele], termTaken + 1;
    }

    /** nn_sem_wait on relesem. */
    method TakeRele(c: CallId)
      requires Valid() && Enabled(Now(), CloseRele(c))
      modifies this`calls, this`releTaken
      ensures Valid() && Now() == Apply(old(Now()), CloseRele(c))
    {
      hide L.World, Q.World, ItemsEmbedded, EventsEmbedded, WorldInvariant, Enabled, Apply;
      StepKeeps(Now(), CloseRele(c));
      Waits(Now(), c);
      calls, releTaken := calls[c := Reaping], releTaken + 1;
    }

    /** The end of nn_sock_term: the machine is stopped, the queue and both lists are empty. */
    method ReapSocket(c: CallId)
      requires Valid() && Enabled(Now(), CloseReap(c))
      modifies this`calls, this`reaped, sock`aborted
      ensures Valid() && Now() == Apply(old(Now()), CloseReap(c)) && sock.aborted == old(sock.aborted)
    {
      hide L.World, Q.World, ItemsEmbedded, EventsEmbedded, WorldInvariant, Enabled, Apply, Reap;
      StepKeeps(Now(), CloseReap(c));
      Reaps(Now(), c);
      ReapFinds(Now(), c);
      ReapChecks();
      calls, reaped := calls[c := Removing], true;
    }

    method ReapChecks()
      requires sock.Shaped()
      modifies sock`aborted
      ensures sock.Shaped() && sock.View() == Reap(old(sock.View()))
    {
      hide L.World, Q.World, ItemsEmbedded, EventsEmbedded;
      sock.ListsKnown();
      sock.HeadTells();
      if sock.fsm != FsmStopping || sock.events.head != null || sock.eps.first != null ||
          sock.sdeps.first != null { sock.Fail(); }
    }

    /** The last piece of nn_close: the slot is cleared and the socket freed. */
    method RemoveSocket(c: CallId)
      requires Valid() && Enabled(Now(), CloseRemove(c))
      modifies this`calls, this`inTable, this`freed
      ensures Valid() && Now() == Apply(old(Now()), CloseRemove(c))
    {
      hide L.World, Q.World, ItemsEmbedded, EventsEmbedded, WorldInvariant, Enabled, Apply;
      StepKeeps(Now(), CloseRemove(c));
      Clears(Now(), c);
      calls, inTable, freed := calls[c := Closed], false, true;
    }

    /** A step of the endpoint machinery leaves the gate as it is, but for a call that has now done
        what it came for. */
    method Machine(st: Step, x: Q.Item?, refusal: int)
      requires Valid() && Enabled(Now(), st) && OfMachine(st)
      requires st.PipeRaises? ==> x != null && x in sock.kind && sock.kind[x].PipeReady? && x.notInQueue
      modifies this`calls, Heap()
      ensures sock.Shaped() && Now() == Apply(old(Now()), st)
    {
      hide L.World, Q.World, ItemsEmbedded, EventsEmbedded, WorldInvariant, Enabled, Apply, Structure, CoreStep;
      MachineStep(Now(), st);
      Drive(st, x, refusal);
      assert Gates() == old(Gates());
      if st.Add? || st.Remove? { Note(st.c, Inside(Nothing)); }
    }

    method Drive(st: Step, x: Q.Item?, refusal: int)
      requires sock.Shaped() && Structure(sock.View()) && OfMachine(st)
      requires st.Handle? ==> sock.View().events != []
      requires st.TransportReports? ==> st.ep in sock.table
      requires st.PipeRaises? ==> x != null && x in sock.kind && sock.kind[x].PipeReady? && x.notInQueue
      modifies Heap()
      ensures sock.Shaped() && sock.View() == CoreStep(old(sock.View()), st)
      ensures sock.holds == old(sock.holds) && sock.relesem == old(sock.relesem)
    {
      hide L.World, Q.World, ItemsEmbedded, EventsEmbedded, Structure, CoreStep;
      if st.Add? || st.Remove? { List(st, refusal); }
      else if st.Handle? { Turn(st); }
      else { Report(st, x); }
    }

    /** One turn of the loop of nn_ctx_leave. */
    method Turn(st: Step)
      requires sock.Shaped() && Structure(sock.View()) && st.Handle? && sock.View().events != []
      modifies Heap()
      ensures sock.Shaped() && sock.View() == CoreStep(old(sock.View()), st)
      ensures sock.holds == old(sock.holds) && sock.relesem == old(sock.relesem)
    {
      hide L.World, Q.World, ItemsEmbedded, EventsEmbedded, Structure, Process;
      sock.ProcessEvent(st.quick);
    }

    /** nn_sock_add_ep and nn_sock_rm_ep. */
    method List(st: Step, refusal: int)
      requires sock.Shaped() && Structure(sock.View()) && (st.Add? || st.Remove?)
      modifies sock`table, sock`cont, sock`kind, sock`eid, sock`aborted
      modifies sock.eps, sock.sdeps, sock.cont.Keys, sock.events, sock.kind.Keys, sock.table.Values
      ensures sock.Shaped() && sock.View() == CoreStep(old(sock.View()), st)
    {
      hide L.World, Q.World, ItemsEmbedded, EventsEmbedded, Structure, RmEp;
      if st.Add? { var rc := sock.AddEndpoint(st.accepted, refusal); }
          else { var rc := sock.RemoveEndpoint(st.ep, st.prompt); }
    }

    /** A transport, a pipe or the protocol raises an event. */
    method Report(st: Step, x: Q.Item?)
      requires sock.Shaped() && (st.TransportReports? || st.PipeRaises? || st.ProtocolReports?)
      requires st.TransportReports? ==> st.ep in sock.table
      requires st.PipeRaises? ==> x != null && x in sock.kind && sock.kind[x].PipeReady? && x.notInQueue
      modifies sock`protocol, sock`kind, sock`aborted, sock.events, sock.kind.Keys, sock.table.Values
      ensures sock.Shaped() && sock.View() == CoreStep(old(sock.View()), st)
    {
      hide L.World, Q.World, ItemsEmbedded, EventsEmbedded, Raise, SocketCore.Report;
      match st {
        case TransportReports(e) => sock.EidIs(e); sock.ReportStopped(sock.table[e]);
        case PipeRaises(e) => sock.RaiseEvent(x, PipeReady(e));
        case ProtocolReports => sock.ProtocolHasStopped();
      }
    }

    /** Any step whatever of the runs: the structures stay linked and the object ends where the run
        does.  If the step does not come too late the invariant is kept and no assertion fails; if
        it does an assertion fails, or an endpoint is left behind. */
    method Take(st: Step, x: Q.Item?, refusal: int)
      requires Valid() && Enabled(Now(), st)
      requires st.PipeRaises? ==> x != null && x in sock.kind && sock.kind[x].PipeReady? && x.notInQueue
      modifies this, Heap()
      ensures sock.Shaped() && Now() == Apply(old(Now()), st)
      ensures if Orderly(old(Now()), st) then Valid() && !sock.aborted else Fallen(Now())
      ensures st.Handle? && Forgets(old(sock.View())) ==> sock.aborted
    {
      hide L.World, Q.World, ItemsEmbedded, EventsEmbedded, WorldInvariant, Enabled, Apply, Orderly, Fallen, Forgets;
      Outcome(Now(), st);
      match st {
        case Enter(c, task) => EnterCall(c, task);
        case Leave(c) => LeaveCall(c);
        case CloseBegin(c, prompt, quick) => BeginClose(c, prompt, quick);
        case CloseRelease(c) => ReleaseClose(c);
        case CloseTerm(c) => TakeTerm(c);
        case CloseRele(c) => TakeRele(c);
        case CloseReap(c) => ReapSocket(c);
        case CloseRemove(c) => RemoveSocket(c);
        case _ => Machine(st, x, refusal);
      }
    }
  }

  /** What becomes of the world in a step. */
  lemma Outcome(w: World, st: Step)
    requires WorldInvariant(w) && Enabled(w, st)
    ensures var v := Apply(w, st);
            if Orderly(w, st) then WorldInvariant(v) && !v.core.aborted else Fallen(v)
    ensures st.Handle? && Forgets(w.core) ==> Apply(w, st).core.aborted
  {
    if Orderly(w, st) { StepKeeps(w, st); } else { LateFalls(w, st); }
    if st.Handle? && Forgets(w.core) { Forgetting(w.core, st.quick); }
  }

  // What each step of the runs is.

  /** The steps that belong to the endpoint machinery. */
  predicate OfMachine(st: Step) {
    st.Add? || st.Remove? || st.Handle? || st.TransportReports? || st.PipeRaises? || st.ProtocolReports?
  }

  function CoreStep(s: Core, st: Step): Core
    requires OfMachine(st) && (st.Handle? ==> s.events != [])
  {
    match st
    case Add(_, accepted) => AddEp(s, accepted)
    case Remove(_, e, prompt) => RmEp(s, e, prompt)
    case Handle(quick) => Process(s, quick)
    case TransportReports(e) => SocketCore.Report(s, e)
    case PipeRaises(e) => RaisePipe(s, e)
    case ProtocolReports => Raise(s.(protocol := SaidStopped), ProtocolStopped)
  }

  lemma MachineStep(w: World, st: Step)
    requires WorldInvariant(w) && Enabled(w, st) && OfMachine(st)
    ensures Structure(w.core) && (st.Handle? ==> w.core.events != [])
    ensures (st.TransportReports? ==> st.ep in w.core.table)
    ensures Apply(w, st) == World(CoreStep(w.core, st),
                                  if st.Add? || st.Remove? then Mark(w.gate, st.c, Inside(Nothing)) else w.gate)
  {
  }

  lemma Begins(w: World, c: CallId, prompt: set<EpId>, quick: bool)
    requires Enabled(w, CloseBegin(c, prompt, quick))
    ensures Apply(w, CloseBegin(c, prompt, quick)) ==
            if w.gate.inTable && Holdable(w.core)
            then World(StopSock(w.core, prompt, quick),
                Mark(w.gate.(holds := w.gate.holds + 1, glock := Some(c)), c, Draining))
            else World(w.core, Mark(w.gate, c, Refused))
  {
  }

  lemma Releases(w: World, c: CallId)
    requires Enabled(w, CloseRelease(c))
    ensures Apply(w, CloseRelease(c)) ==
        World(w.core, Mark(Lifetime.Rele(Lifetime.Rele(w.gate)), c, WaitTerm).(glock := None))
  {
  }

  lemma Waits(w: World, c: CallId)
    ensures Enabled(w, CloseTerm(c)) ==>
              Apply(w, CloseTerm(c)) == World(w.core, Mark(w.gate.(termTaken := w.gate.termTaken + 1), c, WaitRele))
    ensures Enabled(w, CloseRele(c)) ==>
              Apply(w, CloseRele(c)) == World(w.core, Mark(w.gate.(releTaken := w.gate.releTaken + 1), c, Reaping))
  {
  }

  lemma Reaps(w: World, c: CallId)
    requires Enabled(w, CloseReap(c))
    ensures Is(w.gate, c, Reaping) && w.core.events == []
    ensures Apply(w, CloseReap(c)) == World(Reap(w.core), Mark(w.gate.(reaped := true), c, Removing))
  {
  }

  lemma Clears(w: World, c: CallId)
    requires Enabled(w, CloseRemove(c))
    ensures Apply(w, CloseRemove(c)) == World(w.core, Mark(w.gate.(inTable := false, freed := true), c, Closed))
  {
  }

  lemma Enters(w: World, c: CallId, task: Task)
    requires Enabled(w, Enter(c, task))
    ensures Apply(w, Enter(c, task)) == World(w.core, Hold(w.gate, Holdable(w.core), c, Inside(task)))
  {
  }

  lemma Leaves(w: World, c: CallId)
    requires Enabled(w, Leave(c))
    ensures Apply(w, Leave(c)) == World(w.core, Mark(Rele(w.gate), c, Left))
  {
  }
}
