/** When a close that has begun can be carried to its end: from which states some schedule of
    the calls, the workers, the transports and the protocol leads to the socket being freed
    (core/sock.c:842-925, core/global.c:504-553). */
module Teardown {
  import opened CoreInvariant
  import opened Lifetime
  import opened SocketCore
  import opened Util

  /** The endpoints whose transport has been asked to stop and has not reported. */
  function Asking(table: map<EpId, Ep>): set<EpId> {
    set e | e in table && table[e].tran == Asked
  }

  /** An nn_shutdown that names the endpoint is inside and has not come to it yet. */
  predicate HasRemover(calls: map<CallId, Phase>, e: EpId) {
    exists c :: c in calls && calls[c] == Inside(Removes(e))
  }

  /** No endpoint is active any more; or each that is has an nn_shutdown still to remove it, and
      a transport that is still stopping keeps the shutdown waiting meanwhile. */
  predicate Closable(w: World) {
    || w.core.eps == []
    || (Asking(w.core.table) != {} && forall e :: e in w.core.eps ==> HasRemover(w.gate.calls, e))
  }

  /** A close has begun, and may still get through. */
  ghost predicate Closing(w: World) {
    WorldInvariant(w) && w.core.fsm == FsmStopping && (w.gate.freed || Closable(w))
  }

  /** Whether the protocol's stop callback answers at once, and which transports report inside
      the call that stops them, is not a schedule's to choose. */
  predicate Suits(st: Step, quick: bool, prompt: set<EpId>) {
    match st
    case Handle(q) => q == quick
    case Remove(_, _, p) => p == prompt
    case CloseBegin(_, p, q) => p == prompt && q == quick
    case _ => true
  }

  predicate Suited(steps: seq<Step>, quick: bool, prompt: set<EpId>) {
    forall i :: 0 <= i < |steps| ==> Suits(steps[i], quick, prompt)
  }

  // ---- How far it is ----

  /** The calls that are still to remove an endpoint. */
  function Removers(calls: map<CallId, Phase>): set<CallId> {
    set c | c in calls && calls[c].Inside? && calls[c].task.Removes?
  }

  /** How many pieces of nn_close are still to come. */
  function PiecesLeft(g: Gate): nat {
    if g.glock.Some? then 5 else if g.termTaken == 0 then 4 else if g.releTaken == 0 then 3
    else if !g.reaped then 2 else if !g.freed then 1 else 0
  }

  /** What is still to come of the protocol's own stop. */
  function OwedByProtocol(p: Protocol): nat { if p == Serving then 2 else if p == AskedToStop then 1 else 0 }

  /** v is nearer to the end than w. */
  predicate Nearer(v: World, w: World) {
    || CoreNearer(v.core, w.core)
    || (CoreLevel(v.core, w.core) && QueueWeight(v.core.events) == QueueWeight(w.core.events) &&
        GateNearer(v.gate, w.gate))
  }

  predicate CoreLevel(s: Core, t: Core) {
    && |s.eps| == |t.eps| && |Asking(s.table)| == |Asking(t.table)|
    && OwedByProtocol(s.protocol) == OwedByProtocol(t.protocol)
  }

  predicate CoreNearer(s: Core, t: Core) {
    var p, q := OwedByProtocol(s.protocol), OwedByProtocol(t.protocol);
    || |s.eps| < |t.eps|
    || (|s.eps| == |t.eps| && |Asking(s.table)| < |Asking(t.table)|)
    || (|s.eps| == |t.eps| && |Asking(s.table)| == |Asking(t.table)| && p < q)
    || (CoreLevel(s, t) && QueueWeight(s.events) < QueueWeight(t.events))
  }

  predicate GateNearer(g: Gate, h: Gate) {
    || |CallsInside(g.calls)| < |CallsInside(h.calls)|
    || (|CallsInside(g.calls)| == |CallsInside(h.calls)| && |Removers(g.calls)| < |Removers(h.calls)|)
    || (|CallsInside(g.calls)| == |CallsInside(h.calls)| && |Removers(g.calls)| == |Removers(h.calls)| &&
        PiecesLeft(g) < PiecesLeft(h))
  }

  lemma RemoversAfter(calls: map<CallId, Phase>, c: CallId, p: Phase)
    requires !(p.Inside? && p.task.Removes?)
    ensures |Removers(calls[c := p])| == |Removers(calls)| - (if c in Removers(calls) then 1 else 0)
  {
    assert Removers(calls[c := p]) == Removers(calls) - {c};
  }

  // ---- Each step that brings it nearer ----

  /** Handling an event asks no transport and answers for none, and the protocol's stop only
      comes nearer. */
  lemma HandleFrame(s: Core, quick: bool)
    requires Invariant(s) && s.fsm == FsmStopping && s.events != [] && !Forgets(s)
    ensures var t := Process(s, quick); t.eps == s.eps && Asking(t.table) == Asking(s.table)
    ensures OwedByProtocol(Process(s, quick).protocol) <= OwedByProtocol(s.protocol)
  {
    hide Structure, Queued;
    assert EventOk(s, 0) by { HeadOk(s); }
    if s.events[0].EpStopped? {
      hide TermEp;
      TermEpKeeps(s);
      assert Asking(s.table - {s.events[0].ep}) == Asking(s.table);
    } else if s.events[0].EpAction? {
      FeedFrame(Pop(s), s.events[0].ep);
    }
  }

  lemma HeadOk(s: Core)
    requires Structure(s) && s.events != []
    ensures EventOk(s, 0)
  {
  }

  lemma FeedFrame(s: Core, e: EpId)
    ensures Asking(FeedEp(s, e).table) == Asking(s.table)
  {
    hide Raise;
  }

  /** An endpoint that is still asking keeps a stopped one from being the last. */
  lemma NotForgetting(s: Core)
    requires Invariant(s) && s.events != [] && Asking(s.table) != {}
    ensures !Forgets(s)
  {
    HeadOk(s);
    var e :| e in Asking(s.table);
    assert e in s.sdeps;
    assert s.events[0].EpStopped? ==> s.events[0].ep != e;
  }

  lemma HandleNears(w: World, quick: bool)
    requires Closing(w) && !w.gate.freed && w.core.events != []
    ensures Advances(w, Handle(quick))
  {
    if w.core.eps != [] { NotForgetting(w.core); }
    StepKeeps(w, Handle(quick));
    HandleFrame(w.core, quick);
    ProcessFrame(w.core, quick);
    ProcessShrinks(w.core, quick);
    hide Process, WorldInvariant;
  }

  /** A step that may be taken, keeps the close possible and brings its end nearer. */
  ghost predicate Advances(w: World, st: Step) {
    Enabled(w, st) && Orderly(w, st) && Closing(Apply(w, st)) && Nearer(Apply(w, st), w)
  }

  /** The nn_shutdown that names the first active endpoint removes it. */
  lemma RemoveNears(w: World, prompt: set<EpId>) returns (st: Step)
    requires Closing(w) && !w.gate.freed && w.core.events == [] && w.core.eps != []
    ensures Advances(w, st) && st.Remove? && st.prompt == prompt
  {
    hide WorldInvariant, RmEp, HasRemover, Enabled;
    var e := w.core.eps[0];
    var c := FirstRemover(w);
    st := Remove(c, e, prompt);
    StepKeeps(w, st);
    RemoveFrame(w.core, e, prompt);
    OthersHaveTheirs(w.gate.calls, c, w.core.eps);
    Removed(w, c, e, prompt);
  }

  lemma FirstRemover(w: World) returns (c: CallId)
    requires Closing(w) && !w.gate.freed && w.core.events == [] && w.core.eps != []
    ensures c in w.gate.calls && w.gate.calls[c] == Inside(Removes(w.core.eps[0]))
    ensures Invariant(w.core) && forall prompt :: Enabled(w, Remove(c, w.core.eps[0], prompt))
  {
    hide WorldInvariant, Invariant;
    Reasons(w);
    assert HasRemover(w.gate.calls, w.core.eps[0]);
    c :| c in w.gate.calls && w.gate.calls[c] == Inside(Removes(w.core.eps[0]));
  }

  lemma Removed(w: World, c: CallId, e: EpId, prompt: set<EpId>)
    requires Enabled(w, Remove(c, e, prompt))
    ensures var v := Apply(w, Remove(c, e, prompt));
            v.core == RmEp(w.core, e, prompt) && v.gate == Mark(w.gate, c, Inside(Nothing))
  {
  }

  /** The calls that name other endpoints are still there. */
  lemma OthersHaveTheirs(calls: map<CallId, Phase>, c: CallId, eps: seq<EpId>)
    requires eps != [] && eps[0] !in eps[1..] && c in calls && calls[c] == Inside(Removes(eps[0]))
    requires forall e :: e in eps ==> HasRemover(calls, e)
    ensures forall e :: e in eps[1..] ==> HasRemover(calls[c := Inside(Nothing)], e)
  {
    forall e | e in eps[1..] ensures HasRemover(calls[c := Inside(Nothing)], e) {
      assert HasRemover(calls, e);
      var d :| d in calls && calls[d] == Inside(Removes(e));
      assert calls[c := Inside(Nothing)][d] == Inside(Removes(e));
    }
  }

  lemma RemoveFrame(s: Core, e: EpId, prompt: set<EpId>)
    requires Invariant(s) && s.eps != [] && e == s.eps[0]
    ensures var t := RmEp(s, e, prompt); t.eps == s.eps[1..] && t.fsm == s.fsm && Asking(s.table) <= Asking(t.table)
    ensures e !in s.eps[1..]
  {
    hide Raise;
  }

  /** A transport reports. */
  lemma ReportNears(w: World, e: EpId)
    requires Closing(w) && !w.gate.freed && w.core.eps == [] && e in Asking(w.core.table)
    ensures Advances(w, TransportReports(e))
  {
    StepKeeps(w, TransportReports(e));
    hide WorldInvariant, Raise;
    ReportFrame(w.core, e);
  }

  lemma ReportFrame(s: Core, e: EpId)
    requires e in Asking(s.table)
    ensures var t := Report(s, e); t.eps == s.eps && t.fsm == s.fsm && Asking(t.table) == Asking(s.table) - {e}
  {
    hide Raise;
  }

  /** The protocol reports. */
  lemma ProtocolNears(w: World)
    requires Closing(w) && !w.gate.freed && w.core.eps == [] && w.core.protocol == AskedToStop
    ensures Advances(w, ProtocolReports)
  {
    StepKeeps(w, ProtocolReports);
  }

  /** An nn_shutdown comes too late for its endpoint. */
  lemma MissNears(w: World, c: CallId, e: EpId, prompt: set<EpId>)
    requires Closing(w) && !w.gate.freed && w.core.events == [] && w.core.eps == []
    requires Is(w.gate, c, Inside(Removes(e)))
    ensures Advances(w, Remove(c, e, prompt))
  {
    StepKeeps(w, Remove(c, e, prompt));
    InsideAfter(w.gate.calls, c, Inside(Nothing));
    RemoversAfter(w.gate.calls, c, Inside(Nothing));
    hide WorldInvariant;
  }

  /** The calls leave, and the close takes its pieces. */
  lemma CallersNear(w: World) returns (st: Step)
    requires Closing(w) && !w.gate.freed && w.core.state == Fini && w.core.events == []
    requires Removers(w.gate.calls) == {}
    ensures Advances(w, st) && (st.Leave? || ClosePiece(st))
  {
    var g := w.gate;
    var c :| SoleCloser(g, c);
    if g.calls[c] == Draining {
      st := CloseRelease(c);
    } else if d :| d in CallsInside(g.calls) {
      st := Leave(d);
      assert d !in Removers(g.calls);
      InsideAfter(g.calls, d, Left);
    } else {
      assert CallsInside(g.calls) == {};
      st := match g.calls[c]
            case WaitTerm => CloseTerm(c)
            case WaitRele => CloseRele(c)
            case Reaping => CloseReap(c)
            case _ => CloseRemove(c);
    }
    if !st.Leave? { InsideAfter(g.calls, c, Apply(w, st).gate.calls[c]); }
    RemoversAfter(g.calls, st.c, Apply(w, st).gate.calls[st.c]);
    StepKeeps(w, st);
  }

  /** Some step always brings the end nearer. */
  lemma Advance(w: World, quick: bool, prompt: set<EpId>) returns (st: Step)
    requires Closing(w) && !w.gate.freed
    ensures Advances(w, st) && Suits(st, quick, prompt)
  {
    hide Advances, Closing;
    Reasons(w);
    if w.core.events != [] {
      HandleNears(w, quick);
      st := Handle(quick);
    } else if w.core.eps != [] {
      st := RemoveNears(w, prompt);
    } else if e :| e in Asking(w.core.table) {
      ReportNears(w, e);
      st := TransportReports(e);
    } else if w.core.protocol == AskedToStop {
      ProtocolNears(w);
      st := ProtocolReports;
    } else if c :| c in Removers(w.gate.calls) {
      st := Remove(c, w.gate.calls[c].task.ep, prompt);
      MissNears(w, c, st.ep, prompt);
    } else {
      AllDone(w.core);
      st := CallersNear(w);
    }
  }

  lemma Reasons(w: World)
    requires Closing(w)
    ensures Invariant(w.core) && w.core.fsm == FsmStopping
  {
  }

  lemma AllDone(s: Core)
    requires Invariant(s) && s.fsm == FsmStopping && s.events == [] && Asking(s.table) == {}
    requires s.protocol != AskedToStop
    ensures s.state == Fini
  {
    assert forall e :: e in s.table && s.table[e].tran == Asked ==> e in Asking(s.table);
    if s.state != Fini {
      StuckMeansUnreported(s);
      HasMember(s.sdeps);
    }
  }

  // ---- The whole schedule ----

  /** A schedule that frees the socket without a failed check. */
  predicate Frees(w: World, steps: seq<Step>) {
    ValidRun(w, steps) && Run(w, steps).gate.freed && !Run(w, steps).core.aborted
  }

  lemma NotAborted(w: World)
    requires Closing(w)
    ensures !w.core.aborted
  {
  }

  lemma {:induction false} CloseFinishes(w: World, quick: bool, prompt: set<EpId>) returns (steps: seq<Step>)
    requires Closing(w)
    ensures OrderlyRun(w, steps) && Frees(w, steps) && Suited(steps, quick, prompt)
    decreases |w.core.eps|, |Asking(w.core.table)|, OwedByProtocol(w.core.protocol), QueueWeight(w.core.events),
              |CallsInside(w.gate.calls)|, |Removers(w.gate.calls)|, PiecesLeft(w.gate)
  {
    hide Closing, Apply, Enabled, Orderly, Suits;
    if w.gate.freed {
      steps := [];
      NotAborted(w);
    } else {
      var st := Advance(w, quick, prompt);
      var rest := CloseFinishes(Apply(w, st), quick, prompt);
      steps := [st] + rest;
      assert steps[1..] == rest;
    }
  }

  // ---- And from the other states none does ----

  /** A close has begun with an active endpoint that nobody will remove in time. */
  ghost predicate Stuck(w: World) {
    WorldInvariant(w) && w.core.fsm == FsmStopping && w.core.eps != [] && !Closable(w)
  }

  /** With an active endpoint the shutdown is still waiting for endpoints. */
  lemma StillWaiting(w: World)
    requires WorldInvariant(w) && w.core.fsm == FsmStopping && w.core.eps != []
    ensures w.core.state == StoppingEps && w.core.protocol == Serving && !w.gate.freed
  {
    var c :| SoleCloser(w.gate, c);
  }

  /** Endpoints that have all reported leave an event in the queue, which shuts the calls out. */
  lemma AllReportedIsBusy(s: Core)
    requires Invariant(s) && s.state == StoppingEps && Asking(s.table) == {}
    ensures s.events != []
  {
    assert Handshake(s, s.sdeps[0]);
    assert s.sdeps[0] !in Asking(s.table);
  }

  lemma StuckStays(w: World, st: Step)
    requires Stuck(w) && Enabled(w, st) && Orderly(w, st)
    ensures Stuck(Apply(w, st))
  {
    StillWaiting(w);
    StepKeeps(w, st);
    if Asking(w.core.table) == {} { AllReportedIsBusy(w.core); }
    if st.Handle? { StuckHandles(w, st.quick); } else { hide WorldInvariant; StuckOther(w, st); }
  }

  lemma StuckHandles(w: World, quick: bool)
    requires Stuck(w) && w.core.events != [] && !Forgets(w.core)
    ensures Process(w.core, quick).fsm == FsmStopping && Process(w.core, quick).eps == w.core.eps
    ensures Asking(Process(w.core, quick).table) == Asking(w.core.table)
  {
    HandleFrame(w.core, quick);
    ProcessFrame(w.core, quick);
  }

  lemma StuckOther(w: World, st: Step)
    requires w.core.fsm == FsmStopping && w.core.state == StoppingEps && w.core.protocol == Serving
    requires w.core.eps != [] && !Closable(w) && (Asking(w.core.table) == {} ==> w.core.events != [])
    requires Enabled(w, st) && !st.Handle?
    ensures var v := Apply(w, st); v.core.fsm == FsmStopping && v.core.eps != [] && !Closable(v)
  {
    var v := Apply(w, st);
    if Asking(w.core.table) == {} {
      assert Asking(v.core.table) <= Asking(w.core.table);
    } else {
      var f :| f in w.core.eps && !HasRemover(w.gate.calls, f);
      StillNoRemover(w, st, f);
    }
  }

  /** No call that enters now is let in, and those inside do only what they came for. */
  lemma StillNoRemover(w: World, st: Step, f: EpId)
    requires w.core.fsm == FsmStopping && w.core.state == StoppingEps && Enabled(w, st) && !st.Handle?
    requires f in w.core.eps && !HasRemover(w.gate.calls, f)
    ensures f in Apply(w, st).core.eps && !HasRemover(Apply(w, st).gate.calls, f)
  {
    var v := Apply(w, st);
    if st.Remove? {
      assert HasRemover(w.gate.calls, st.ep);
      OthersStay(w.core.eps, st.ep, f);
    }
    forall c | c in v.gate.calls ensures v.gate.calls[c] != Inside(Removes(f)) {
      assert c in w.gate.calls ==> w.gate.calls[c] != Inside(Removes(f));
    }
  }

  lemma {:induction false} StuckForGood(w: World, steps: seq<Step>)
    requires Stuck(w) && OrderlyRun(w, steps)
    ensures !Frees(w, steps)
    decreases |steps|
  {
    if steps == [] {
      StillWaiting(w);
    } else {
      StuckStays(w, steps[0]);
      StuckForGood(Apply(w, steps[0]), steps[1..]);
    }
  }

  /** Nor does a schedule with a late step: the socket is not torn down, or a check fails. */
  lemma LateNeverFrees(w: World, steps: seq<Step>)
    requires WorldInvariant(w) && ValidRun(w, steps) && SomeLate(w, steps)
    ensures !Frees(w, steps)
  {
    hide WorldInvariant;
    LateNeverReaps(w, steps);
    WorldGate(w);
    GateRunKeeps(w, steps);
    if Run(w, steps).gate.freed { FreedIsReaped(Run(w, steps)); }
  }

  lemma WorldGate(w: World)
    requires WorldInvariant(w)
    ensures GateOk(w)
  {
  }

  /** Exactly when a close can still be carried to its end without a failed check: in every
      state that a run can reach once a close has begun, and that has not fallen, a schedule
      that frees the socket exists if and only if no endpoint is active, or each that is will
      still be removed while the shutdown waits; and then there is one for every kind of
      protocol and transport. */
  lemma CloseCanFinish(hasStop: bool, steps: seq<Step>, quick: bool, prompt: set<EpId>)
    requires ValidRun(Opened(hasStop), steps)
    ensures var w := Run(Opened(hasStop), steps);
            w.core.fsm == FsmStopping && !Fallen(w) ==>
              && ((exists more :: Frees(w, more)) <==> w.gate.freed || Closable(w))
              && (w.gate.freed || Closable(w) ==> exists more :: Frees(w, more) && Suited(more, quick, prompt))
  {
    OpenedOk(hasStop);
    FailsIffLate(Opened(hasStop), steps);
    if SomeLate(Opened(hasStop), steps) { return; }
    InTimeIsOrderly(Opened(hasStop), steps);
    RunKeeps(Opened(hasStop), steps);
    var w := Run(Opened(hasStop), steps);
    if w.core.fsm == FsmStopping {
      if w.gate.freed || Closable(w) {
        var more := CloseFinishes(w, quick, prompt);
      } else {
        forall more | ValidRun(w, more) ensures !Frees(w, more) {
          if SomeLate(w, more) {
            LateNeverFrees(w, more);
          } else {
            InTimeIsOrderly(w, more);
            StuckForGood(w, more);
          }
        }
      }
    }
  }

  /** Once no nn_shutdown is left inside, an endpoint that is active stays, and the close does not
      come to its end. */
  lemma NobodyRemoves(hasStop: bool, steps: seq<Step>, more: seq<Step>)
    requires ValidRun(Opened(hasStop), steps)
    ensures var w := Run(Opened(hasStop), steps);
            w.core.fsm == FsmStopping && !Fallen(w) && w.core.eps != [] && Removers(w.gate.calls) == {} ==>
              !Frees(w, more)
  {
    var w := Run(Opened(hasStop), steps);
    CloseCanFinish(hasStop, steps, false, {});
    if w.core.fsm == FsmStopping && !Fallen(w) && w.core.eps != [] && Removers(w.gate.calls) == {} {
      OpenedOk(hasStop);
      FailsIffLate(Opened(hasStop), steps);
      InTimeIsOrderly(Opened(hasStop), steps);
      RunKeeps(Opened(hasStop), steps);
      StillWaiting(w);
      var e := w.core.eps[0];
      if HasRemover(w.gate.calls, e) {
        var c :| c in w.gate.calls && w.gate.calls[c] == Inside(Removes(e));
        assert c in Removers(w.gate.calls);
      }
    }
  }

  /** So it is after the race of two binds and a close: nothing that happens afterwards frees the
      socket without a failed check. */
  lemma TwoBindsNeverClose(more: seq<Step>)
    ensures ValidRun(Opened(false), TWO_BINDS) && !Fallen(Run(Opened(false), TWO_BINDS))
    ensures !Frees(Run(Opened(false), TWO_BINDS), more)
  {
    ReachesSelf(World(RACED, DONE));
    TwoBinds([], World(RACED, DONE));
    assert TWO_BINDS + [] == TWO_BINDS;
    ReachesIs(Opened(false), TWO_BINDS, World(RACED, DONE));
    NobodyRemoves(false, TWO_BINDS, more);
  }
}
