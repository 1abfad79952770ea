/** The life of one socket under any interleaving of API calls, closes, workers and
    transports (core/global.c:504-553 and 1124-1157, core/sock.c).  One step is one locked
    section; transports, pipes and the protocol act when they like. */
module Lifetime {
  import opened SocketCore
  import opened Util
  import opened CoreInvariant

  type CallId = nat

  /** What a call inside has still to do to the endpoints: nn_bind and nn_connect add one,
      nn_shutdown removes the one it names, and the other calls do neither
      (core/global.c:615-680). */
  datatype Task = Adds | Removes(ep: EpId) | Nothing

  /** Where a call stands.  Inside is any API call between its hold and its release;
      Draining to Closed are the separately locked pieces of nn_close. */
  datatype Phase = Inside(task: Task) | Left | Refused | Draining | WaitTerm | WaitRele | Reaping | Removing | Closed

  /** The hold count, the socket's slot in the descriptor table, and the calls made on the
      descriptor.  relePosts counts the posts of relesem, termTaken and releTaken the
      successful waits; glock holds the global lock across nn_close's first piece. */
  datatype Gate = Gate(
    holds: int,
    relePosts: nat,
    termTaken: nat,
    releTaken: nat,
    glock: Option<CallId>,
    reaped: bool,
    freed: bool,
    inTable: bool,
    calls: map<CallId, Phase>)

  datatype World = World(core: Core, gate: Gate)

  datatype Step =
    | Enter(c: CallId, task: Task)
    | Leave(c: CallId)
    | Add(c: CallId, accepted: bool)
    | Remove(c: CallId, ep: EpId, prompt: set<EpId>)
    | CloseBegin(c: CallId, prompt: set<EpId>, quick: bool)
    | CloseRelease(c: CallId)
    | CloseTerm(c: CallId)
    | CloseRele(c: CallId)
    | CloseReap(c: CallId)
    | CloseRemove(c: CallId)
    | Handle(quick: bool)
    | TransportReports(ep: EpId)
    | PipeRaises(ep: EpId)
    | ProtocolReports

  function Opened(hasStop: bool): World {
    World(Launched(hasStop), Gate(1, 0, 0, 0, None, false, false, true, map[]))
  }

  /** The test of nn_sock_hold. */
  predicate Holdable(s: Core) { s.state == Active || s.state == Init }

  predicate Is(g: Gate, c: CallId, p: Phase) { c in g.calls && g.calls[c] == p }

  predicate IsInside(g: Gate, c: CallId) { c in g.calls && g.calls[c].Inside? }

  function Mark(g: Gate, c: CallId, p: Phase): Gate { g.(calls := g.calls[c := p]) }

  /** nn_global_hold_socket_locked on behalf of call c. */
  function Hold(g: Gate, open: bool, c: CallId, p: Phase): Gate {
    if g.inTable && open then Mark(g.(holds := g.holds + 1), c, p) else Mark(g, c, Refused)
  }

  /** nn_sock_rele. */
  function Rele(g: Gate): Gate {
    var h := g.holds - 1;
    g.(holds := h, relePosts := if h == 0 then g.relePosts + 1 else g.relePosts)
  }

  /** The checks at the end of nn_sock_term: the machine is stopping, no event is pending,
      both lists are empty. */
  function Reap(s: Core): Core {
    if s.fsm != FsmStopping || s.events != [] || s.eps != [] || s.sdeps != [] then Abort(s) else s
  }

  /** A step may happen.  A context-locked section starts only when the last one has
      drained its events.  nn_bind and nn_connect may give up before they add, nn_shutdown
      always comes to its removal; each acts once.  A transport reports once, after being asked; a pipe raises
      events only until its endpoint's transport has reported. */
  predicate Enabled(w: World, st: Step) {
    var g, s := w.gate, w.core;
    match st
    case Enter(c, _) => c !in g.calls && g.glock == None
    case Leave(c) => IsInside(g, c) && !g.calls[c].task.Removes? && g.glock == None
    case Add(c, _) => Is(g, c, Inside(Adds)) && s.events == []
    case Remove(c, e, _) => Is(g, c, Inside(Removes(e))) && s.events == []
    case CloseBegin(c, _, _) => c !in g.calls && g.glock == None && (g.inTable && Holdable(s) ==> s.events == [])
    case CloseRelease(c) => Is(g, c, Draining)
    case CloseTerm(c) => Is(g, c, WaitTerm) && g.termTaken < s.termsem
    case CloseRele(c) => Is(g, c, WaitRele) && g.releTaken < g.relePosts
    case CloseReap(c) => Is(g, c, Reaping) && s.events == []
    case CloseRemove(c) => Is(g, c, Removing) && g.glock == None
    case Handle(_) => s.events != []
    case TransportReports(e) => e in s.table && s.table[e].tran == Asked
    case PipeRaises(e) => e in s.table && s.table[e].tran != Reported
    case ProtocolReports => s.protocol == AskedToStop
  }

  function Apply(w: World, st: Step): World
    requires Enabled(w, st)
  {
    var g, s := w.gate, w.core;
    match st
    case Enter(c, task) => World(s, Hold(g, Holdable(s), c, Inside(task)))
    case Leave(c) => World(s, Mark(Rele(g), c, Left))
    case Add(c, accepted) => World(AddEp(s, accepted), Mark(g, c, Inside(Nothing)))
    case Remove(c, e, prompt) => World(RmEp(s, e, prompt), Mark(g, c, Inside(Nothing)))
    case CloseBegin(c, prompt, quick) =>
      if g.inTable && Holdable(s)
      then World(StopSock(s, prompt, quick), Hold(g, true, c, Draining).(glock := Some(c)))
      else World(s, Mark(g, c, Refused))
    case CloseRelease(c) => World(s, Mark(Rele(Rele(g)), c, WaitTerm).(glock := None))
    case CloseTerm(c) => World(s, Mark(g.(termTaken := g.termTaken + 1), c, WaitRele))
    case CloseRele(c) => World(s, Mark(g.(releTaken := g.releTaken + 1), c, Reaping))
    case CloseReap(c) => World(Reap(s), Mark(g.(reaped := true), c, Removing))
    case CloseRemove(c) => World(s, Mark(g.(inTable := false, freed := true), c, Closed))
    case Handle(quick) => World(Process(s, quick), g)
    case TransportReports(e) => World(Report(s, e), g)
    case PipeRaises(e) => World(RaisePipe(s, e), g)
    case ProtocolReports => World(Raise(s.(protocol := SaidStopped), ProtocolStopped), g)
  }

  /** nn_sock_add_ep does not look at the socket's state.  A step is too late if it creates an
      endpoint after the shutdown has passed the endpoints, or if it is the one with which
      the shutdown passes an endpoint that is still active. */
  predicate Late(w: World, st: Step) {
    || (st.Add? && st.accepted && (w.core.state == Stopping || w.core.state == Fini))
    || (st.Handle? && Forgets(w.core))
  }

  predicate Orderly(w: World, st: Step) { !Late(w, st) }

  predicate ValidRun(w: World, steps: seq<Step>)
    decreases |steps|
  {
    steps == [] || (Enabled(w, steps[0]) && ValidRun(Apply(w, steps[0]), steps[1..]))
  }

  function Run(w: World, steps: seq<Step>): World
    requires ValidRun(w, steps)
    decreases |steps|
  {
    if steps == [] then w else Run(Apply(w, steps[0]), steps[1..])
  }

  predicate OrderlyRun(w: World, steps: seq<Step>)
    decreases |steps|
  {
    steps == []
    || (Enabled(w, steps[0]) && Orderly(w, steps[0]) && OrderlyRun(Apply(w, steps[0]), steps[1..]))
  }

  /** The step reads or writes the socket structure, and not merely its table slot. */
  predicate Touches(w: World, st: Step) {
    match st
    case Enter(_, _) => w.gate.inTable
    case CloseBegin(_, _, _) => w.gate.inTable
    case _ => true
  }

  function CallsInside(calls: map<CallId, Phase>): set<CallId> {
    set c | c in calls && calls[c].Inside?
  }

  predicate Closer(p: Phase) { !p.Inside? && p != Refused && p != Left }

  /** How far a close has got, read off the gate. */
  predicate CloserAt(g: Gate, c: CallId, p: Phase) {
    && (p == Draining <==> g.glock == Some(c))
    && (p != Draining ==> g.glock == None)
    && g.termTaken == (if p == Draining || p == WaitTerm then 0 else 1)
    && g.releTaken == (if p == Draining || p == WaitTerm || p == WaitRele then 0 else 1)
    && (g.reaped <==> p == Removing || p == Closed)
    && (g.freed <==> p == Closed)
  }

  /** The hold count, and the closes: none before the stop begins, exactly one after. */
  ghost predicate GateInvariant(g: Gate, stopping: bool, termsem: nat) {
    && g.inTable == !g.freed
    && g.holds == |CallsInside(g.calls)| + (if !stopping then 1 else if g.glock.Some? then 2 else 0)
    && g.relePosts == (if stopping && g.glock == None && g.holds == 0 then 1 else 0)
    && g.termTaken <= termsem && g.releTaken <= g.relePosts
    && (!stopping ==> g.glock == None && g.termTaken == g.releTaken == 0 && !g.reaped && !g.freed)
    && (!stopping ==> forall c :: c in g.calls ==> !Closer(g.calls[c]))
    && (stopping ==> exists c :: SoleCloser(g, c))
  }

  ghost predicate SoleCloser(g: Gate, c: CallId) {
    && c in g.calls && Closer(g.calls[c]) && CloserAt(g, c, g.calls[c])
    && (forall d :: d in g.calls && Closer(g.calls[d]) ==> d == c)
  }

  ghost predicate WorldInvariant(w: World) {
    Invariant(w.core) && GateInvariant(w.gate, w.core.fsm == FsmStopping, w.core.termsem)
  }

  lemma InsideAfter(calls: map<CallId, Phase>, c: CallId, p: Phase)
    ensures |CallsInside(calls[c := p])| ==
            |CallsInside(calls)| + (if p.Inside? then 1 else 0) - (if c in calls && calls[c].Inside? then 1 else 0)
  {
    var before := CallsInside(calls);
    assert CallsInside(calls[c := p]) == if p.Inside? then before + {c} else before - {c};
    assert c in before ==> before + {c} == before;
  }

  /** While a call is inside, the socket has a hold, is not freed and relesem not posted. */
  lemma HolderInside(g: Gate, c: CallId, stopping: bool, termsem: nat)
    requires GateInvariant(g, stopping, termsem) && IsInside(g, c)
    ensures g.holds >= 1 && g.relePosts == 0 && !g.freed && !g.reaped
  {
    assert c in CallsInside(g.calls);
  }

  lemma HoldKeeps(g: Gate, c: CallId, p: Phase, stopping: bool, termsem: nat)
    requires GateInvariant(g, stopping, termsem) && c !in g.calls && (p.Inside? || stopping)
    ensures GateInvariant(Hold(g, !stopping, c, p), stopping, termsem)
  {
    var h := Hold(g, !stopping, c, p);
    InsideAfter(g.calls, c, h.calls[c]);
    if stopping {
      var d :| SoleCloser(g, d);
      assert SoleCloser(h, d);
    }
  }

  lemma CloseBeginKeeps(g: Gate, c: CallId, termsem: nat, termsem': nat)
    requires GateInvariant(g, false, termsem) && c !in g.calls
    ensures GateInvariant(Hold(g, true, c, Draining).(glock := Some(c)), true, termsem')
  {
    var h := Hold(g, true, c, Draining).(glock := Some(c));
    InsideAfter(g.calls, c, Draining);
    assert SoleCloser(h, c);
  }

  lemma LeaveKeeps(g: Gate, c: CallId, stopping: bool, termsem: nat)
    requires GateInvariant(g, stopping, termsem) && IsInside(g, c) && g.glock == None
    ensures GateInvariant(Mark(Rele(g), c, Left), stopping, termsem)
  {
    var h := Mark(Rele(g), c, Left);
    HolderInside(g, c, stopping, termsem);
    InsideAfter(g.calls, c, Left);
    if stopping {
      var d :| SoleCloser(g, d);
      assert SoleCloser(h, d);
    }
  }

  /** A call inside has done what it came for. */
  lemma TaskDone(g: Gate, c: CallId, stopping: bool, termsem: nat)
    requires GateInvariant(g, stopping, termsem) && IsInside(g, c)
    ensures GateInvariant(Mark(g, c, Inside(Nothing)), stopping, termsem)
  {
    var h := Mark(g, c, Inside(Nothing));
    InsideAfter(g.calls, c, Inside(Nothing));
    if stopping {
      var d :| SoleCloser(g, d);
      assert SoleCloser(h, d);
    }
  }

  /** A close moves on to its next piece. */
  lemma CloserMoves(g: Gate, h: Gate, c: CallId, termsem: nat)
    requires GateInvariant(g, true, termsem) && c in g.calls && Closer(g.calls[c])
    requires c in h.calls && Closer(h.calls[c]) && h.calls == g.calls[c := h.calls[c]] && CloserAt(h, c, h.calls[c])
    requires h.inTable == !h.freed && h.termTaken <= termsem && h.releTaken <= h.relePosts
    requires h.holds == g.holds - (if g.glock.Some? then 2 else 0) + (if h.glock.Some? then 2 else 0)
    requires h.relePosts == if h.glock == None && h.holds == 0 then 1 else 0
    ensures GateInvariant(h, true, termsem)
  {
    InsideAfter(g.calls, c, h.calls[c]);
    assert SoleCloser(h, c);
  }

  lemma CoreStepKeeps(w: World, st: Step)
    requires WorldInvariant(w) && Enabled(w, st) && Orderly(w, st)
    requires st.Add? || st.Remove? || st.Handle? || st.TransportReports? || st.PipeRaises? || st.ProtocolReports?
    ensures Invariant(Apply(w, st).core) && Apply(w, st).core.fsm == w.core.fsm
    ensures Apply(w, st).core.termsem >= w.core.termsem
  {
    hide OneList, OneEnd, Endpoints, Queue, Process;
    var s := w.core;
    match st
    case Add(c, accepted) => AddEpKeeps(s, accepted);
    case Remove(c, e, prompt) => RmEpKeeps(s, e, prompt);
    case Handle(quick) => ProcessKeeps(s, quick); ProcessFrame(s, quick);
    case TransportReports(e) => ReportKeeps(s, e);
    case PipeRaises(e) => RaisePipeKeeps(s, e);
    case ProtocolReports => ProtocolReportKeeps(s);
  }

  lemma CallerStepKeeps(w: World, st: Step)
    requires WorldInvariant(w) && Enabled(w, st) && (st.Enter? || st.Leave? || st.CloseBegin?)
    ensures WorldInvariant(Apply(w, st))
  {
    hide Structure, StopAll, Finish2;
    var g, s, stopping := w.gate, w.core, w.core.fsm == FsmStopping;
    match st
    case Enter(c, task) => HoldKeeps(g, c, Inside(task), stopping, s.termsem);
    case Leave(c) => LeaveKeeps(g, c, stopping, s.termsem);
    case CloseBegin(c, prompt, quick) =>
      if stopping {
        HoldKeeps(g, c, Draining, stopping, s.termsem);
      } else {
        StopSockKeeps(s, prompt, quick);
        CloseBeginKeeps(g, c, s.termsem, Apply(w, st).core.termsem);
      }
  }

  predicate ClosePiece(st: Step) {
    st.CloseRelease? || st.CloseTerm? || st.CloseRele? || st.CloseReap? || st.CloseRemove?
  }

  lemma ClosePieceKeeps(w: World, st: Step)
    requires GateInvariant(w.gate, w.core.fsm == FsmStopping, w.core.termsem) && Enabled(w, st) && ClosePiece(st)
    ensures w.core.fsm == FsmStopping && GateInvariant(Apply(w, st).gate, true, w.core.termsem)
    ensures Apply(w, st).core == if st.CloseReap? then Reap(w.core) else w.core
  {
    var c, g, h := st.c, w.gate, Apply(w, st).gate;
    assert Closer(g.calls[c]);
    var d :| SoleCloser(g, d);
    assert c == d;
    CloserMoves(g, h, c, w.core.termsem);
  }

  /** Every check of nn_sock_term holds. */
  lemma ReapFinds(w: World, c: CallId)
    requires WorldInvariant(w) && Is(w.gate, c, Reaping) && w.core.events == []
    ensures Reap(w.core) == w.core
  {
    assert Closer(w.gate.calls[c]);
    var d :| SoleCloser(w.gate, d);
    assert c == d;
  }

  lemma StepKeeps(w: World, st: Step)
    requires WorldInvariant(w) && Enabled(w, st) && Orderly(w, st)
    ensures WorldInvariant(Apply(w, st))
  {
    if st.Enter? || st.Leave? || st.CloseBegin? { CallerStepKeeps(w, st); }
    else if ClosePiece(st) { ClosePieceKeeps(w, st); if st.CloseReap? { ReapFinds(w, st.c); } }
    else {
      CoreStepKeeps(w, st);
      if st.Add? || st.Remove? { TaskDone(w.gate, st.c, w.core.fsm == FsmStopping, w.core.termsem); }
      else { TermsemGrows(w.gate, w.core.fsm == FsmStopping, w.core.termsem, Apply(w, st).core.termsem); }
    }
  }

  lemma TermsemGrows(g: Gate, stopping: bool, n: nat, m: nat)
    requires GateInvariant(g, stopping, n) && n <= m
    ensures GateInvariant(g, stopping, m)
  {
  }

  lemma {:induction false} RunKeeps(w: World, steps: seq<Step>)
    requires WorldInvariant(w) && OrderlyRun(w, steps)
    ensures ValidRun(w, steps) && WorldInvariant(Run(w, steps))
    decreases |steps|
  {
    if steps == [] {
    } else {
      StepKeeps(w, steps[0]);
      RunKeeps(Apply(w, steps[0]), steps[1..]);
    }
  }

  lemma OpenedOk(hasStop: bool)
    ensures WorldInvariant(Opened(hasStop))
  {
    assert CallsInside(map[]) == {};
  }

  // ---- What holds of every run, late steps or not ----

  /** The part of the invariant that does not need the endpoints. */
  ghost predicate GateOk(w: World) {
    && (w.core.fsm == FsmActive || w.core.fsm == FsmStopping)
    && (Holdable(w.core) <==> w.core.fsm == FsmActive) && (w.core.state == Active <==> w.core.fsm == FsmActive)
    && GateInvariant(w.gate, w.core.fsm == FsmStopping, w.core.termsem)
  }

  lemma GateStepKeeps(w: World, st: Step)
    requires GateOk(w) && Enabled(w, st)
    ensures GateOk(Apply(w, st))
  {
    hide Raise, Process, Without, StopEp, StopAll, GateInvariant;
    var g, s, stopping := w.gate, w.core, w.core.fsm == FsmStopping;
    if ClosePiece(st) {
      ClosePieceKeeps(w, st);
    } else {
      match st
      case Enter(c, task) => HoldKeeps(g, c, Inside(task), stopping, s.termsem);
      case Leave(c) => LeaveKeeps(g, c, stopping, s.termsem);
      case CloseBegin(c, prompt, quick) =>
        if stopping { HoldKeeps(g, c, Draining, stopping, s.termsem); }
        else { StillInTable(g, s.termsem); CloseBeginKeeps(g, c, s.termsem, Apply(w, st).core.termsem); }
      case Add(c, _) => TaskDone(g, c, stopping, s.termsem);
      case Remove(c, _, _) => TaskDone(g, c, stopping, s.termsem);
      case Handle(quick) =>
        ProcessFrame(s, quick);
        ProcessStates(s, quick);
        TermsemGrows(g, stopping, s.termsem, Apply(w, st).core.termsem);
      case _ =>
    }
  }

  lemma StillInTable(g: Gate, termsem: nat)
    requires GateInvariant(g, false, termsem)
    ensures g.inTable
  {
  }

  lemma ProcessStates(s: Core, quick: bool)
    requires s.events != []
    ensures var t := Process(s, quick);
        (t.state == Active <==> s.state == Active) && (t.state == Init <==> s.state == Init)
  {
    hide Raise, TermEp, FeedEp;
  }

  lemma {:induction false} GateRunKeeps(w: World, steps: seq<Step>)
    requires GateOk(w) && ValidRun(w, steps)
    ensures GateOk(Run(w, steps))
    decreases |steps|
  {
    hide GateOk;
    if steps == [] {
    } else {
      GateStepKeeps(w, steps[0]);
      GateRunKeeps(Apply(w, steps[0]), steps[1..]);
    }
  }

  /** In every run: the hold count is one per call inside and one of the descriptor's own until
      its close begins, afterwards one per call inside (two more during nn_close's first piece).
      relesem is posted exactly once, when the close has begun and the last call leaves. */
  lemma HoldsCountCalls(hasStop: bool, steps: seq<Step>)
    requires ValidRun(Opened(hasStop), steps)
    ensures var w := Run(Opened(hasStop), steps);
            var n := |CallsInside(w.gate.calls)|;
            && (w.core.fsm == FsmActive ==> w.gate.holds == n + 1)
            && (w.core.fsm != FsmActive ==> w.gate.holds == if w.gate.glock == None then n else n + 2)
            && (w.gate.relePosts == 1 <==> w.core.fsm != FsmActive && w.gate.glock == None && n == 0)
            && w.gate.relePosts <= 1
  {
    OpenedOk(hasStop);
    GateRunKeeps(Opened(hasStop), steps);
  }

  /** In every run: of any number of nn_close calls at most one gets past its first lock; a
      close finds the socket open exactly when no close has begun. */
  lemma OneCloseSucceeds(hasStop: bool, steps: seq<Step>, c: CallId, d: CallId)
    requires ValidRun(Opened(hasStop), steps)
    ensures var w := Run(Opened(hasStop), steps);
            && (c in w.gate.calls && d in w.gate.calls && Closer(w.gate.calls[c]) && Closer(w.gate.calls[d]) ==> c == d)
            && (w.gate.inTable && Holdable(w.core) <==> forall e :: e in w.gate.calls ==> !Closer(w.gate.calls[e]))
  {
    OpenedOk(hasStop);
    GateRunKeeps(Opened(hasStop), steps);
  }

  // ---- What holds of a run until a step comes too late ----

  predicate SomeLate(w: World, steps: seq<Step>)
    requires ValidRun(w, steps)
    decreases |steps|
  {
    steps != [] && (Late(w, steps[0]) || SomeLate(Apply(w, steps[0]), steps[1..]))
  }

  lemma {:induction false} InTimeIsOrderly(w: World, steps: seq<Step>)
    requires ValidRun(w, steps) && !SomeLate(w, steps)
    ensures OrderlyRun(w, steps)
    decreases |steps|
  {
    if steps == [] {
    } else {
      InTimeIsOrderly(Apply(w, steps[0]), steps[1..]);
    }
  }

  /** In every run in which no step comes too late, no assertion of the lifetime code fails. */
  lemma NoAbort(hasStop: bool, steps: seq<Step>)
    requires ValidRun(Opened(hasStop), steps)
    ensures Run(Opened(hasStop), steps).core.aborted ==> SomeLate(Opened(hasStop), steps)
  {
    if !SomeLate(Opened(hasStop), steps) {
      InTimeIsOrderly(Opened(hasStop), steps);
      OpenedOk(hasStop);
      RunKeeps(Opened(hasStop), steps);
    }
  }

  /** A check has failed, or the shutdown has passed its endpoints by and yet one is there. */
  predicate Fallen(w: World) {
    w.core.aborted || ((w.core.state == Stopping || w.core.state == Fini) && w.core.eps + w.core.sdeps != [])
  }

  lemma FallenStays(w: World, st: Step)
    requires Fallen(w) && w.core.fsm == FsmStopping && Enabled(w, st)
    ensures Fallen(Apply(w, st)) && Apply(w, st).core.fsm == FsmStopping
  {
    hide RmEp, StopAll, Finish2, Raise, Process;
    if st.Handle? {
      ProcessFrame(w.core, st.quick);
      FallenHandles(w.core, st.quick);
    } else if st.Remove? {
      FallenRemoves(w.core, st.ep, st.prompt);
    }
  }

  lemma FallenHandles(s: Core, quick: bool)
    requires s.fsm == FsmStopping && s.events != []
    requires s.aborted || ((s.state == Stopping || s.state == Fini) && s.eps + s.sdeps != [])
    ensures var t := Process(s, quick);
            t.aborted || ((t.state == Stopping || t.state == Fini) && t.eps + t.sdeps != [])
  {
    ProcessFrame(s, quick);
    if s.aborted { hide Process; }
  }

  lemma FallenRemoves(s: Core, e: EpId, prompt: set<EpId>)
    requires s.aborted || ((s.state == Stopping || s.state == Fini) && s.eps + s.sdeps != [])
    ensures var t := RmEp(s, e, prompt);
            t.fsm == s.fsm && (t.aborted || ((t.state == Stopping || t.state == Fini) && t.eps + t.sdeps != []))
  {
    hide Without, StopEp;
  }

  lemma {:induction false} FallenForGood(w: World, steps: seq<Step>)
    requires Fallen(w) && w.core.fsm == FsmStopping && ValidRun(w, steps)
    ensures Fallen(Run(w, steps))
    decreases |steps|
  {
    if steps == [] {
    } else {
      FallenStays(w, steps[0]);
      FallenForGood(Apply(w, steps[0]), steps[1..]);
    }
  }

  /** A step too late is fatal at once. */
  lemma LateFalls(w: World, st: Step)
    requires WorldInvariant(w) && Enabled(w, st) && Late(w, st)
    ensures Fallen(Apply(w, st)) && Apply(w, st).core.fsm == FsmStopping
  {
    if st.Handle? {
      ProcessFrame(w.core, st.quick);
      Forgetting(w.core, st.quick);
    }
  }

  /** Exactly when the lifetime code fails, for every run from every state it can be in: an
      assertion fails, or an endpoint is left behind for ever, if and only if some step came
      too late. */
  lemma {:induction false} FailsIffLate(w: World, steps: seq<Step>)
    requires WorldInvariant(w) && ValidRun(w, steps)
    ensures Fallen(Run(w, steps)) <==> SomeLate(w, steps)
    decreases |steps|
  {
    if steps == [] {
    } else if Late(w, steps[0]) {
      LateFalls(w, steps[0]);
      FallenForGood(Apply(w, steps[0]), steps[1..]);
    } else {
      StepKeeps(w, steps[0]);
      FailsIffLate(Apply(w, steps[0]), steps[1..]);
    }
  }

  /** A fallen socket is never torn down without a failed check. */
  lemma {:induction false} LateEndpointIsFatal(w: World, steps: seq<Step>)
    requires Fallen(w) && w.core.fsm == FsmStopping && !w.gate.reaped && ValidRun(w, steps)
    ensures Run(w, steps).core.aborted || !Run(w, steps).gate.reaped
    decreases |steps|
  {
    if steps == [] {
    } else {
      FallenStays(w, steps[0]);
      if Apply(w, steps[0]).gate.reaped { AbortedForGood(Apply(w, steps[0]), steps[1..]); }
      else { LateEndpointIsFatal(Apply(w, steps[0]), steps[1..]); }
    }
  }

  lemma {:induction false} LateNeverReaps(w: World, steps: seq<Step>)
    requires WorldInvariant(w) && ValidRun(w, steps) && SomeLate(w, steps)
    ensures Run(w, steps).core.aborted || !Run(w, steps).gate.reaped
    decreases |steps|
  {
    hide WorldInvariant, Late;
    if Late(w, steps[0]) {
      LateFalls(w, steps[0]);
      LateIsEarly(w, steps[0]);
      if Apply(w, steps[0]).core.aborted { AbortedForGood(Apply(w, steps[0]), steps[1..]); }
      else { LateEndpointIsFatal(Apply(w, steps[0]), steps[1..]); }
    } else {
      StepKeeps(w, steps[0]);
      LateNeverReaps(Apply(w, steps[0]), steps[1..]);
    }
  }

  lemma LateIsEarly(w: World, st: Step)
    requires WorldInvariant(w) && Enabled(w, st) && Late(w, st)
    ensures !Apply(w, st).gate.reaped
  {
    if st.Add? {
      HolderInside(w.gate, st.c, w.core.fsm == FsmStopping, w.core.termsem);
    } else {
      var c :| SoleCloser(w.gate, c);
    }
  }

  lemma AbortedStays(w: World, st: Step)
    requires w.core.aborted && Enabled(w, st)
    ensures Apply(w, st).core.aborted
  {
    hide Raise, Process, Without, StopEp, StopAll, Finish2;
    if st.Handle? { ProcessFrame(w.core, st.quick); }
  }

  lemma {:induction false} AbortedForGood(w: World, steps: seq<Step>)
    requires w.core.aborted && ValidRun(w, steps)
    ensures Run(w, steps).core.aborted
    decreases |steps|
  {
    if steps == [] {
    } else {
      AbortedStays(w, steps[0]);
      AbortedForGood(Apply(w, steps[0]), steps[1..]);
    }
  }

  lemma FreedEnablesNothing(w: World, st: Step)
    requires WorldInvariant(w) && w.gate.freed && CallsInside(w.gate.calls) == {} && w.core.table == map[]
    requires w.core.events == []
    ensures Enabled(w, st) ==> !Touches(w, st)
  {
    if st.Leave? || st.Add? || st.Remove? { assert st.c !in CallsInside(w.gate.calls); }
  }

  lemma FreedIsQuiet(w: World)
    requires WorldInvariant(w) && w.gate.freed
    ensures CallsInside(w.gate.calls) == {} && w.core.table == map[] && w.core.events == []
  {
    QuietWithoutEndpoints(w.core);
    assert forall e :: e !in w.core.table;
    if exists c :: IsInside(w.gate, c) {
      var c :| IsInside(w.gate, c);
      HolderInside(w.gate, c, true, w.core.termsem);
    }
    assert forall c :: c in CallsInside(w.gate.calls) ==> IsInside(w.gate, c);
  }

  lemma FreedIsReaped(w: World)
    requires GateOk(w) && w.gate.freed
    ensures w.gate.reaped
  {
    var c :| SoleCloser(w.gate, c);
  }

  /** In every run: the socket is freed, unless a check has failed, only when no call holds it,
      all its endpoints are gone and it is out of the table; from then on no step touches it. */
  lemma FreedIsUntouched(hasStop: bool, steps: seq<Step>, st: Step)
    requires ValidRun(Opened(hasStop), steps)
    ensures var w := Run(Opened(hasStop), steps);
            w.gate.freed && !w.core.aborted ==>
              && CallsInside(w.gate.calls) == {} && w.core.state == Fini && w.core.table == map[]
              && !w.gate.inTable
              && (Enabled(w, st) ==> !Touches(w, st))
  {
    OpenedOk(hasStop);
    var w := Run(Opened(hasStop), steps);
    if SomeLate(Opened(hasStop), steps) {
      LateNeverReaps(Opened(hasStop), steps);
      GateRunKeeps(Opened(hasStop), steps);
      if w.gate.freed { FreedIsReaped(w); }
    } else {
      InTimeIsOrderly(Opened(hasStop), steps);
      RunKeeps(Opened(hasStop), steps);
      if w.gate.freed { FreedIsQuiet(w); FreedEnablesNothing(w, st); }
    }
  }

  /** In every run in which no step comes too late: every endpoint ever created is on exactly
      one list or was terminated exactly once; STOPPING and FINI have both lists empty; termsem
      is posted exactly once, in FINI. */
  lemma EndpointsAccounted(hasStop: bool, steps: seq<Step>, e: EpId)
    requires ValidRun(Opened(hasStop), steps)
    ensures var s := Run(Opened(hasStop), steps).core;
            !SomeLate(Opened(hasStop), steps) ==>
              && (1 <= e < s.eid ==> multiset(s.eps)[e] + multiset(s.sdeps)[e] + multiset(s.terminated)[e] == 1)
              && (s.state == Stopping || s.state == Fini ==> s.eps == s.sdeps == [])
              && s.termsem == (if s.state == Fini then 1 else 0)
  {
    if !SomeLate(Opened(hasStop), steps) {
      OpenedOk(hasStop);
      InTimeIsOrderly(Opened(hasStop), steps);
      RunKeeps(Opened(hasStop), steps);
      var s := Run(Opened(hasStop), steps).core;
      CountDistinct(s.eps, e);
      CountDistinct(s.sdeps, e);
      CountDistinct(s.terminated, e);
    }
  }

  // ---- Both failures happen ----

  predicate Reaches(w: World, steps: seq<Step>, x: World) { ValidRun(w, steps) && Run(w, steps) == x }

  lemma ReachesSelf(w: World)
    ensures Reaches(w, [], w)
  {
  }

  lemma ReachStep(w: World, st: Step, y: World, rest: seq<Step>, x: World)
    requires Enabled(w, st) && Apply(w, st) == y && Reaches(y, rest, x)
    ensures Reaches(w, [st] + rest, x)
  {
    assert ([st] + rest)[1..] == rest;
  }

  const ENTERED := World(Launched(false), Gate(2, 0, 0, 0, None, false, false, true, map[0 := Inside(Adds)]))
  const CLOSED := Launched(false).(state := Fini, fsm := FsmStopping, protocol := Destroyed, termsem := 1)
  const CLOSING := World(CLOSED, Gate(
    3, 0, 0, 0, Some(1), false, false, true, map[0 := Inside(Adds), 1 := Draining]))
  const WAITING := World(CLOSED, Gate(
    1, 0, 0, 0, None, false, false, true, map[0 := Inside(Adds), 1 := WaitTerm]))

  const LATE := [Enter(0, Adds), CloseBegin(1, {}, false), CloseRelease(1), Add(0, true)]

  /** Nothing in nn_sock_add_ep prevents it: nn_bind inside its hold while another thread closes
      the same descriptor leaves an endpoint behind. */
  lemma LateEndpointHappens()
    ensures ValidRun(Opened(false), LATE) && Fallen(Run(Opened(false), LATE))
    ensures !Run(Opened(false), LATE).core.aborted
  {
    EntersFirst();
    ClosesNext();
    ReleasesNext();
    AddsLast();
    hide Apply, Enabled, Fallen, Launched, Opened, Reaches;
    var x := Apply(WAITING, Add(0, true));
    ReachesSelf(x);
    ReachStep(WAITING, Add(0, true), x, [], x);
    var r := [Add(0, true)] + [];
    ReachStep(CLOSING, CloseRelease(1), WAITING, r, x);
    ReachStep(ENTERED, CloseBegin(1, {}, false), CLOSING, [CloseRelease(1)] + r, x);
    r := [CloseBegin(1, {}, false)] + ([CloseRelease(1)] + r);
    ReachStep(Opened(false), Enter(0, Adds), ENTERED, r, x);
    assert [Enter(0, Adds)] + r == LATE;
    ReachesIs(Opened(false), LATE, x);
  }

  lemma ReachesIs(w: World, steps: seq<Step>, x: World)
    requires Reaches(w, steps, x)
    ensures ValidRun(w, steps) && Run(w, steps) == x
  {
  }

  lemma EntersFirst()
    ensures Enabled(Opened(false), Enter(0, Adds)) && Apply(Opened(false), Enter(0, Adds)) == ENTERED
  {
  }

  lemma ClosesNext()
    ensures Enabled(ENTERED, CloseBegin(1, {}, false)) && Apply(ENTERED, CloseBegin(1, {}, false)) == CLOSING
  {
  }

  lemma ReleasesNext()
    ensures Enabled(CLOSING, CloseRelease(1)) && Apply(CLOSING, CloseRelease(1)) == WAITING
  {
  }

  lemma AddsLast()
    ensures Enabled(WAITING, Add(0, true)) && Fallen(Apply(WAITING, Add(0, true)))
    ensures !Apply(WAITING, Add(0, true)).core.aborted
  {
  }

  const ACTIVE_EP := Ep(EpActive, FsmActive, Running)
  const STOPPING_EP := Ep(EpStopping, FsmStopping, Asked)

  const ADDED := Launched(false).(eps := [1], eid := 2, table := map[1 := ACTIVE_EP])
  const STOPPED := ADDED.(
    fsm := FsmStopping, state := StoppingEps, eps := [], sdeps := [1], table := map[1 := STOPPING_EP])
  const RACED := STOPPED.(eps := [2], eid := 3, table := map[1 := STOPPING_EP, 2 := ACTIVE_EP])
  const REPORTED := RACED.(
    events := [EpAction(1)], table := map[1 := STOPPING_EP.(tran := Reported), 2 := ACTIVE_EP])
  const FORGETTING := RACED.(
    events := [EpStopped(1)], table := map[1 := Ep(EpIdle, FsmIdle, Reported), 2 := ACTIVE_EP])

  /** The two binds, the close between them. */
  const BOUND := Gate(2, 0, 0, 0, None, false, false, true, map[0 := Inside(Nothing)])
  const BINDING := Gate(3, 0, 0, 0, None, false, false, true, map[0 := Inside(Nothing), 2 := Inside(Adds)])
  const RACING := Gate(
    4, 0, 0, 0, Some(1), false, false, true, map[0 := Inside(Nothing), 2 := Inside(Adds), 1 := Draining])
  const DONE := Gate(
    4, 0, 0, 0, Some(1), false, false, true, map[0 := Inside(Nothing), 2 := Inside(Nothing), 1 := Draining])

  /** nn_bind, then nn_bind and nn_close at once. */
  const TWO_BINDS := [Enter(0, Adds), Add(0, true), Enter(2, Adds), CloseBegin(1, {}, false), Add(2, true)]

  const RACE := TWO_BINDS + [TransportReports(1), Handle(false)]

  /** And the assertion of nn_sock_shutdown does fail: the same race, with an endpoint that was
      there before the close; its transport reports, and the new endpoint is forgotten. */
  lemma LateEndpointAborts()
    ensures ValidRun(Opened(false), RACE) && Forgets(Run(Opened(false), RACE).core)
    ensures ValidRun(Opened(false), RACE + [Handle(false)]) && Run(Opened(false), RACE + [Handle(false)]).core.aborted
  {
    var y := World(FORGETTING, DONE);
    var x := Apply(y, Handle(false));
    Forgotten();
    hide Apply, Enabled, Launched, Opened, Reaches, Forgets;
    ReachesSelf(y);
    Raced([], y);
    assert RACE + [] == RACE;
    ReachesIs(Opened(false), RACE, y);
    ReachesSelf(x);
    ReachStep(y, Handle(false), x, [], x);
    assert [Handle(false)] + [] == [Handle(false)];
    Raced([Handle(false)], x);
    ReachesIs(Opened(false), RACE + [Handle(false)], x);
  }

  lemma Raced(rest: seq<Step>, x: World)
    requires Reaches(World(FORGETTING, DONE), rest, x)
    ensures Reaches(Opened(false), RACE + rest, x)
  {
    ReportsThen();
    HandlesThen();
    hide Apply, Enabled, Launched, Opened, Reaches;
    var r := [Handle(false)] + rest;
    ReachStep(World(REPORTED, DONE), Handle(false), World(FORGETTING, DONE), rest, x);
    ReachStep(World(RACED, DONE), TransportReports(1), World(REPORTED, DONE), r, x);
    TwoBinds([TransportReports(1)] + r, x);
    assert TWO_BINDS + ([TransportReports(1)] + r) == RACE + rest;
  }

  lemma TwoBinds(rest: seq<Step>, x: World)
    requires Reaches(World(RACED, DONE), rest, x)
    ensures Reaches(Opened(false), TWO_BINDS + rest, x)
  {
    EntersFirst();
    AddsFirst();
    EntersThen();
    ClosesThen();
    AddsThen();
    hide Apply, Enabled, Launched, Opened, Reaches;
    ReachStep(World(STOPPED, RACING), Add(2, true), World(RACED, DONE), rest, x);
    var r := [Add(2, true)] + rest;
    ReachStep(World(ADDED, BINDING), CloseBegin(1, {}, false), World(STOPPED, RACING), r, x);
    ReachStep(World(ADDED, BOUND), Enter(2, Adds), World(ADDED, BINDING), [CloseBegin(1, {}, false)] + r, x);
    r := [Enter(2, Adds)] + ([CloseBegin(1, {}, false)] + r);
    ReachStep(ENTERED, Add(0, true), World(ADDED, BOUND), r, x);
    ReachStep(Opened(false), Enter(0, Adds), ENTERED, [Add(0, true)] + r, x);
    assert [Enter(0, Adds)] + ([Add(0, true)] + r) == TWO_BINDS + rest;
  }

  lemma AddsFirst()
    ensures Enabled(ENTERED, Add(0, true)) && Apply(ENTERED, Add(0, true)) == World(ADDED, BOUND)
  {
  }

  lemma EntersThen()
    ensures Enabled(World(ADDED, BOUND), Enter(2, Adds))
    ensures Apply(World(ADDED, BOUND), Enter(2, Adds)) == World(ADDED, BINDING)
  {
  }

  lemma ClosesThen()
    ensures Enabled(World(ADDED, BINDING), CloseBegin(1, {}, false))
    ensures Apply(World(ADDED, BINDING), CloseBegin(1, {}, false)) == World(STOPPED, RACING)
  {
    var s := ADDED.(fsm := FsmStopping);
    var t := StopEp(s.(eps := [], sdeps := [1]), 1, {});
    assert StopAll(t, {}) == t;
    assert StopAll(s, {}) == t;
  }

  lemma AddsThen()
    ensures Enabled(World(STOPPED, RACING), Add(2, true))
    ensures Apply(World(STOPPED, RACING), Add(2, true)) == World(RACED, DONE)
  {
  }

  lemma ReportsThen()
    ensures Enabled(World(RACED, DONE), TransportReports(1))
    ensures Apply(World(RACED, DONE), TransportReports(1)) == World(REPORTED, DONE)
  {
  }

  lemma HandlesThen()
    ensures Enabled(World(REPORTED, DONE), Handle(false))
    ensures Apply(World(REPORTED, DONE), Handle(false)) == World(FORGETTING, DONE)
  {
  }

  lemma Forgotten()
    ensures Forgets(FORGETTING) && Enabled(World(FORGETTING, DONE), Handle(false))
    ensures Apply(World(FORGETTING, DONE), Handle(false)).core.aborted
  {
    var s := FORGETTING.(events := []);
    assert TermEp(s, 1) == s.(sdeps := [], table := map[2 := ACTIVE_EP], terminated := [1]);
  }
}
