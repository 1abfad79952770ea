/** Which endpoints the runs of module Lifetime stop, and which of those runs can fail
    (core/sock.c:495-563 and 842-925). */
module EndpointRuns {
  import opened CoreInvariant
  import opened Lifetime
  import opened SocketCore
  import opened Util

  /** nn_shutdown takes the endpoint it names, and no other, from the active ones. */
  lemma RemoveTakesOne(w: World, c: CallId, e: EpId, prompt: set<EpId>)
    requires WorldInvariant(w) && Enabled(w, Remove(c, e, prompt))
    ensures var s, t := w.core, Apply(w, Remove(c, e, prompt)).core;
            && (forall x :: x in t.eps <==> x in s.eps && x != e)
            && if e in s.eps then OneAskedToStop(s, t, e, prompt) else t == s
  {
    RmEpKeeps(w.core, e, prompt);
    hide WorldInvariant, RmEp;
    if e in w.core.eps { OthersActive(w.core, Apply(w, Remove(c, e, prompt)).core, e, prompt); }
  }

  lemma OthersActive(s: Core, t: Core, e: EpId, prompt: set<EpId>)
    requires OneAskedToStop(s, t, e, prompt)
    ensures forall x :: x in t.eps <==> x in s.eps && x != e
  {
    hide AskedOf, ActionOf;
    var i :| 0 <= i < |s.eps| && s.eps[i] == e && t.eps == s.eps[..i] + s.eps[i + 1..];
    Split(s.eps, i);
  }

  lemma Split(q: seq<EpId>, i: nat)
    requires i < |q|
    ensures forall x :: x in q <==> x == q[i] || x in q[..i] + q[i + 1..]
  {
    assert q == q[..i] + [q[i]] + q[i + 1..];
  }

  /** The step stops endpoint e by its name, or all of them. */
  predicate Stops(st: Step, e: EpId) { (st.Remove? && st.ep == e) || st.CloseBegin? }

  predicate NobodyStops(steps: seq<Step>, e: EpId) { forall i :: 0 <= i < |steps| ==> !Stops(steps[i], e) }

  lemma ActiveStep(w: World, st: Step, e: EpId)
    requires Enabled(w, st) && e in w.core.eps && !Stops(st, e)
    ensures e in Apply(w, st).core.eps
  {
    hide Process, Raise, StopEp;
    if st.Handle? { ProcessFrame(w.core, st.quick); }
    if st.Remove? { OthersStay(w.core.eps, st.ep, e); }
  }

  /** In every run, whatever else is added, removed, reported or handled: an endpoint stays active
      until an nn_shutdown names it or an nn_close begins. */
  lemma {:induction false} ActiveUntilStopped(w: World, steps: seq<Step>, e: EpId)
    requires ValidRun(w, steps) && e in w.core.eps && NobodyStops(steps, e)
    ensures e in Run(w, steps).core.eps
    decreases |steps|
  {
    if steps == [] {
    } else {
      assert !Stops(steps[0], e);
      ActiveStep(w, steps[0], e);
      ActiveUntilStopped(Apply(w, steps[0]), steps[1..], e);
    }
  }

  // ---- Without a racing bind nothing fails ----

  /** An endpoint is created after a close has begun. */
  predicate Races(w: World, st: Step) { st.Add? && st.accepted && w.core.fsm == FsmStopping }

  predicate SomeRace(w: World, steps: seq<Step>)
    requires ValidRun(w, steps)
    decreases |steps|
  {
    steps != [] && (Races(w, steps[0]) || SomeRace(Apply(w, steps[0]), steps[1..]))
  }

  /** A close leaves no endpoint active. */
  ghost predicate NoneActive(w: World) { WorldInvariant(w) && (w.core.fsm == FsmStopping ==> w.core.eps == []) }

  lemma NoneActiveStep(w: World, st: Step)
    requires NoneActive(w) && Enabled(w, st) && !Races(w, st)
    ensures Orderly(w, st) && NoneActive(Apply(w, st))
  {
    StepIsOrderly(w, st);
    StepKeeps(w, st);
    hide WorldInvariant, Raise, Process, StopEp, StopAll, Finish2;
    if st.Handle? {
      HandledCore(w);
      ProcessFrame(w.core, st.quick);
    } else if st.CloseBegin? && w.core.fsm == FsmActive && w.gate.inTable && Holdable(w.core) {
      HandledCore(w);
      StopSockKeeps(w.core, st.prompt, st.quick);
    }
  }

  lemma HandledCore(w: World)
    requires WorldInvariant(w)
    ensures Invariant(w.core)
    ensures Holdable(w.core) <==> w.core.fsm == FsmActive
    ensures w.core.fsm == FsmActive || w.core.fsm == FsmStopping
  {
  }

  lemma StepIsOrderly(w: World, st: Step)
    requires NoneActive(w) && Enabled(w, st) && !Races(w, st)
    ensures Orderly(w, st)
  {
  }

  lemma {:induction false} NoRaceNoneLate(w: World, steps: seq<Step>)
    requires NoneActive(w) && ValidRun(w, steps) && !SomeRace(w, steps)
    ensures !SomeLate(w, steps)
    decreases |steps|
  {
    hide NoneActive, Orderly;
    if steps == [] {
    } else {
      NoneActiveStep(w, steps[0]);
      NotLate(w, steps[0]);
      NoRaceNoneLate(Apply(w, steps[0]), steps[1..]);
    }
  }

  lemma NotLate(w: World, st: Step)
    requires Orderly(w, st)
    ensures !Late(w, st)
  {
  }

  /** In every run in which no endpoint is created after the close has begun, no check fails and
      no endpoint is left behind. */
  lemma OnlyRacingBindsFail(hasStop: bool, steps: seq<Step>)
    requires ValidRun(Opened(hasStop), steps)
    ensures Fallen(Run(Opened(hasStop), steps)) ==> SomeRace(Opened(hasStop), steps)
  {
    OpenedOk(hasStop);
    if !SomeRace(Opened(hasStop), steps) {
      NoRaceNoneLate(Opened(hasStop), steps);
      FailsIffLate(Opened(hasStop), steps);
    }
  }

  // ---- The protocol is heard ----

  /** The protocol says that it has stopped, on its own or inside its stop callback. */
  predicate Speaks(st: Step) {
    st.ProtocolReports? || (st.Handle? && st.quick) || (st.CloseBegin? && st.quick)
  }

  predicate Unheard(s: Core) { s.hasStop && (s.protocol == Serving || s.protocol == AskedToStop) }

  lemma UnheardStep(w: World, st: Step)
    requires WorldInvariant(w) && Unheard(w.core) && Enabled(w, st) && Orderly(w, st) && !Speaks(st)
    ensures Unheard(Apply(w, st).core)
  {
    if st.Handle? { UnheardHandles(w.core); }
    else {
      hide WorldInvariant, StopEp, StopAll;
    }
  }

  lemma UnheardHandles(s: Core)
    requires Invariant(s) && Unheard(s) && s.events != []
    ensures Unheard(Process(s, false))
  {
    assert EventOk(s, 0);
    hide Raise, TermEp, FeedEp;
  }

  lemma {:induction false} UnheardRun(w: World, steps: seq<Step>)
    requires WorldInvariant(w) && Unheard(w.core) && ValidRun(w, steps) && !SomeLate(w, steps)
    requires forall i :: 0 <= i < |steps| ==> !Speaks(steps[i])
    ensures WorldInvariant(Run(w, steps)) && Unheard(Run(w, steps).core)
    decreases |steps|
  {
    hide WorldInvariant, Unheard;
    if steps == [] {
    } else {
      StepKeeps(w, steps[0]);
      UnheardStep(w, steps[0]);
      UnheardRun(Apply(w, steps[0]), steps[1..]);
    }
  }

  /** In every run in time: a protocol with a stop callback is destroyed only after it has said
      that it has stopped. */
  lemma ProtocolIsHeard(steps: seq<Step>)
    requires ValidRun(Opened(true), steps) && !SomeLate(Opened(true), steps)
    ensures Run(Opened(true), steps).core.protocol == Destroyed ==> exists i :: 0 <= i < |steps| && Speaks(steps[i])
  {
    OpenedOk(true);
    if !exists i :: 0 <= i < |steps| && Speaks(steps[i]) { UnheardRun(Opened(true), steps); }
  }
}
