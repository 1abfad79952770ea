/** What every locked section keeps about the part of a socket its context protects. */
module CoreInvariant {
  import opened SocketCore
  import opened Util

  ghost predicate TokenAfter(q: seq<Event>, i: int, e: EpId) {
    exists j :: i < j < |q| && j >= 0 && TokenOf(q[j], e)
  }

  /** Every unfreed endpoint is on exactly one of the two lists. */
  ghost predicate OneList(s: Core) {
    && Distinct(s.eps)
    && Distinct(s.sdeps)
    && (forall e :: e in s.eps ==> e !in s.sdeps)
    && (forall e :: e in s.table <==> e in s.eps || e in s.sdeps)
  }

  /** Every endpoint ever created is either unfreed or was terminated, exactly once. */
  ghost predicate OneEnd(s: Core) {
    && s.eid >= 1
    && Distinct(s.terminated)
    && (forall e :: e in s.terminated ==> e !in s.table)
    && (forall e :: 1 <= e < s.eid <==> e in s.table || e in s.terminated)
  }

  /** Where an endpoint on sdeps stands, and which event it is waiting for. */
  ghost predicate Handshake(s: Core, e: EpId)
    requires e in s.table
  {
    || s.table[e] == Ep(EpStopping, FsmStopping, Asked)
    || (s.table[e] == Ep(EpStopping, FsmStopping, Reported) && EpAction(e) in s.events)
    || (s.table[e] == Ep(EpIdle, FsmIdle, Reported) && EpStopped(e) in s.events)
  }

  ghost predicate Endpoints(s: Core)
    requires OneList(s)
  {
    && (forall e :: e in s.eps ==> s.table[e] == Ep(EpActive, FsmActive, Running))
    && (forall e :: e in s.sdeps ==> Handshake(s, e))
  }

  /** What a queued event says about its endpoint. */
  ghost predicate EventOk(s: Core, i: nat)
    requires i < |s.events|
  {
    match s.events[i]
    case EpAction(e) => e in s.sdeps && e in s.table && s.table[e] == Ep(EpStopping, FsmStopping, Reported)
    case EpStopped(e) => e in s.sdeps && e in s.table && s.table[e] == Ep(EpIdle, FsmIdle, Reported)
    case PipeReady(e) => e in s.table && (s.table[e].tran == Reported ==> TokenAfter(s.events, i, e))
    case ProtocolStopped => s.state == Stopping && s.protocol == SaidStopped
  }

  ghost predicate Queue(s: Core) {
    && (forall i, j :: 0 <= i < j < |s.events| ==> !SameItem(s.events[i], s.events[j]))
    && (forall i :: 0 <= i < |s.events| ==> EventOk(s, i))
  }

  ghost predicate Structure(s: Core) {
    !s.aborted && OneList(s) && OneEnd(s) && Endpoints(s) && Queue(s)
  }

  /** What each state of the socket means. */
  ghost predicate Stage(s: Core) {
    match s.state
    case Init => false
    case Active => s.fsm == FsmActive && s.protocol == Serving && s.termsem == 0
    case StoppingEps => s.fsm == FsmStopping && s.protocol == Serving && s.termsem == 0 && s.sdeps != []
    case Stopping => s.fsm == FsmStopping && s.termsem == 0 && s.eps == s.sdeps == [] && s.hasStop
      && (s.protocol == AskedToStop || (s.protocol == SaidStopped && ProtocolStopped in s.events))
    case Fini => s.fsm == FsmStopping && s.termsem == 1 && s.eps == s.sdeps == [] && s.protocol == Destroyed
  }

  ghost predicate Invariant(s: Core) { Structure(s) && Stage(s) }

  /** The next event ends the wait for the stopping endpoints while another one, added or
      left since, is still active: nn_sock_shutdown asserts that there is none. */
  predicate Forgets(s: Core) {
    && s.fsm == FsmStopping && s.state == StoppingEps && s.eps != []
    && s.events != [] && s.events[0].EpStopped? && s.sdeps == [s.events[0].ep]
  }

  lemma {:induction false} WithoutIs(q: seq<EpId>, e: EpId)
    requires Distinct(q) && e in q
    ensures Distinct(Without(q, e)) && |Without(q, e)| == |q| - 1
    ensures forall x :: x in Without(q, e) <==> x in q && x != e
  {
    if q[0] != e {
      var t := q[1..];
      assert q == [q[0]] + t;
      assert e in t;
      WithoutIs(t, e);
      assert q[0] !in t;
      var w := Without(t, e);
      assert Without(q, e) == [q[0]] + w;
      forall i, j | 0 <= i < j < |w| + 1 ensures ([q[0]] + w)[i] != ([q[0]] + w)[j] {
        assert ([q[0]] + w)[j] == w[j - 1] && w[j - 1] in w;
      }
    } else {
      assert q == [e] + q[1..];
    }
  }

  lemma {:induction false} OthersStay(q: seq<EpId>, e: EpId, f: EpId)
    requires f in q && f != e
    ensures f in Without(q, e)
  {
    if q[0] != e && q[0] != f {
      OthersStay(q[1..], e, f);
    }
  }

  lemma {:induction false} WithoutAt(q: seq<EpId>, i: nat)
    requires i < |q| && q[i] !in q[..i]
    ensures Without(q, q[i]) == q[..i] + q[i + 1..]
  {
    if i == 0 {
      assert q[..0] + q[1..] == q[1..];
    } else {
      assert q[0] in q[..i];
      assert q[1..][..i - 1] == q[..i][1..];
      WithoutAt(q[1..], i - 1);
      assert [q[0]] + (q[1..][..i - 1] + q[1..][i..]) == q[..i] + q[i + 1..];
    }
  }

  /** The three stop-time events never sit in the queue of an endpoint still active. */
  lemma NoToken(s: Core, e: EpId, ev: Event)
    requires Structure(s) && ev in s.events && TokenOf(ev, e)
    ensures e in s.sdeps && e in s.table && s.table[e].tran == Reported
  {
    var i :| 0 <= i < |s.events| && s.events[i] == ev;
    assert EventOk(s, i);
  }

  lemma RaiseKeepsTokensAfter(q: seq<Event>, ev: Event, i: nat, e: EpId)
    requires i < |q| && TokenAfter(q, i, e)
    ensures TokenAfter(q + [ev], i, e)
  {
    var j :| i < j < |q| && j >= 0 && TokenOf(q[j], e);
    assert (q + [ev])[j] == q[j];
  }

  /** t is s with one more endpoint, the last of the active ones, of an id never used before. */
  ghost predicate OneMoreActive(s: Core, t: Core) {
    && s.eid !in s.table && s.eid !in s.terminated && t.eid > s.eid && t.eps == s.eps + [s.eid]
    && t.table == s.table[s.eid := Ep(EpActive, FsmActive, Running)]
    && t == s.(eps := t.eps, table := t.table, eid := t.eid)
  }

  lemma AddEpKeeps(s: Core, accepted: bool)
    requires Structure(s)
    ensures Structure(AddEp(s, accepted))
    ensures if accepted then OneMoreActive(s, AddEp(s, accepted)) else AddEp(s, accepted) == s
  {
    var t := AddEp(s, accepted);
    if accepted {
      assert s.eid !in s.table;
      forall i | 0 <= i < |t.events| ensures EventOk(t, i) {
        assert EventOk(s, i);
      }
      forall e | e in t.sdeps ensures Handshake(t, e) {
        assert Handshake(s, e);
      }
    }
  }

  /** The record of an endpoint just asked to stop, and the event its transport may raise. */
  function AskedOf(e: EpId, prompt: set<EpId>): Ep {
    Ep(EpStopping, FsmStopping, if e in prompt then Reported else Asked)
  }

  function ActionOf(e: EpId, prompt: set<EpId>): seq<Event> { if e in prompt then [EpAction(e)] else [] }

  /** t is s with endpoint e, and no other, gone from the active ones, in their order, to the end
      of the stopping ones, and asked to stop; nothing else has changed. */
  ghost predicate OneAskedToStop(s: Core, t: Core, e: EpId, prompt: set<EpId>) {
    && (exists i :: 0 <= i < |s.eps| && s.eps[i] == e && t.eps == s.eps[..i] + s.eps[i + 1..])
    && t.sdeps == s.sdeps + [e] && e !in t.eps
    && t.table == s.table[e := AskedOf(e, prompt)] && t.events == s.events + ActionOf(e, prompt)
    && t == s.(eps := t.eps, sdeps := t.sdeps, table := t.table, events := t.events)
  }

  /** An active endpoint moves to sdeps and is asked to stop, in rm_ep and in shutdown. */
  lemma MoveKeeps(s: Core, e: EpId, rest: seq<EpId>, prompt: set<EpId>)
    requires Structure(s) && e in s.eps && Distinct(rest)
    requires forall x :: x in rest <==> x in s.eps && x != e
    ensures Structure(StopEp(s.(eps := rest, sdeps := s.sdeps + [e]), e, prompt))
    ensures var t := StopEp(s.(eps := rest, sdeps := s.sdeps + [e]), e, prompt);
            && t.table == s.table[e := AskedOf(e, prompt)] && t.events == s.events + ActionOf(e, prompt)
            && t == s.(eps := rest, sdeps := s.sdeps + [e], table := t.table, events := t.events)
  {
    var m := s.(eps := rest, sdeps := s.sdeps + [e]);
    var t := StopEp(m, e, prompt);
    forall i | 0 <= i < |s.events| ensures !TokenOf(s.events[i], e) {
      if TokenOf(s.events[i], e) { NoToken(s, e, s.events[i]); }
    }
    assert t.events == if e in prompt then s.events + [EpAction(e)] else s.events;
    assert t.table == s.table[e := Ep(EpStopping, FsmStopping, if e in prompt then Reported else Asked)];
    forall i | 0 <= i < |t.events| ensures EventOk(t, i) {
      if i < |s.events| {
        assert EventOk(s, i) && t.events[i] == s.events[i];
        if s.events[i].PipeReady? {
          var x := s.events[i].ep;
          if x == e {
            if e in prompt { assert TokenOf(t.events[|s.events|], e); }
          } else if s.table[x].tran == Reported && e in prompt {
            RaiseKeepsTokensAfter(s.events, EpAction(e), i, x);
          }
        }
      }
    }
    forall x | x in t.sdeps ensures Handshake(t, x) {
      if x == e { if e in prompt { assert t.events[|s.events|] == EpAction(e); } }
      else { assert Handshake(s, x); }
    }
    assert forall x :: x in t.sdeps <==> x in s.sdeps || x == e;
  }

  lemma TailIs(q: seq<EpId>)
    requires Distinct(q) && q != []
    ensures q == [q[0]] + q[1..] && Distinct(q[1..])
    ensures forall x :: x in q[1..] <==> x in q && x != q[0]
  {
    assert forall x :: x in q <==> x == q[0] || x in q[1..];
  }

  function ActionsOf(q: seq<EpId>, prompt: set<EpId>): seq<Event> {
    if q == [] then [] else ActionOf(q[0], prompt) + ActionsOf(q[1..], prompt)
  }

  /** Every active endpoint of s is stopping in t, in order after those that were, and has been
      asked to stop; no other record has changed. */
  ghost predicate AllAsked(s: Core, t: Core, prompt: set<EpId>) {
    && t.eps == [] && t.sdeps == s.sdeps + s.eps && t.table.Keys == s.table.Keys
    && forall e :: e in s.table ==> t.table[e] == if e in s.eps then AskedOf(e, prompt) else s.table[e]
  }

  lemma {:induction false} StopAllKeeps(s: Core, prompt: set<EpId>)
    requires Structure(s)
    ensures Structure(StopAll(s, prompt))
    ensures var t := StopAll(s, prompt); AllAsked(s, t, prompt) && t.events == s.events + ActionsOf(s.eps, prompt)
    decreases |s.eps|
  {
    if s.eps == [] {
    } else {
      TailIs(s.eps);
      MoveKeeps(s, s.eps[0], s.eps[1..], prompt);
      hide Structure, StopEp, AllAsked, ActionOf, ActionsOf, AskedOf;
      var m := StopEp(s.(eps := s.eps[1..], sdeps := s.sdeps + [s.eps[0]]), s.eps[0], prompt);
      StopAllKeeps(m, prompt);
      AllOnList(s);
      FirstThenAll(s, m, StopAll(m, prompt), prompt);
    }
  }

  lemma FirstThenAll(s: Core, m: Core, t: Core, prompt: set<EpId>)
    requires s.eps != [] && s.eps[0] in s.table && s.eps[0] !in s.eps[1..]
    requires m.eps == s.eps[1..] && m.sdeps == s.sdeps + [s.eps[0]]
    requires m.table == s.table[s.eps[0] := AskedOf(s.eps[0], prompt)]
    requires m.events == s.events + ActionOf(s.eps[0], prompt)
    requires AllAsked(m, t, prompt) && t.events == m.events + ActionsOf(m.eps, prompt)
    ensures AllAsked(s, t, prompt) && t.events == s.events + ActionsOf(s.eps, prompt)
  {
    hide AskedOf, ActionOf;
    assert s.sdeps + [s.eps[0]] + s.eps[1..] == s.sdeps + s.eps;
  }

  lemma AllOnList(s: Core)
    requires Structure(s)
    ensures forall e :: e in s.eps ==> e in s.table
  {
  }

  lemma TookOne(q: seq<EpId>, i: nat)
    requires Distinct(q) && i < |q|
    ensures Without(q, q[i]) == q[..i] + q[i + 1..]
  {
    WithoutAt(q, i);
  }

  lemma RmEpKeeps(s: Core, e: EpId, prompt: set<EpId>)
    requires Structure(s)
    ensures Structure(RmEp(s, e, prompt))
    ensures var t := RmEp(s, e, prompt);
            t == s.(eps := t.eps, sdeps := t.sdeps, events := t.events, table := t.table)
    ensures if e in s.eps then OneAskedToStop(s, RmEp(s, e, prompt), e, prompt) else RmEp(s, e, prompt) == s
  {
    if e in s.eps {
      WithoutIs(s.eps, e);
      MoveKeeps(s, e, Without(s.eps, e), prompt);
      hide Structure, StopEp, Without;
      var i :| 0 <= i < |s.eps| && s.eps[i] == e;
      TookOne(s.eps, i);
    }
  }

  /** A transport that was asked to stop reports, once. */
  lemma ReportKeeps(s: Core, e: EpId)
    requires Structure(s) && e in s.table && s.table[e].tran == Asked
    ensures Structure(Report(s, e))
    ensures var t := Report(s, e); t == s.(table := t.table, events := s.events + [EpAction(e)])
  {
    var t := Report(s, e);
    assert e in s.sdeps;
    forall i | 0 <= i < |s.events| ensures !TokenOf(s.events[i], e) {
      if TokenOf(s.events[i], e) { NoToken(s, e, s.events[i]); }
    }
    forall i | 0 <= i < |t.events| ensures EventOk(t, i) {
      if i < |s.events| {
        assert EventOk(s, i) && t.events[i] == s.events[i];
        if s.events[i].PipeReady? {
          var x := s.events[i].ep;
          if x == e { assert TokenOf(t.events[|s.events|], e); }
          else if s.table[x].tran == Reported { RaiseKeepsTokensAfter(s.events, EpAction(e), i, x); }
        }
      } else {
        assert Handshake(s, e);
      }
    }
    forall x | x in t.sdeps ensures Handshake(t, x) {
      assert Handshake(s, x);
      if x == e { assert t.events[|s.events|] == EpAction(e); }
    }
  }

  /** A pipe of an endpoint whose transport has not reported raises an event. */
  function RaisePipe(s: Core, e: EpId): Core { Raise(s, PipeReady(e)) }

  lemma RaisePipeKeeps(s: Core, e: EpId)
    requires Structure(s) && e in s.table && s.table[e].tran != Reported
    ensures Structure(RaisePipe(s, e))
    ensures RaisePipe(s, e) == s.(events := s.events + [PipeReady(e)])
  {
    var t := RaisePipe(s, e);
    forall i | 0 <= i < |t.events| ensures EventOk(t, i) {
      if i < |s.events| {
        assert EventOk(s, i) && t.events[i] == s.events[i];
        if s.events[i].PipeReady? && s.table[s.events[i].ep].tran == Reported {
          RaiseKeepsTokensAfter(s.events, PipeReady(e), i, s.events[i].ep);
        }
      }
    }
    forall x | x in t.sdeps ensures Handshake(t, x) { assert Handshake(s, x); }
  }

  function Pop(s: Core): Core
    requires s.events != []
  {
    s.(events := s.events[1..])
  }

  lemma PoppedTokens(s: Core, i: nat, e: EpId)
    requires s.events != [] && i + 1 < |s.events|
    ensures TokenAfter(Pop(s).events, i, e) <==> TokenAfter(s.events, i + 1, e)
  {
    if TokenAfter(s.events, i + 1, e) {
      var j :| i + 1 < j < |s.events| && TokenOf(s.events[j], e);
      assert Pop(s).events[j - 1] == s.events[j];
    }
    if TokenAfter(Pop(s).events, i, e) {
      var j :| i < j < |Pop(s).events| && TokenOf(Pop(s).events[j], e);
      assert Pop(s).events[j] == s.events[j + 1];
    }
  }

  lemma PoppedQueue(s: Core)
    requires Structure(s) && s.events != []
    ensures Queue(Pop(s))
    ensures forall i :: 0 <= i < |Pop(s).events| ==> !SameItem(s.events[0], Pop(s).events[i])
  {
    var p := Pop(s);
    forall i | 0 <= i < |p.events| ensures EventOk(p, i) && p.events[i] == s.events[i + 1] {
      assert EventOk(s, i + 1);
      if p.events[i].PipeReady? { PoppedTokens(s, i, p.events[i].ep); }
    }
  }

  lemma PoppedHandshake(s: Core, x: EpId)
    requires Structure(s) && s.events != [] && x in s.sdeps && !TokenOf(s.events[0], x)
    ensures Handshake(Pop(s), x)
  {
    assert Handshake(s, x);
    forall ev | ev in s.events && TokenOf(ev, x) ensures ev in Pop(s).events {
      var i :| 0 <= i < |s.events| && s.events[i] == ev;
      assert Pop(s).events[i - 1] == ev;
    }
  }

  lemma PopPipeKeeps(s: Core)
    requires Structure(s) && s.events != [] && s.events[0].PipeReady?
    ensures Structure(Pop(s))
  {
    PoppedQueue(s);
    forall x | x in s.sdeps ensures Handshake(Pop(s), x) { PoppedHandshake(s, x); }
  }

  /** The endpoint takes its NN_EP_ACTION_STOPPED and tells its socket. */
  lemma FeedEpKeeps(s: Core)
    requires Structure(s) && s.events != [] && s.events[0].EpAction?
    ensures Structure(FeedEp(Pop(s), s.events[0].ep))
    ensures var t := FeedEp(Pop(s), s.events[0].ep);
            t == s.(table := t.table, events := s.events[1..] + [EpStopped(s.events[0].ep)])
  {
    var e, p := s.events[0].ep, Pop(s);
    var t := FeedEp(p, e);
    assert EventOk(s, 0);
    PoppedQueue(s);
    assert SameItem(s.events[0], EpStopped(e));
    forall i | 0 <= i < |p.events| ensures !TokenOf(p.events[i], e) { }
    forall i | 0 <= i < |t.events| ensures EventOk(t, i) {
      if i < |p.events| {
        assert EventOk(p, i) && t.events[i] == p.events[i];
        if p.events[i].PipeReady? && p.table[p.events[i].ep].tran == Reported {
          RaiseKeepsTokensAfter(p.events, EpStopped(e), i, p.events[i].ep);
        }
      }
    }
    forall x | x in t.sdeps ensures Handshake(t, x) {
      if x == e { assert t.events[|p.events|] == EpStopped(e); }
      else { PoppedHandshake(s, x); }
    }
  }

  /** The socket takes NN_EP_STOPPED: the endpoint is freed and leaves sdeps. */
  lemma TermEpKeeps(s: Core)
    requires Structure(s) && s.events != [] && s.events[0].EpStopped?
    ensures var e, t := s.events[0].ep, TermEp(Pop(s), s.events[0].ep);
            Structure(t) && e in s.sdeps
            && t == s.(sdeps := Without(s.sdeps, e), events := s.events[1..],
                       table := s.table - {e}, terminated := s.terminated + [e])
  {
    var e, p := s.events[0].ep, Pop(s);
    var t := TermEp(p, e);
    assert EventOk(s, 0);
    PoppedQueue(s);
    WithoutIs(s.sdeps, e);
    forall i | 0 <= i < |p.events| ensures !TokenOf(p.events[i], e) {
      assert !SameItem(s.events[0], p.events[i]);
    }
    assert t == s.(sdeps := Without(s.sdeps, e), events := s.events[1..],
                   table := s.table - {e}, terminated := s.terminated + [e]);
    forall i | 0 <= i < |t.events| ensures EventOk(t, i) {
      assert EventOk(p, i);
      if p.events[i] == PipeReady(e) {
        assert !TokenAfter(p.events, i, e);
      }
    }
    forall x | x in t.sdeps ensures Handshake(t, x) { PoppedHandshake(s, x); }
  }

  lemma {:induction false} QuietWithoutEndpoints(s: Core)
    requires Structure(s) && s.eps == s.sdeps == []
    ensures s.state != Stopping || s.protocol != SaidStopped ==> s.events == []
    ensures |s.events| <= 1 && (s.events != [] ==> s.events == [ProtocolStopped])
  {
    forall i | 0 <= i < |s.events|
      ensures s.events[i] == ProtocolStopped && s.state == Stopping && s.protocol == SaidStopped
    {
      assert EventOk(s, i);
    }
    assert s.events != [] ==> s.events[0] == ProtocolStopped;
    assert |s.events| > 1 ==> SameItem(s.events[0], s.events[1]);
  }

  /** Label finish2: STOPPING is entered only with both lists empty. */
  lemma Finish2Keeps(s: Core, quick: bool)
    requires Structure(s) && s.state == StoppingEps && s.fsm == FsmStopping
    requires s.protocol == Serving && s.termsem == 0 && (s.sdeps == [] ==> s.eps == [])
    ensures Invariant(Finish2(s, quick))
    ensures var t := Finish2(s, quick);
            t == s.(state := t.state, protocol := t.protocol, termsem := t.termsem, events := t.events)
    ensures s.sdeps == [] <==> Finish2(s, quick).state != StoppingEps
    ensures s.sdeps == [] && s.hasStop ==>
              var t := Finish2(s, quick);
              && t.state == Stopping && t.protocol == (if quick then SaidStopped else AskedToStop)
              && t.events == (if quick then [ProtocolStopped] else [])
    ensures s.sdeps == [] && !s.hasStop ==> Finish2(s, quick).state == Fini && Finish2(s, quick).events == []
  {
    if s.sdeps == [] {
      QuietWithoutEndpoints(s);
      var t := Finish2(s, quick);
      assert t.events == if s.hasStop && quick then [ProtocolStopped] else [];
      hide OneList, OneEnd, Endpoints, Queue;
      QuietStructure(s, t);
    }
  }

  lemma QuietStructure(s: Core, t: Core)
    requires Structure(s) && s.eps == s.sdeps == []
    requires t == s.(state := t.state, protocol := t.protocol, termsem := t.termsem, events := t.events)
    requires t.events == [] || (t.events == [ProtocolStopped] && t.state == Stopping && t.protocol == SaidStopped)
    ensures Structure(t)
  {
  }

  /** The protocol reports, when asked, that it has stopped. */
  lemma ProtocolReportKeeps(s: Core)
    requires Invariant(s) && s.protocol == AskedToStop
    ensures Invariant(Raise(s.(protocol := SaidStopped), ProtocolStopped))
  {
    QuietWithoutEndpoints(s);
    QuietStructure(s, Raise(s.(protocol := SaidStopped), ProtocolStopped));
  }

  lemma StructureAcrossState(s: Core, t: Core)
    requires Structure(s) && s.state == Active
    requires t == s.(state := t.state, fsm := t.fsm)
    ensures Structure(t)
  {
    forall i | 0 <= i < |t.events| ensures EventOk(t, i) { assert EventOk(s, i); }
    forall x | x in t.sdeps ensures Handshake(t, x) { assert Handshake(s, x); }
  }

  /** nn_sock_stop keeps the invariant; afterwards the socket is stopping. */
  lemma StopSockKeeps(s: Core, prompt: set<EpId>, quick: bool)
    requires Invariant(s)
    ensures Invariant(StopSock(s, prompt, quick))
    ensures StopSock(s, prompt, quick).fsm == FsmStopping
    ensures s.fsm == FsmActive ==> (s.eps + s.sdeps == [] <==> StopSock(s, prompt, quick).state != StoppingEps)
    ensures s.fsm == FsmActive ==> AllAsked(s, StopSock(s, prompt, quick), prompt)
    ensures s.fsm == FsmActive && s.eps + s.sdeps != [] ==>
              StopSock(s, prompt, quick).events == s.events + ActionsOf(s.eps, prompt)
  {
    if s.fsm == FsmActive {
      var s1 := s.(fsm := FsmStopping);
      StructureAcrossState(s, s1);
      StopAllKeeps(s1, prompt);
      var s2 := StopAll(s1, prompt);
      StructureAcrossState(s2, s2.(state := StoppingEps));
      Finish2Keeps(s2.(state := StoppingEps), quick);
    }
  }

  /** Handling that event fails the assertion. */
  lemma Forgetting(s: Core, quick: bool)
    requires Invariant(s) && Forgets(s)
    ensures Process(s, quick).aborted
  {
    TermEpKeeps(s);
    WithoutIs(s.sdeps, s.events[0].ep);
  }

  /** Handling one event keeps the invariant: no assertion of the two state machines fails. */
  lemma ProcessKeeps(s: Core, quick: bool)
    requires Invariant(s) && s.events != [] && !Forgets(s)
    ensures Invariant(Process(s, quick))
    ensures Process(s, quick).fsm == s.fsm
  {
    assert EventOk(s, 0);
    if s.events[0].EpStopped? { StoppedKeeps(s, quick); } else { OtherKeeps(s, quick); }
  }

  lemma StoppedKeeps(s: Core, quick: bool)
    requires Invariant(s) && s.events != [] && !Forgets(s) && s.events[0].EpStopped?
    ensures Invariant(Process(s, quick))
  {
    var e := s.events[0].ep;
    assert EventOk(s, 0);
    TermEpKeeps(s);
    WithoutIs(s.sdeps, e);
    assert |s.sdeps| == 1 ==> s.sdeps == [e];
    hide Structure, TermEp;
    if s.state == StoppingEps { Finish2Keeps(TermEp(Pop(s), e), quick); }
  }

  lemma OtherKeeps(s: Core, quick: bool)
    requires Invariant(s) && s.events != [] && !s.events[0].EpStopped?
    ensures Invariant(Process(s, quick))
  {
    assert EventOk(s, 0);
    match s.events[0]
    case EpAction(e) =>
      FeedEpKeeps(s);
      if s.state == Stopping { QuietWithoutEndpoints(s); }
    case PipeReady(e) =>
      PopPipeKeeps(s);
      if s.state == Stopping { QuietWithoutEndpoints(s); }
    case ProtocolStopped =>
      QuietWithoutEndpoints(s);
      assert s.events == [ProtocolStopped];
  }

  /** An upper bound on the handlers a queue can still cause to run. */
  function Weight(ev: Event): nat {
    if ev.EpAction? then 3 else if ev.EpStopped? then 2 else 1
  }

  function QueueWeight(q: seq<Event>): (w: nat)
    ensures w == 0 <==> q == []
  {
    if q == [] then 0
    else Weight(q[0]) + QueueWeight(q[1..])
  }

  lemma {:induction false} QueueWeightOfRaise(q: seq<Event>, ev: Event)
    ensures QueueWeight(q + [ev]) == QueueWeight(q) + Weight(ev)
  {
    if q == [] {
      assert [] + [ev] == [ev];
    } else {
      QueueWeightOfRaise(q[1..], ev);
      assert (q + [ev])[1..] == q[1..] + [ev];
    }
  }

  lemma ProcessShrinks(s: Core, quick: bool)
    requires s.events != []
    ensures QueueWeight(Process(s, quick).events) < QueueWeight(s.events)
  {
    var ev, tail := s.events[0], s.events[1..];
    if ev.EpAction? { QueueWeightOfRaise(tail, EpStopped(ev.ep)); }
    if ev.EpStopped? { QueueWeightOfRaise(tail, ProtocolStopped); }
  }

  /** The loop of nn_ctx_leave: handle queued events until none is left. */
  function Drain(s: Core, quick: bool): (r: Core)
    ensures r.events == []
    decreases QueueWeight(s.events)
  {
    if s.events == [] then s
    else
      ProcessShrinks(s, quick);
      Drain(Process(s, quick), quick)
  }

  ghost predicate AllReported(s: Core) {
    forall e :: e in s.sdeps && e in s.table ==> s.table[e].tran != Asked
  }

  lemma ProcessKeepsReported(s: Core, quick: bool)
    requires Invariant(s) && s.events != [] && AllReported(s) && !Forgets(s)
    ensures AllReported(Process(s, quick))
  {
    assert EventOk(s, 0);
    match s.events[0]
    case EpAction(e) => FeedEpKeeps(s);
    case EpStopped(e) =>
      TermEpKeeps(s);
      WithoutIs(s.sdeps, e);
      assert |s.sdeps| == 1 ==> s.sdeps == [e];
      if s.state == StoppingEps { Finish2Keeps(TermEp(Pop(s), e), quick); }
    case PipeReady(e) =>
    case ProtocolStopped =>
  }

  /** The queue holds what makes the socket forget an active endpoint: it waits for stopping
      endpoints, they have all reported, and one is active. */
  ghost predicate Doomed(s: Core) { s.state == StoppingEps && s.eps != [] && AllReported(s) }

  lemma DoomedIsBusy(s: Core)
    requires Invariant(s) && Doomed(s)
    ensures s.events != []
  {
    assert Handshake(s, s.sdeps[0]);
  }

  /** An endpoint whose transport is still stopping stays so, and is not the one reported. */
  lemma UnreportedStays(s: Core, quick: bool, e: EpId)
    requires Invariant(s) && s.events != [] && e in s.sdeps && s.table[e].tran == Asked
    ensures !Forgets(s)
    ensures var t := Process(s, quick); e in t.sdeps && e in t.table && t.table[e].tran == Asked
  {
    assert EventOk(s, 0);
    match s.events[0]
    case EpAction(_) => FeedEpKeeps(s);
    case EpStopped(x) =>
      TermEpKeeps(s);
      WithoutIs(s.sdeps, x);
    case PipeReady(_) =>
    case ProtocolStopped =>
  }

  lemma DoomStays(s: Core, quick: bool)
    requires Invariant(s) && s.events != [] && !Forgets(s)
    ensures Doomed(Process(s, quick)) <==> Doomed(s)
  {
    ProcessKeeps(s, quick);
    ProcessFrame(s, quick);
    if Doomed(s) {
      ProcessKeepsReported(s, quick);
    } else if !AllReported(s) {
      var e :| e in s.sdeps && e in s.table && s.table[e].tran == Asked;
      UnreportedStays(s, quick, e);
    }
  }

  lemma {:induction false} DrainAborted(s: Core, quick: bool)
    requires s.aborted
    ensures Drain(s, quick).aborted
    decreases QueueWeight(s.events)
  {
    hide Process;
    if s.events == [] {
    } else {
      ProcessFrame(s, quick);
      ProcessShrinks(s, quick);
      DrainAborted(Process(s, quick), quick);
    }
  }

  /** Exactly when leaving the context with the queue as it is fails an assertion; otherwise it
      keeps the invariant. */
  lemma {:induction false} DrainKeeps(s: Core, quick: bool)
    requires Invariant(s)
    ensures if Doomed(s) then Drain(s, quick).aborted else Invariant(Drain(s, quick)) && Drain(s, quick).fsm == s.fsm
    decreases QueueWeight(s.events)
  {
    hide Invariant, Process, Doomed;
    if s.events == [] {
      if Doomed(s) { DoomedIsBusy(s); }
    } else {
      ProcessShrinks(s, quick);
      if Forgets(s) {
        ForgetsIsDoomed(s);
        Forgetting(s, quick);
        DrainAborted(Process(s, quick), quick);
      } else {
        ProcessKeeps(s, quick);
        DoomStays(s, quick);
        DrainKeeps(Process(s, quick), quick);
      }
    }
  }

  lemma ForgetsIsDoomed(s: Core)
    requires Invariant(s) && Forgets(s)
    ensures Doomed(s)
  {
    assert EventOk(s, 0);
  }

  lemma HasMember(q: seq<EpId>)
    ensures q == [] || exists e :: e in q
  {
    assert q == [] || q[0] in q;
  }

  /** Once every transport has reported, leaving the context finishes the shutdown: the
      socket is finalised unless its protocol has still to say that it has stopped. */
  lemma {:induction false} ShutdownEnds(s: Core, quick: bool)
    requires Invariant(s) && s.fsm == FsmStopping && s.eps == [] && AllReported(s)
    ensures var t := Drain(s, quick);
            t.sdeps == [] && t.eps == [] && t.table == map[]
            && (t.state == Fini || (t.state == Stopping && t.protocol == AskedToStop))
    decreases QueueWeight(s.events)
  {
    hide Invariant, Process, AllReported;
    if s.events == [] {
      NoneLeft(s);
    } else {
      ProcessKeeps(s, quick);
      ProcessFrame(s, quick);
      ProcessKeepsReported(s, quick);
      ProcessShrinks(s, quick);
      ShutdownEnds(Process(s, quick), quick);
    }
  }

  lemma NoneLeft(s: Core)
    requires Invariant(s) && s.fsm == FsmStopping && s.eps == [] && AllReported(s) && s.events == []
    ensures s.sdeps == [] && s.table == map[] && (s.state == Fini || (s.state == Stopping && s.protocol == AskedToStop))
  {
    HasMember(s.sdeps);
    assert forall e :: e !in s.table;
  }

  /** While an endpoint is being waited for and nothing is queued, some transport has been
      asked and has not reported: no stop is lost between the two state machines. */
  lemma StuckMeansUnreported(s: Core)
    requires Invariant(s) && s.fsm == FsmStopping && s.events == [] && s.state != Fini
    ensures (s.state == Stopping && s.protocol == AskedToStop)
         || (s.sdeps != [] && forall e :: e in s.sdeps ==> e in s.table && s.table[e].tran == Asked)
  {
    forall e | e in s.sdeps ensures e in s.table && s.table[e].tran == Asked { assert Handshake(s, e); }
  }
}
