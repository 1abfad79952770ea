/** The part of a socket that its context lock protects: the two endpoint lists, the
    endpoint records, the socket's own state machine and the queue of internal events
    (core/sock.c, core/ep.c, aio/fsm.c and the event loop of aio/ctx.c).

    Every function gives the state after one call, branch by branch as in the C code.  A
    failed nn_assert or nn_fsm_bad_* call is recorded in `aborted`, so that the absence of
    aborts is a theorem (module Lifetime) and not a precondition. */
module SocketCore {

  datatype FsmState = FsmIdle | FsmActive | FsmStopping

  datatype SockState = Init | Active | StoppingEps | Stopping | Fini

  datatype EpState = EpIdle | EpActive | EpStopping

  /** How far a transport has got with its endpoint. */
  datatype Transport = Running | Asked | Reported

  /** How far the scalability protocol has got with the socket's stop request. */
  datatype Protocol = Serving | AskedToStop | SaidStopped | Destroyed

  datatype Ep = Ep(state: EpState, fsm: FsmState, tran: Transport)

  type EpId = nat

  /** Internal events.  EpAction is nn_ep_stopped's event to the endpoint itself,
      EpStopped the endpoint's NN_EP_STOPPED to its socket; both use the same
      fsm.stopped structure of the endpoint. */
  datatype Event =
    | EpAction(ep: EpId)
    | EpStopped(ep: EpId)
    | ProtocolStopped
    | PipeReady(ep: EpId)

  datatype Core = Core(
    hasStop: bool,
    state: SockState,
    fsm: FsmState,
    eps: seq<EpId>,
    sdeps: seq<EpId>,
    table: map<EpId, Ep>,
    eid: EpId,
    events: seq<Event>,
    protocol: Protocol,
    termsem: nat,
    terminated: seq<EpId>,
    aborted: bool)

  /** A freshly launched socket, as nn_sock_init leaves it. */
  function Launched(hasStop: bool): Core {
    Core(hasStop, Active, FsmActive, [], [], map[], 1, [], Serving, 0, [], false)
  }

  function Abort(s: Core): Core { s.(aborted := true) }

  /** The event belongs to the fsm.stopped structure of endpoint e. */
  predicate TokenOf(ev: Event, e: EpId) { ev == EpAction(e) || ev == EpStopped(e) }

  /** The two events occupy the same queue item. */
  predicate SameItem(a: Event, b: Event) {
    (a == ProtocolStopped && b == ProtocolStopped)
    || ((a.EpAction? || a.EpStopped?) && TokenOf(b, a.ep))
  }

  /** The queue item that ev occupies is in the queue. */
  predicate Queued(q: seq<Event>, ev: Event) { exists i | 0 <= i < |q| :: SameItem(q[i], ev) }

  /** The fsm.stopped structure of endpoint e is in the queue. */
  predicate TokenQueued(q: seq<Event>, e: EpId) { exists i | 0 <= i < |q| :: TokenOf(q[i], e) }

  /** nn_ctx_raise: nn_queue_push insists that the item is in no queue. */
  function Raise(s: Core, ev: Event): (r: Core)
    ensures r == s.(events := r.events, aborted := r.aborted) && (s.aborted ==> r.aborted)
  {
    if Queued(s.events, ev) then Abort(s)
    else s.(events := s.events + [ev])
  }

  /** nn_list_erase of a known item. */
  function Without(q: seq<EpId>, e: EpId): seq<EpId> {
    if q == [] then [] else if q[0] == e then q[1..] else [q[0]] + Without(q[1..], e)
  }

  /** nn_ep_stopped, called by the transport when it has finished stopping. */
  function Report(s: Core, e: EpId): Core {
    if e !in s.table then Abort(s)
    else Raise(s.(table := s.table[e := s.table[e].(tran := Reported)]), EpAction(e))
  }

  /** nn_ep_stop.  The transports in `prompt` report from inside their stop callback. */
  function StopEp(s: Core, e: EpId, prompt: set<EpId>): (r: Core)
    ensures r == s.(table := r.table, events := r.events, aborted := r.aborted)
    ensures r.table.Keys == s.table.Keys && (s.aborted ==> r.aborted)
  {
    if e !in s.table then Abort(s)
    else if s.table[e].fsm != FsmActive then s
    else
      var s1 := s.(table := s.table[e := s.table[e].(fsm := FsmStopping, tran := Asked)]);
      var s2 := if e in prompt then Report(s1, e) else s1;
      s2.(table := s2.table[e := s2.table[e].(state := EpStopping)])
  }

  /** nn_sock_add_ep; a transport that refuses the address leaves no trace. */
  function AddEp(s: Core, accepted: bool): Core {
    if !accepted then s
    else s.(eps := s.eps + [s.eid], eid := s.eid + 1,
            table := s.table[s.eid := Ep(EpActive, FsmActive, Running)])
  }

  /** nn_sock_rm_ep; an unknown endpoint is -EINVAL and changes nothing. */
  function RmEp(s: Core, e: EpId, prompt: set<EpId>): Core {
    if e !in s.eps then s
    else StopEp(s.(eps := Without(s.eps, e), sdeps := s.sdeps + [e]), e, prompt)
  }

  /** The loop of nn_sock_shutdown that asks every active endpoint to stop. */
  function StopAll(s: Core, prompt: set<EpId>): (r: Core)
    ensures r == s.(eps := [], sdeps := s.sdeps + s.eps, table := r.table, events := r.events, aborted := r.aborted)
    ensures s.aborted ==> r.aborted
    decreases |s.eps|
  {
    assert s.sdeps + [] == s.sdeps;
    assert s.eps != [] ==> s.sdeps + [s.eps[0]] + s.eps[1..] == s.sdeps + s.eps;
    if s.eps == [] then s
    else StopAll(StopEp(s.(eps := s.eps[1..], sdeps := s.sdeps + [s.eps[0]]), s.eps[0], prompt), prompt)
  }

  /** Label finish1 of nn_sock_shutdown. */
  function Finish1(s: Core): Core {
    s.(protocol := Destroyed, state := Fini, termsem := s.termsem + 1)
  }

  /** Label finish2 of nn_sock_shutdown; `quick` says that the protocol's stop callback
      calls nn_sockbase_stopped at once. */
  function Finish2(s: Core, quick: bool): (r: Core)
    ensures r == s.(state := r.state, protocol := r.protocol, termsem := r.termsem, events := r.events,
                    aborted := r.aborted)
    ensures r.termsem >= s.termsem && (s.aborted ==> r.aborted) && (r.state == StoppingEps ==> s.state == StoppingEps)
  {
    if s.sdeps != [] then s
    else if s.eps != [] then Abort(s)
    else
      var s1 := s.(state := Stopping);
      if !s.hasStop then Finish1(s1)
      else if quick then Raise(s1.(protocol := SaidStopped), ProtocolStopped)
      else s1.(protocol := AskedToStop)
  }

  /** nn_sock_stop: nn_fsm_stop and the NN_FSM_STOP branch of nn_sock_shutdown. */
  function StopSock(s: Core, prompt: set<EpId>, quick: bool): Core {
    if s.fsm != FsmActive then s
    else
      var s1 := s.(fsm := FsmStopping);
      if s1.state != Active then Abort(s1)
      else Finish2(StopAll(s1, prompt).(state := StoppingEps), quick)
  }

  /** Erase the endpoint from sdeps, nn_ep_term it and free it; the checks are those of
      nn_list_erase, nn_ep_term and nn_fsm_term. */
  function TermEp(s: Core, e: EpId): (r: Core)
    ensures r == s.(sdeps := r.sdeps, table := r.table, terminated := r.terminated, aborted := r.aborted)
    ensures s.aborted ==> r.aborted
  {
    if e !in s.sdeps || e !in s.table then Abort(s)
    else
      var s1 := s.(sdeps := Without(s.sdeps, e));
      if s.table[e].state != EpIdle || s.table[e].fsm != FsmIdle || e in s.eps
         || TokenQueued(s.events, e) then Abort(s1)
      else s1.(table := s.table - {e}, terminated := s.terminated + [e])
  }

  /** nn_sock_handler on an event (the socket's own fsm is not stopping). */
  function Handler(s: Core, ev: Event): Core {
    if s.state != Active then Abort(s)
    else match ev
      case EpStopped(e) => TermEp(s, e)
      case PipeReady(_) => s
      case _ => Abort(s)
  }

  /** nn_sock_shutdown on an event. */
  function Shutdown(s: Core, ev: Event, quick: bool): Core {
    match s.state
    case StoppingEps => if ev.EpStopped? then Finish2(TermEp(s, ev.ep), quick) else s
    case Stopping => if ev == ProtocolStopped then Finish1(s) else Abort(s)
    case _ => Abort(s)
  }

  /** nn_ep_handler and nn_ep_shutdown on the endpoint's own NN_EP_ACTION_STOPPED. */
  function FeedEp(s: Core, e: EpId): (r: Core)
    ensures r == s.(table := r.table, events := r.events, aborted := r.aborted) && (s.aborted ==> r.aborted)
  {
    if e !in s.table || s.table[e].fsm != FsmStopping || s.table[e].state != EpStopping then Abort(s)
    else Raise(s.(table := s.table[e := s.table[e].(state := EpIdle, fsm := FsmIdle)]), EpStopped(e))
  }

  /** nn_fsm_event_process of the event at the head of the queue. */
  function Process(s: Core, quick: bool): (r: Core)
    requires s.events != []
    ensures || r.events == s.events[1..]
            || (s.events[0].EpAction? && r.events == s.events[1..] + [EpStopped(s.events[0].ep)])
            || (s.events[0].EpStopped? && r.events == s.events[1..] + [ProtocolStopped])
  {
    var ev, s1 := s.events[0], s.(events := s.events[1..]);
    if ev.EpAction? then FeedEp(s1, ev.ep)
    else if s.fsm != FsmStopping then Handler(s1, ev)
    else Shutdown(s1, ev, quick)
  }

  /** What handling an event never touches. */
  lemma ProcessFrame(s: Core, quick: bool)
    requires s.events != []
    ensures var r := Process(s, quick);
            && r.eps == s.eps && r.fsm == s.fsm && r.termsem >= s.termsem && (s.aborted ==> r.aborted)
            && (r.state == StoppingEps ==> s.state == StoppingEps)
  {
    hide Raise, TermEp, Finish2, FeedEp, Shutdown;
    ShutdownFrame(s.(events := s.events[1..]), s.events[0], quick);
  }

  lemma ShutdownFrame(s: Core, ev: Event, quick: bool)
    ensures var r := Shutdown(s, ev, quick);
            && r.eps == s.eps && r.fsm == s.fsm && r.termsem >= s.termsem && (s.aborted ==> r.aborted)
            && (r.state == StoppingEps ==> s.state == StoppingEps)
  {
    hide Raise, TermEp, Finish2;
  }
}
