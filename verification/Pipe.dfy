/** The pipe between a protocol and a transport (core/pipe.c).

    Sending and receiving are each a machine driven from both sides: the protocol calls
    nn_pipe_send, and the transport's send callback may call nn_pipebase_sent at once
    (`prompt`) or leave it for later.  A failed assertion is recorded in `aborted`. */
module Pipe {

  datatype State = Idle | Active | Failed

  /** An instate or outstate: DEACTIVATED, IDLE, SENDING/RECEIVING, SENT/RECEIVED, ASYNC. */
  datatype Way = Deactivated | Ready | Busy | Done | Async

  const RELEASE := 1
  const PARSED := 2

  /** One direction: the machine, its queued event, and the counts of events raised and of
      calls that returned RELEASE. */
  datatype Dir = Dir(way: Way, queued: bool, raised: nat, releases: nat)

  datatype Core = Core(state: State, rx: Dir, tx: Dir, aborted: bool)

  const OFF := Dir(Deactivated, false, 0, 0)

  const INIT := Core(Idle, OFF, OFF, false)

  function Abort(p: Core): Core { p.(aborted := true) }

  /** nn_fsm_raise of PIPE_IN or PIPE_OUT: the event structure must not be queued already. */
  predicate CanRaise(d: Dir) { !d.queued }

  function Raised(d: Dir): Dir { d.(queued := true, raised := d.raised + 1) }

  /** nn_pipebase_sent and nn_pipebase_received, on their direction; None is a failed assertion. */
  function Completed(d: Dir): (Dir, bool) {
    if d.way == Busy then (d.(way := Done), true)
    else if d.way != Async || !CanRaise(d) then (d, false)
    else (Raised(d.(way := Ready)), true)
  }

  /** nn_pipe_send and nn_pipe_recv, on their direction, with the value they return. */
  function Called(d: Dir, prompt: bool, rc: int): (Dir, int, bool) {
    if d.way != Ready then (d, rc, false)
    else if prompt then (d, rc, true)
    else (d.(way := Async, releases := d.releases + 1), rc + RELEASE, true)
  }

  /** nn_pipebase_start; the protocol may refuse the pipe. */
  function AfterStart(p: Core, accepted: bool): Core {
    if p.state != Idle then Abort(p)
    else
      var q := p.(state := Active, rx := p.rx.(way := Async), tx := p.tx.(way := Ready));
      if !accepted then q.(state := Failed)
      else if !CanRaise(q.tx) then Abort(q)
      else q.(tx := Raised(q.tx))
  }

  function AfterSent(p: Core): Core {
    if Completed(p.tx).1 then p.(tx := Completed(p.tx).0) else Abort(p)
  }

  function AfterReceived(p: Core): Core {
    if Completed(p.rx).1 then p.(rx := Completed(p.rx).0) else Abort(p)
  }

  function AfterSend(p: Core, prompt: bool, rc: int): Core {
    if Called(p.tx, prompt, rc).2 then p.(tx := Called(p.tx, prompt, rc).0) else Abort(p)
  }

  function AfterRecv(p: Core, prompt: bool, rc: int): Core {
    if Called(p.rx, prompt, rc).2 then p.(rx := Called(p.rx, prompt, rc).0) else Abort(p)
  }

  /** A pipe between its two users.  The protocol knows only the events delivered to it and
      the values returned to it; the transport knows which completions it still owes. */
  datatype World = World(
    pipe: Core,
    readable: bool,
    writable: bool,
    owesReceived: bool,
    owesSent: bool)

  datatype Step =
    | Start(accepted: bool)
    | Send(prompt: bool, rc: int)
    | Recv(prompt: bool, rc: int)
    | TransportSent
    | TransportReceived
    | DeliverOut
    | DeliverIn

  predicate Enabled(w: World, st: Step) {
    match st
    case Start(_) => w.pipe.state == Idle
    case Send(_, rc) => w.writable && (rc == 0 || rc == PARSED)
    case Recv(_, rc) => w.readable && (rc == 0 || rc == PARSED)
    case TransportSent => w.owesSent
    case TransportReceived => w.owesReceived
    case DeliverOut => w.pipe.tx.queued
    case DeliverIn => w.pipe.rx.queued
  }

  /** The protocol looks at the RELEASE bit of what a call returned. */
  predicate Released(rc: int) { rc % 2 == 1 }

  function Apply(w: World, st: Step): World
    requires Enabled(w, st)
  {
    var p := w.pipe;
    match st
    case Start(accepted) => w.(pipe := AfterStart(p, accepted), owesReceived := accepted)
    case Send(prompt, rc) =>
      var gone := Released(Called(p.tx, prompt, rc).1);
      w.(pipe := AfterSend(p, prompt, rc), writable := !gone, owesSent := gone)
    case Recv(prompt, rc) =>
      var gone := Released(Called(p.rx, prompt, rc).1);
      w.(pipe := AfterRecv(p, prompt, rc), readable := !gone, owesReceived := gone)
    case TransportSent => w.(pipe := AfterSent(p), owesSent := false)
    case TransportReceived => w.(pipe := AfterReceived(p), owesReceived := false)
    case DeliverOut => w.(pipe := p.(tx := p.tx.(queued := false)), writable := true)
    case DeliverIn => w.(pipe := p.(rx := p.rx.(queued := false)), readable := true)
  }

  predicate ValidRun(w: World, steps: seq<Step>)
    decreases |steps|
  {
    steps == [] || (Enabled(w, steps[0]) && ValidRun(Apply(w, steps[0]), steps[1..]))
  }

  function Run(w: World, steps: seq<Step>): World
    requires ValidRun(w, steps)
    decreases |steps|
  {
    if steps == [] then w else Run(Apply(w, steps[0]), steps[1..])
  }

  const FRESH := World(INIT, false, false, false, false)

  function One(b: bool): nat { if b then 1 else 0 }

  /** The turn is in one place: with the transport, in the event queue, or with the protocol. */
  ghost predicate OneTurn(d: Dir, owes: bool, able: bool) {
    && One(owes) + One(d.queued) + One(able) == 1
    && (d.way == Async <==> owes)
    && (d.way == Ready <==> !owes)
    && d.raised == d.releases + One(d.way == Ready)
  }

  ghost predicate Invariant(w: World) {
    && !w.pipe.aborted
    && (w.pipe.state == Active ==>
        OneTurn(w.pipe.tx, w.owesSent, w.writable) && OneTurn(w.pipe.rx, w.owesReceived, w.readable))
    && (w.pipe.state != Active ==>
        !w.owesSent && !w.writable && !w.owesReceived && !w.readable && !w.pipe.tx.queued && !w.pipe.rx.queued)
    && (w.pipe.state == Idle ==> w.pipe == INIT)
  }

  lemma StepKeeps(w: World, st: Step)
    requires Invariant(w) && Enabled(w, st)
    ensures Invariant(Apply(w, st))
  {
  }

  /** What a call returns in any run: the transport's result with its PARSED bit kept, and
      RELEASE added exactly when the transport has not completed the call inside it; the
      protocol then keeps its turn exactly when it was completed. */
  lemma ResultTells(steps: seq<Step>, prompt: bool, rc: int)
    requires ValidRun(FRESH, steps)
    ensures var w := Run(FRESH, steps);
            Enabled(w, Send(prompt, rc)) ==>
                && Called(w.pipe.tx, prompt, rc).1 == (if prompt then rc else rc + RELEASE)
                && Apply(w, Send(prompt, rc)).writable == prompt
                && Apply(w, Send(prompt, rc)).pipe.tx.way == if prompt then Ready else Async
    ensures var w := Run(FRESH, steps);
            Enabled(w, Recv(prompt, rc)) ==>
                && Called(w.pipe.rx, prompt, rc).1 == (if prompt then rc else rc + RELEASE)
                && Apply(w, Recv(prompt, rc)).readable == prompt
                && Apply(w, Recv(prompt, rc)).pipe.rx.way == if prompt then Ready else Async
  {
    RunKeeps(FRESH, steps);
  }

  lemma {:induction false} RunKeeps(w: World, steps: seq<Step>)
    requires Invariant(w) && ValidRun(w, steps)
    ensures Invariant(Run(w, steps))
    decreases |steps|
  {
    if steps == [] {
    } else {
      StepKeeps(w, steps[0]);
      RunKeeps(Apply(w, steps[0]), steps[1..]);
    }
  }

  /** In every run of a started pipe, whether completions come inside the call or after it:
      no assertion fails; PIPE_OUT events minus sends that returned RELEASE is 1 exactly in
      state IDLE and 0 exactly in state ASYNC, and likewise for receiving. */
  lemma WakeupsBalance(steps: seq<Step>)
    requires ValidRun(FRESH, steps)
    ensures var p := Run(FRESH, steps).pipe;
            && !p.aborted
            && (p.state == Active ==>
                  && (p.tx.raised - p.tx.releases == 1 <==> p.tx.way == Ready)
                  && (p.tx.raised - p.tx.releases == 0 <==> p.tx.way == Async)
                  && (p.rx.raised - p.rx.releases == 1 <==> p.rx.way == Ready)
                  && (p.rx.raised - p.rx.releases == 0 <==> p.rx.way == Async))
  {
    RunKeeps(FRESH, steps);
  }

  /** No wake-up is lost or duplicated: in each direction the turn is always in exactly one
      place, so the protocol can go on, or an event is on its way to it, or the transport
      still owes the completion that will raise one. */
  lemma NoWakeupLost(steps: seq<Step>)
    requires ValidRun(FRESH, steps) && Run(FRESH, steps).pipe.state == Active
    ensures var w := Run(FRESH, steps);
            && One(w.owesSent) + One(w.pipe.tx.queued) + One(w.writable) == 1
            && One(w.owesReceived) + One(w.pipe.rx.queued) + One(w.readable) == 1
  {
    RunKeeps(FRESH, steps);
  }
}
