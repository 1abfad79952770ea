/** The pipe as the C code holds it (core/pipe.c): its two events are items of the context's
    queue, whose own marks answer the assertion of nn_queue_push, and the transport's callback
    runs inside nn_pipe_send and nn_pipe_recv. */
module PipeObject {
  import opened Queue
  import opened Util
  import P = Pipe

  class Pipebase {
    var state: P.State
    var instate: P.Way
    var outstate: P.Way
    /** The events NN_PIPE_IN and NN_PIPE_OUT, and the context's queue. */
    const input: Item
    const output: Item
    const events: Fifo
    var aborted: bool
    /** Events raised and calls that returned RELEASE, and what the protocol and the transport
        know of the pipe. */
    ghost var ins: nat
    ghost var outs: nat
    ghost var inReleases: nat
    ghost var outReleases: nat
    ghost var readable: bool
    ghost var writable: bool
    ghost var owesReceived: bool
    ghost var owesSent: bool

    ghost function Items(): set<Item> { {input, output} }

    ghost predicate Shaped()
      reads this, events, Items()
    {
      input != output && (forall x :: x in events.items ==> x == input || x == output)
      && World({events}, Items())
    }

    ghost function View(): P.Core
      reads this, input, output
    {
      P.Core(state, P.Dir(instate, !input.notInQueue, ins, inReleases),
          P.Dir(outstate, !output.notInQueue, outs, outReleases), aborted)
    }

    ghost function Users(): P.World
      reads this, input, output
    {
      P.World(View(), readable, writable, owesReceived, owesSent)
    }

    /** What every step of its users keeps. */
    ghost predicate Valid()
      reads this, events, Items()
    {
      Shaped() && P.Invariant(Users())
    }

    /** nn_pipebase_init. */
    constructor (events: Fifo)
      requires events.Valid() && events.items == []
      ensures Valid() && Users() == P.FRESH && this.events == events && fresh(input) && fresh(output)
    {
      this.events := events;
      state, instate, outstate, aborted := P.Idle, P.Deactivated, P.Deactivated, false;
      ins, outs, inReleases, outReleases := 0, 0, 0, 0;
      readable, writable, owesReceived, owesSent := false, false, false, false;
      input := new Item();
      output := new Item();
      new;
      EmptyWorld({events}, Items());
    }

    /** nn_fsm_raise of one of the two events: the assertion is the event's own mark. */
    method Raise(x: Item)
      requires Shaped() && (x == input || x == output)
      modifies this`aborted, events, Items()
      ensures Shaped() && !x.notInQueue && aborted == (old(aborted) || !old(x.notInQueue))
      ensures var y := if x == input then output else input; y.notInQueue == old(y.notInQueue)
    {
      hide World;
      var y := if x == input then output else input;
      if !x.notInQueue { aborted := true; return; }
      MarkIs(events, Items(), x);
      MarkIs(events, Items(), y);
      assert forall z :: z in events.items ==> z in Items();
      PushIn(events, x, {events}, Items());
      MarkIs(events, Items(), x);
      MarkIs(events, Items(), y);
    }

    /** nn_pipebase_start. */
    method Start(accepted: bool)
      requires Shaped()
      modifies this`state, this`instate, this`outstate, this`aborted, this`outs, events, Items()
      ensures Shaped() && View() == P.AfterStart(old(View()), accepted)
    {
      hide World;
      if state != P.Idle { aborted := true; return; }
      state, instate, outstate := P.Active, P.Async, P.Ready;
      if !accepted { state := P.Failed; return; }
      if output.notInQueue { outs := outs + 1; }
      Raise(output);
    }

    /** nn_pipebase_sent: inside the call it is only noted, after it it raises the event. */
    method Sent()
      requires Shaped()
      modifies this`outstate, this`aborted, this`outs, events, Items()
      ensures Shaped() && View() == P.AfterSent(old(View()))
    {
      hide World;
      if outstate == P.Busy { outstate := P.Done; return; }
      if outstate != P.Async || !output.notInQueue { aborted := true; return; }
      outstate := P.Ready;
      outs := outs + 1;
      Raise(output);
    }

    /** nn_pipebase_received. */
    method Received()
      requires Shaped()
      modifies this`instate, this`aborted, this`ins, events, Items()
      ensures Shaped() && View() == P.AfterReceived(old(View()))
    {
      hide World;
      if instate == P.Busy { instate := P.Done; return; }
      if instate != P.Async || !input.notInQueue { aborted := true; return; }
      instate := P.Ready;
      ins := ins + 1;
      Raise(input);
    }

    /** nn_pipe_send; a prompt transport calls nn_pipebase_sent from its send callback. */
    method Send(prompt: bool, rc: int) returns (r: int)
      requires Shaped()
      modifies this`outstate, this`aborted, this`outs, this`outReleases, events, Items()
      ensures Shaped() && View() == P.AfterSend(old(View()), prompt, rc)
      ensures r == P.Called(old(View()).tx, prompt, rc).1
    {
      hide World;
      if outstate != P.Ready { aborted := true; return rc; }
      outstate := P.Busy;
      if prompt { Sent(); }
      if outstate == P.Done { outstate := P.Ready; return rc; }
      outstate, outReleases := P.Async, outReleases + 1;
      return rc + P.RELEASE;
    }

    /** nn_pipe_recv. */
    method Recv(prompt: bool, rc: int) returns (r: int)
      requires Shaped()
      modifies this`instate, this`aborted, this`ins, this`inReleases, events, Items()
      ensures Shaped() && View() == P.AfterRecv(old(View()), prompt, rc)
      ensures r == P.Called(old(View()).rx, prompt, rc).1
    {
      hide World;
      if instate != P.Ready { aborted := true; return rc; }
      instate := P.Busy;
      if prompt { Received(); }
      if instate == P.Done { instate := P.Ready; return rc; }
      instate, inReleases := P.Async, inReleases + 1;
      return rc + P.RELEASE;
    }

    /** The context hands the next event to the protocol. */
    method Deliver() returns (x: Item)
      requires Shaped() && events.items != []
      modifies events, Items()
      ensures Shaped() && (x == input || x == output) && !old(x.notInQueue) && x.notInQueue
      ensures var y := if x == input then output else input; y.notInQueue == old(y.notInQueue)
    {
      hide World;
      MarkIs(events, Items(), input);
      MarkIs(events, Items(), output);
      ghost var q := events.items;
      assert q[0] in q && forall z :: z in q ==> z in Items();
      x := PopIn(events, {events}, Items());
      MarkIs(events, Items(), input);
      MarkIs(events, Items(), output);
      TailOf(q);
    }

    // The steps of its users: whatever they do, the turn stays in one place in each direction
    // and no assertion fails.

    /** The pipe starts, if the protocol accepts it. */
    method Begins(accepted: bool)
      requires Valid() && P.Enabled(Users(), P.Start(accepted))
      modifies this, events, Items()
      ensures Valid() && Users() == P.Apply(old(Users()), P.Start(accepted)) && !aborted
    {
      hide World, P.Invariant, P.Apply, P.Enabled, P.AfterStart;
      Kept(Users(), P.Start(accepted));
      Starts(Users(), accepted);
      Start(accepted);
      owesReceived := accepted;
    }

    /** The protocol sends, and learns from the result whether it may go on. */
    method ProtocolSends(prompt: bool, rc: int) returns (r: int)
      requires Valid() && P.Enabled(Users(), P.Send(prompt, rc))
      modifies this, events, Items()
      ensures Valid() && Users() == P.Apply(old(Users()), P.Send(prompt, rc)) && !aborted
      ensures r == (if prompt then rc else rc + P.RELEASE) && writable == prompt && owesSent == !prompt
    {
      hide World, P.Invariant, P.Apply, P.Enabled, P.AfterSend, P.Called, P.Released;
      Kept(Users(), P.Send(prompt, rc));
      Sends(Users(), prompt, rc);
      r := Send(prompt, rc);
      writable, owesSent := !P.Released(r), P.Released(r);
    }

    /** The protocol receives, likewise. */
    method ProtocolReceives(prompt: bool, rc: int) returns (r: int)
      requires Valid() && P.Enabled(Users(), P.Recv(prompt, rc))
      modifies this, events, Items()
      ensures Valid() && Users() == P.Apply(old(Users()), P.Recv(prompt, rc)) && !aborted
      ensures r == (if prompt then rc else rc + P.RELEASE) && readable == prompt && owesReceived == !prompt
    {
      hide World, P.Invariant, P.Apply, P.Enabled, P.AfterRecv, P.Called, P.Released;
      Kept(Users(), P.Recv(prompt, rc));
      Receives(Users(), prompt, rc);
      r := Recv(prompt, rc);
      readable, owesReceived := !P.Released(r), P.Released(r);
    }

    /** The transport reports a completion it still owed. */
    method TransportHasSent()
      requires Valid() && P.Enabled(Users(), P.TransportSent)
      modifies this, events, Items()
      ensures Valid() && Users() == P.Apply(old(Users()), P.TransportSent) && !aborted
    {
      hide World, P.Invariant, P.Apply, P.Enabled, P.AfterSent;
      Kept(Users(), P.TransportSent);
      Completions(Users());
      Sent();
      owesSent := false;
    }

    /** The transport reports a message it still owed. */
    method TransportHasReceived()
      requires Valid() && P.Enabled(Users(), P.TransportReceived)
      modifies this, events, Items()
      ensures Valid() && Users() == P.Apply(old(Users()), P.TransportReceived) && !aborted
    {
      hide World, P.Invariant, P.Apply, P.Enabled, P.AfterReceived;
      Kept(Users(), P.TransportReceived);
      Completions(Users());
      Received();
      owesReceived := false;
    }

    /** A delivery is the protocol's turn. */
    method TakeEvent()
      requires Valid() && events.items != []
      modifies this, events, Items()
      ensures Valid() && !aborted
      ensures var w := old(Users());
              (w.pipe.tx.queued && Users() == P.Apply(w, P.DeliverOut)) ||
                  (w.pipe.rx.queued && Users() == P.Apply(w, P.DeliverIn))
    {
      ghost var w := Users();
      hide World, P.Invariant;
      var x := Deliver();
      if x == output {
        writable := true;
        Kept(w, P.DeliverOut);
      } else {
        readable := true;
        Kept(w, P.DeliverIn);
      }
    }
  }

  lemma Kept(w: P.World, st: P.Step)
    requires P.Invariant(w) && P.Enabled(w, st)
    ensures P.Invariant(P.Apply(w, st)) && !P.Apply(w, st).pipe.aborted
  {
    P.StepKeeps(w, st);
  }

  // What each step does to the users' view of the pipe.

  lemma Starts(w: P.World, accepted: bool)
    requires P.Enabled(w, P.Start(accepted))
    ensures P.Apply(w, P.Start(accepted)) == w.(pipe := P.AfterStart(w.pipe, accepted), owesReceived := accepted)
  {
  }

  lemma Sends(w: P.World, prompt: bool, rc: int)
    requires P.Enabled(w, P.Send(prompt, rc))
    ensures P.Invariant(w) ==> P.Called(w.pipe.tx, prompt, rc).1 == if prompt then rc else rc + P.RELEASE
    ensures !P.Released(rc) && P.Released(rc + P.RELEASE)
    ensures var gone := P.Released(P.Called(w.pipe.tx, prompt, rc).1);
            P.Apply(w, P.Send(prompt, rc)) ==
                w.(pipe := P.AfterSend(w.pipe, prompt, rc), writable := !gone, owesSent := gone)
  {
  }

  lemma Receives(w: P.World, prompt: bool, rc: int)
    requires P.Enabled(w, P.Recv(prompt, rc))
    ensures P.Invariant(w) ==> P.Called(w.pipe.rx, prompt, rc).1 == if prompt then rc else rc + P.RELEASE
    ensures !P.Released(rc) && P.Released(rc + P.RELEASE)
    ensures var gone := P.Released(P.Called(w.pipe.rx, prompt, rc).1);
            P.Apply(w, P.Recv(prompt, rc)) ==
                w.(pipe := P.AfterRecv(w.pipe, prompt, rc), readable := !gone, owesReceived := gone)
  {
  }

  lemma Completions(w: P.World)
    ensures P.Enabled(w, P.TransportSent) ==>
              P.Apply(w, P.TransportSent) == w.(pipe := P.AfterSent(w.pipe), owesSent := false)
    ensures P.Enabled(w, P.TransportReceived) ==>
              P.Apply(w, P.TransportReceived) == w.(pipe := P.AfterReceived(w.pipe), owesReceived := false)
  {
  }
}
