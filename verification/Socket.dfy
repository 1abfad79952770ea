/** struct nn_sock as the C code holds it (core/sock.c, core/ep.c, aio/ctx.c): endpoints are
    objects that embed an item for the two lists and an event for the queue, and what the C code
    asserts of an item is asked of the item's own mark.  Each method is tied to the function of
    module SocketCore that the interleaving proofs of module Lifetime use. */
module Socket {
  import opened CoreInvariant
  import opened SocketCore
  import opened Util
  import L = List
  import Q = Queue

  const EBADF := 9

  /** struct nn_ep: its list item, the fsm.stopped event of its state machine, and how far its
      transport has got with it. */
  class Endpoint {
    const eid: EpId
    const item: L.Item
    const stopped: Q.Item
    var state: EpState
    var fsm: FsmState
    var tran: Transport

    /** nn_ep_init, started. */
    constructor (eid: EpId)
      ensures this.eid == eid && state == EpActive && fsm == FsmActive && tran == Running
      ensures fresh(item) && fresh(stopped) && item.notInList && stopped.notInQueue
    {
      this.eid, state, fsm, tran := eid, EpActive, FsmActive, Running;
      item := new L.Item();
      stopped := new Q.Item();
    }
  }

  /** The endpoint ids of a list of items, by nn_cont. */
  ghost function Ids(cont: map<L.Item, EpId>, q: seq<L.Item>): (r: seq<EpId>)
    ensures |r| == |q| && forall i :: 0 <= i < |q| ==> r[i] == if q[i] in cont then cont[q[i]] else 0
  {
    seq(|q|, i requires 0 <= i < |q| => if q[i] in cont then cont[q[i]] else 0)
  }

  /** What the queued event structures hold. */
  ghost function Kinds(kind: map<Q.Item, Event>, q: seq<Q.Item>): (r: seq<Event>)
    ensures |r| == |q| && forall i :: 0 <= i < |q| ==> r[i] == if q[i] in kind then kind[q[i]] else ProtocolStopped
  {
    seq(|q|, i requires 0 <= i < |q| => if q[i] in kind then kind[q[i]] else ProtocolStopped)
  }

  /** Every unfreed endpoint embeds one list item, and every list item is in one of them. */
  ghost predicate ItemsEmbedded(table: map<EpId, Endpoint>, cont: map<L.Item, EpId>) {
    && (forall e :: e in table ==> table[e].eid == e && table[e].item in cont && cont[table[e].item] == e)
    && (forall x :: x in cont ==> cont[x] in table && table[cont[x]].item == x)
  }

  /** The stopped event of an endpoint is its own structure, and so is that of the socket. */
  ghost predicate EventsEmbedded(table: map<EpId, Endpoint>, kind: map<Q.Item, Event>, own: Q.Item) {
    && (forall e :: e in table ==> table[e].stopped in kind && TokenOf(kind[table[e].stopped], e))
    && (forall x :: x in kind && (kind[x].EpAction? || kind[x].EpStopped?) ==>
        kind[x].ep in table && table[kind[x].ep].stopped == x)
    && own in kind && (forall x :: x in kind ==> (kind[x] == ProtocolStopped <==> x == own))
  }

  /** x is the event structure that ev is raised with. */
  ghost predicate StructOf(table: map<EpId, Endpoint>, kind: map<Q.Item, Event>, own: Q.Item, x: Q.Item, ev: Event) {
    && x in kind
    && match ev
       case EpAction(e) => e in table && x == table[e].stopped
       case EpStopped(e) => e in table && x == table[e].stopped
       case ProtocolStopped => x == own
       case PipeReady(_) => kind[x].PipeReady?
  }

  /** The specification sees the event in the queue just when its structure is in it. */
  lemma SeenIn(table: map<EpId, Endpoint>, kind: map<Q.Item, Event>, own: Q.Item, q: seq<Q.Item>, x: Q.Item, ev: Event)
    requires EventsEmbedded(table, kind, own) && StructOf(table, kind, own, x, ev) && (ev.PipeReady? ==> x !in q)
    requires forall y :: y in q ==> y in kind
    ensures Queued(Kinds(kind, q), ev) <==> x in q
  {
    var v := Kinds(kind, q);
    if x in q {
      var i :| 0 <= i < |q| && q[i] == x;
      assert SameItem(v[i], ev);
    }
    forall i | 0 <= i < |q| && SameItem(v[i], ev) ensures q[i] == x {
      assert q[i] in q;
    }
  }

  lemma NothingEmbedded(own: Q.Item)
    ensures ItemsEmbedded(map[], map[]) && EventsEmbedded(map[], map[own := ProtocolStopped], own)
  {
  }

  /** Raising writes the structure, and nothing else changes its part. */
  lemma StillEmbedded(table: map<EpId, Endpoint>, kind: map<Q.Item, Event>, own: Q.Item, x: Q.Item, ev: Event)
    requires EventsEmbedded(table, kind, own) && StructOf(table, kind, own, x, ev)
    ensures EventsEmbedded(table, kind[x := ev], own) && kind[x := ev].Keys == kind.Keys
  {
  }

  class Sock {
    const hasStop: bool
    var state: SockState
    var fsm: FsmState
    const eps: L.LinkedList
    const sdeps: L.LinkedList
    /** The endpoints not yet freed, and the one a list item is embedded in (nn_cont). */
    var table: map<EpId, Endpoint>
    var cont: map<L.Item, EpId>
    var eid: EpId
    /** The queue of the context, what each event structure holds, and the socket's own. */
    const events: Q.Fifo
    var kind: map<Q.Item, Event>
    const stopped: Q.Item
    var protocol: Protocol
    var termsem: nat
    ghost var terminated: seq<EpId>
    var aborted: bool
    var holds: int
    var relesem: nat

    ghost function Lists(): set<L.LinkedList> { {eps, sdeps} }

    /** The lists and the queue are well linked, and the marks tell membership. */
    ghost predicate Shaped()
      reads this, Lists(), cont.Keys, events, kind.Keys
    {
      eps != sdeps && ItemsEmbedded(table, cont) && EventsEmbedded(table, kind, stopped) &&
          L.World(Lists(), cont.Keys) && Q.World({events}, kind.Keys)
    }

    ghost function Records(): map<EpId, Ep>
      reads this, table.Values
    {
      map e | e in table :: Ep(table[e].state, table[e].fsm, table[e].tran)
    }

    ghost function View(): Core
      reads this, eps, sdeps, events, table.Values
    {
      Core(hasStop, state, fsm, Ids(cont, eps.items), Ids(cont, sdeps.items), Records(), eid,
           Kinds(kind, events.items), protocol, termsem, terminated, aborted)
    }

    /** nn_sock_init, in a context whose queue is empty. */
    constructor (hasStop: bool)
      ensures Shaped() && View() == Launched(hasStop) && holds == 1 && relesem == 0
      ensures fresh(eps) && fresh(sdeps) && fresh(events) && fresh(kind.Keys) && cont == map[] && table == map[]
    {
      hide L.World, Q.World, ItemsEmbedded, EventsEmbedded;
      this.hasStop := hasStop;
      state, fsm := Active, FsmActive;
      eps := new L.LinkedList();
      sdeps := new L.LinkedList();
      events := new Q.Fifo();
      var own := new Q.Item();
      stopped, kind := own, map[own := ProtocolStopped];
      table, cont, eid := map[], map[], 1;
      protocol, termsem, terminated, aborted := Serving, 0, [], false;
      holds, relesem := 1, 0;
      new;
      Q.EmptyWorld({events}, kind.Keys);
      L.EmptyWorld(Lists(), cont.Keys);
      NothingEmbedded(stopped);
    }

    /** nn_sock_hold. */
    method Hold() returns (rc: int)
      requires Shaped()
      modifies this`holds
      ensures Shaped() && View() == old(View())
      ensures rc == if state == Active || state == Init then 0 else -EBADF
      ensures holds == if rc == 0 then old(holds) + 1 else old(holds)
    {
      hide L.World, Q.World, ItemsEmbedded, EventsEmbedded;
      match state {
        case Active => holds := holds + 1; return 0;
        case Init => holds := holds + 1; return 0;
        case _ => return -EBADF;
      }
    }

    /** nn_sock_rele. */
    method Rele()
      requires Shaped()
      modifies this`holds, this`relesem
      ensures Shaped() && View() == old(View())
      ensures holds == old(holds) - 1
      ensures relesem == if holds == 0 then old(relesem) + 1 else old(relesem)
    {
      hide L.World, Q.World, ItemsEmbedded, EventsEmbedded;
      holds := holds - 1;
      if holds == 0 { relesem := relesem + 1; }
    }

    /** A check fails. */
    method Fail()
      requires Shaped()
      modifies this`aborted
      ensures Shaped() && View() == Abort(old(View())) && aborted
    {
      hide L.World, Q.World, ItemsEmbedded, EventsEmbedded;
      aborted := true;
    }

    /** nn_ctx_raise: the assertion of nn_queue_push is the event's own mark. */
    method RaiseEvent(x: Q.Item, ev: Event)
      requires Shaped() && x in kind && StructOf(table, kind, stopped, x, ev) && (ev.PipeReady? ==> x.notInQueue)
      modifies this`kind, this`aborted, events, kind.Keys
      ensures Shaped() && View() == Raise(old(View()), ev) && kind.Keys == old(kind.Keys)
    {
      hide L.World, Q.World, ItemsEmbedded, EventsEmbedded, Queued, StructOf;
      SeenBy(x, ev);
      if !x.notInQueue { Fail(); return; }
      PushEvent(x, ev);
    }

    /** nn_queue_push of an event structure that is free. */
    method PushEvent(x: Q.Item, ev: Event)
      requires Shaped() && x in kind && StructOf(table, kind, stopped, x, ev) && x.notInQueue
      modifies this`kind, events, kind.Keys
      ensures Shaped() && View() == old(View()).(events := old(View()).events + [ev]) && kind.Keys == old(kind.Keys)
    {
      hide L.World, Q.World, ItemsEmbedded, EventsEmbedded, StructOf;
      Q.MarkIs(events, kind.Keys, x);
      QueueKnown();
      StillEmbedded(table, kind, stopped, x, ev);
      Pushed(kind, events.items, x, ev);
      Q.PushIn(events, x, {events}, kind.Keys);
      assert L.World(Lists(), cont.Keys);
      kind := kind[x := ev];
    }

    lemma QueueKnown()
      requires Q.World({events}, kind.Keys)
      ensures forall y :: y in events.items ==> y in kind.Keys
    {
    }

    lemma SeenBy(x: Q.Item, ev: Event)
      requires Shaped() && x in kind && StructOf(table, kind, stopped, x, ev) && (ev.PipeReady? ==> x.notInQueue)
      ensures Queued(View().events, ev) <==> !x.notInQueue
    {
      hide L.World, Q.World, ItemsEmbedded, EventsEmbedded, Queued, StructOf;
      Q.MarkIs(events, kind.Keys, x);
      QueueKnown();
      SeenIn(table, kind, stopped, events.items, x, ev);
    }

    lemma EidIs(e: EpId)
      requires Shaped() && e in table
      ensures table[e].eid == e
    {
    }

    /** The fields of one endpoint; the endpoints are apart, so no other record changes. */
    method Update(ep: Endpoint, state': EpState, fsm': FsmState, tran': Transport)
      requires Shaped() && ep.eid in table && table[ep.eid] == ep
      modifies ep
      ensures Shaped() && View() == old(View()).(table := old(View()).table[ep.eid := Ep(state', fsm', tran')])
      ensures ep.state == state' && ep.fsm == fsm' && ep.tran == tran'
    {
      hide L.World, Q.World, ItemsEmbedded, EventsEmbedded;
      EndpointsApart(table, cont, ep);
      Rewrite(ep, state', fsm', tran');
    }

    method Rewrite(ep: Endpoint, state': EpState, fsm': FsmState, tran': Transport)
      requires ep.eid in table && forall e :: e in table && e != ep.eid ==> table[e] != ep
      requires table[ep.eid] == ep
      modifies ep
      ensures Records() == old(Records())[ep.eid := Ep(state', fsm', tran')]
      ensures ep.state == state' && ep.fsm == fsm' && ep.tran == tran'
    {
      ep.state, ep.fsm, ep.tran := state', fsm', tran';
    }

    /** nn_ep_stopped, called by the transport when it has finished stopping. */
    method ReportStopped(ep: Endpoint)
      requires Shaped() && ep.eid in table && table[ep.eid] == ep
      modifies this`kind, this`aborted, events, kind.Keys, ep
      ensures Shaped() && View() == Report(old(View()), ep.eid) && kind.Keys == old(kind.Keys)
      ensures ep.state == old(ep.state) && ep.fsm == old(ep.fsm) && ep.tran == Reported
    {
      hide L.World, Q.World, ItemsEmbedded, Queued;
      OwnStruct(ep);
      hide EventsEmbedded, StructOf;
      Update(ep, ep.state, ep.fsm, Reported);
      RaiseEvent(ep.stopped, EpAction(ep.eid));
    }

    lemma OwnStruct(ep: Endpoint)
      requires Shaped() && ep.eid in table && table[ep.eid] == ep
      ensures ep.stopped in kind
      ensures StructOf(table, kind, stopped, ep.stopped, EpAction(ep.eid))
      ensures StructOf(table, kind, stopped, ep.stopped, EpStopped(ep.eid))
    {
    }

    /** nn_ep_stop; a transport in `prompt` reports from inside its stop callback. */
    method StopEndpoint(ep: Endpoint, prompt: set<EpId>)
      requires Shaped() && ep.eid in table && table[ep.eid] == ep
      modifies this`kind, this`aborted, events, kind.Keys, ep
      ensures Shaped() && View() == StopEp(old(View()), ep.eid, prompt) && kind.Keys == old(kind.Keys)
    {
      hide L.World, Q.World, ItemsEmbedded, EventsEmbedded, Queued, Raise;
      if ep.fsm != FsmActive { return; }
      Update(ep, ep.state, FsmStopping, Asked);
      if ep.eid in prompt { ReportStopped(ep); }
      Update(ep, EpStopping, ep.fsm, ep.tran);
    }

    /** nn_list_erase of an endpoint's item from one of the two lists. */
    method Erase(l: L.LinkedList, ep: Endpoint) returns (ghost k: nat)
      requires Shaped() && l in Lists() && ep.item in cont && cont[ep.item] == ep.eid && ep.item in l.items
      modifies l, l.items
      ensures Shaped() && ep.item.notInList
      ensures k < |old(l.items)| && old(l.items)[k] == ep.item && l.items == old(l.items)[..k] + old(l.items)[k + 1..]
      ensures Ids(cont, l.items) == Without(old(Ids(cont, l.items)), ep.eid) && Records() == old(Records())
    {
      hide L.World, Q.World, EventsEmbedded, ItemsEmbedded, Without;
      ghost var q, records := l.items, Records();
      ListsKnown();
      var succ;
      succ, k := L.EraseIn(l, ep.item, Lists(), cont.Keys);
      assert Records() == records;
      assert Q.World({events}, kind.Keys);
      ErasedIds(table, cont, q, k);
    }

    /** nn_list_insert of an endpoint's item at the end of one of the two lists. */
    method Append(l: L.LinkedList, ep: Endpoint)
      requires Shaped() && l in Lists() && ep.item in cont && cont[ep.item] == ep.eid && ep.item.notInList
      modifies l, l.items, ep.item
      ensures Shaped() && l.items == old(l.items) + [ep.item]
      ensures Ids(cont, l.items) == old(Ids(cont, l.items)) + [ep.eid] && Records() == old(Records())
    {
      hide L.World, Q.World, EventsEmbedded, ItemsEmbedded, Without;
      ghost var p := l.items;
      AppendedIds(cont, p, ep.item);
      var k := L.InsertIn(l, ep.item, null, Lists(), cont.Keys);
      assert Q.World({events}, kind.Keys);
      assert l.items == p + [ep.item];
    }

    /** From eps to the end of sdeps. */
    method Move(ep: Endpoint) returns (ghost k: nat)
      requires Shaped() && ep.item in cont && cont[ep.item] == ep.eid && ep.item in eps.items
      modifies eps, sdeps, cont.Keys
      ensures Shaped()
      ensures Ids(cont, eps.items) == Without(old(Ids(cont, eps.items)), ep.eid)
      ensures Ids(cont, sdeps.items) == old(Ids(cont, sdeps.items)) + [ep.eid] && Records() == old(Records())
      ensures k < |old(eps.items)| && old(eps.items)[k] == ep.item
      ensures eps.items == old(eps.items)[..k] + old(eps.items)[k + 1..]
    {
      hide L.World, Q.World, EventsEmbedded, ItemsEmbedded, Without;
      ListsKnown();
      k := Erase(eps, ep);
      ListsKnown();
      Append(sdeps, ep);
    }

    lemma ListsKnown()
      requires L.World(Lists(), cont.Keys)
      ensures forall x :: x in eps.items ==> x in cont.Keys
      ensures forall x :: x in sdeps.items ==> x in cont.Keys
      ensures eps.Valid() && sdeps.Valid()
      ensures forall x :: x in eps.items ==> x !in sdeps.items || eps == sdeps
    {
    }

    /** The search loop of nn_sock_rm_ep. */
    method FindEndpoint(id: EpId) returns (ep: Endpoint?)
      requires Shaped()
      ensures ep == null <==> id !in View().eps
      ensures ep != null ==>
          ep.eid == id && id in table && table[id] == ep && ep.item in eps.items && ep.item in cont &&
              cont[ep.item] == id
    {
      hide L.World, Q.World, EventsEmbedded;
      ListsKnown();
      var it := eps.first;
      ghost var k := 0;
      while it != null && table[cont[it]].eid != id
        invariant 0 <= k <= |eps.items| && it == (if k == |eps.items| then null else eps.items[k])
        invariant it != null ==> it in cont && cont[it] in table
        invariant id !in Ids(cont, eps.items)[..k]
        decreases |eps.items| - k
      {
        it := it.next;
        k := k + 1;
        assert Ids(cont, eps.items)[..k] == Ids(cont, eps.items)[..k - 1] + [Ids(cont, eps.items)[k - 1]];
        assert k < |eps.items| ==> eps.items[k] in eps.items;
      }
      if it == null {
        assert Ids(cont, eps.items)[..k] == Ids(cont, eps.items);
        return null;
      }
      ep := table[cont[it]];
      assert Ids(cont, eps.items)[k] == id;
    }

    /** nn_sock_rm_ep: the endpoint moves to sdeps and is asked to stop. */
    method RemoveEndpoint(id: EpId, prompt: set<EpId>) returns (rc: int)
      requires Shaped()
      modifies this`kind, this`aborted, eps, sdeps, cont.Keys, events, kind.Keys, table.Values
      ensures rc == if id in old(View()).eps then 0 else -EINVAL
      ensures Shaped() && View() == RmEp(old(View()), id, prompt)
      ensures Structure(old(View())) ==>
                && Structure(View())
                && (if rc == 0 then OneAskedToStop(old(View()), View(), id, prompt) else View() == old(View()))
    {
      hide L.World, Q.World, ItemsEmbedded, EventsEmbedded, StopEp, Without, Structure, OneAskedToStop;
      ListsKnown();
      if Structure(View()) { RmEpKeeps(View(), id, prompt); }
      var ep := FindEndpoint(id);
      if ep == null { return -EINVAL; }
      ghost var at := Move(ep);
      StopEndpoint(ep, prompt);
      return 0;
    }

    /** nn_sock_add_ep: the new endpoint is started and goes to the end of eps, whatever the
        state of the socket; one that the transport refuses is freed again. */
    method AddEndpoint(accepted: bool, refusal: int) returns (rc: int)
      requires Shaped() && Structure(View())
      modifies this`table, this`cont, this`kind, this`eid, eps, cont.Keys
      ensures Shaped() && View() == AddEp(old(View()), accepted) && Structure(View())
      ensures if accepted then OneMoreActive(old(View()), View()) else View() == old(View())
      ensures if accepted then rc == old(eid) && rc in table && fresh(table[rc]) else rc == refusal
    {
      hide L.World, Q.World, EventsEmbedded, ItemsEmbedded, Structure, OneMoreActive;
      AddEpKeeps(View(), accepted);
      if !accepted { return refusal; }
      NewId(View());
      StartEndpoint();
      rc := eid;
      eid := eid + 1;
    }

    /** nn_ep_init, nn_ep_start and nn_list_insert. */
    method StartEndpoint()
      requires Shaped() && eid !in table
      modifies this`table, this`cont, this`kind, eps, cont.Keys
      ensures Shaped() && View() == AddEp(old(View()), true).(eid := eid) && eid in table && fresh(table[eid])
    {
      hide L.World, Q.World, EventsEmbedded, ItemsEmbedded;
      var ep := NewEndpoint();
      ghost var v := View();
      Append(eps, ep);
      assert View() == v.(eps := v.eps + [eid]);
    }

    method NewEndpoint() returns (ep: Endpoint)
      requires Shaped() && eid !in table
      modifies this`table, this`cont, this`kind
      ensures Shaped() && View() == old(View()).(table := old(View()).table[eid := Ep(EpActive, FsmActive, Running)])
      ensures fresh(ep) && ep.eid == eid && table == old(table)[eid := ep]
      ensures fresh(ep.item) && cont == old(cont)[ep.item := eid] && ep.item.notInList
      ensures forall x :: x in eps.items ==> x in old(cont)
    {
      hide L.World, Q.World, EventsEmbedded, ItemsEmbedded;
      ListsKnown();
      ep := new Endpoint(eid);
      assert View() == old(View());
      Embed(ep);
    }

    /** A new endpoint brings its list item and its event structure. */
    method Embed(ep: Endpoint)
      requires Shaped() && ep.eid !in table && ep.item !in cont && ep.stopped !in kind && ep.item.notInList
      requires ep.stopped.notInQueue
      requires forall x :: x in eps.items + sdeps.items ==> x in cont
      modifies this`table, this`cont, this`kind
      ensures Shaped() && table == old(table)[ep.eid := ep] && cont == old(cont)[ep.item := ep.eid]
      ensures View() == old(View()).(table := old(View()).table[ep.eid := Ep(ep.state, ep.fsm, ep.tran)])
    {
      hide L.World, Q.World, EventsEmbedded, ItemsEmbedded;
      Growth(ep);
      table, cont, kind := table[ep.eid := ep], cont[ep.item := ep.eid], kind[ep.stopped := EpStopped(ep.eid)];
      assert Records() == old(Records())[ep.eid := Ep(ep.state, ep.fsm, ep.tran)];
    }

    /** With the new structures the lists and the queue are as well linked, and stand for the same. */
    lemma Growth(ep: Endpoint)
      requires Shaped() && ep.eid !in table && ep.item !in cont && ep.stopped !in kind && ep.item.notInList
      requires ep.stopped.notInQueue
      requires forall x :: x in eps.items + sdeps.items ==> x in cont
      ensures ItemsEmbedded(table[ep.eid := ep], cont[ep.item := ep.eid])
      ensures EventsEmbedded(table[ep.eid := ep], kind[ep.stopped := EpStopped(ep.eid)], stopped)
      ensures L.World(Lists(), cont[ep.item := ep.eid].Keys)
      ensures Q.World({events}, kind[ep.stopped := EpStopped(ep.eid)].Keys)
      ensures Ids(cont[ep.item := ep.eid], eps.items) == Ids(cont, eps.items)
      ensures Ids(cont[ep.item := ep.eid], sdeps.items) == Ids(cont, sdeps.items)
      ensures Kinds(kind[ep.stopped := EpStopped(ep.eid)], events.items) == Kinds(kind, events.items)
    {
      hide L.World, Q.World, EventsEmbedded, ItemsEmbedded;
      Embedded(table, cont, kind, stopped, ep);
      L.Joined(Lists(), cont.Keys, ep.item);
      Q.Joined({events}, kind.Keys, ep.stopped);
      QueueKnown();
      assert cont[ep.item := ep.eid].Keys == cont.Keys + {ep.item};
      assert kind[ep.stopped := EpStopped(ep.eid)].Keys == kind.Keys + {ep.stopped};
      SameIds(cont, eps.items, ep.item, ep.eid);
      SameIds(cont, sdeps.items, ep.item, ep.eid);
      SameKinds(kind, events.items, ep.stopped, EpStopped(ep.eid));
    }

    /** A pipe of endpoint e brings two event structures of its own, NN_PIPE_IN and NN_PIPE_OUT. */
    method NewPipe(e: EpId) returns (input: Q.Item, output: Q.Item)
      requires Shaped()
      modifies this`kind
      ensures Shaped() && View() == old(View()) && input != output
      ensures kind == old(kind)[input := PipeReady(e)][output := PipeReady(e)]
      ensures fresh(input) && fresh(output) && input.notInQueue && output.notInQueue
    {
      hide L.World, Q.World, EventsEmbedded, ItemsEmbedded;
      input := NewEvent(e);
      output := NewEvent(e);
    }

    /** nn_fsm_event_init of an event of a pipe. */
    method NewEvent(e: EpId) returns (x: Q.Item)
      requires Shaped()
      modifies this`kind
      ensures Shaped() && View() == old(View()) && fresh(x) && kind == old(kind)[x := PipeReady(e)] && x.notInQueue
    {
      hide L.World, Q.World, EventsEmbedded, ItemsEmbedded;
      x := new Q.Item();
      Q.Joined({events}, kind.Keys, x);
      QueueKnown();
      assert kind[x := PipeReady(e)].Keys == kind.Keys + {x};
      SameKinds(kind, events.items, x, PipeReady(e));
      PipeEmbedded(table, kind, stopped, x, e);
      kind := kind[x := PipeReady(e)];
    }

    /** Label finish2 of nn_sock_shutdown. */
    method Finish(quick: bool)
      requires Shaped()
      modifies this`state, this`protocol, this`kind, this`termsem, this`aborted, events, kind.Keys
      ensures Shaped() && View() == Finish2(old(View()), quick) && kind.Keys == old(kind.Keys)
    {
      hide L.World, Q.World, ItemsEmbedded, EventsEmbedded, Raise;
      ListsKnown();
      if sdeps.first != null { return; }
      if eps.first != null { Fail(); return; }
      state := Stopping;
      assert View() == old(View()).(state := Stopping);
      if !hasStop { Destroy(); } else { AskProtocol(quick); }
    }

    /** Label finish1. */
    method Destroy()
      requires Shaped()
      modifies this`state, this`protocol, this`termsem
      ensures Shaped() && View() == Finish1(old(View()))
    {
      hide L.World, Q.World, ItemsEmbedded, EventsEmbedded;
      protocol, state, termsem := Destroyed, Fini, termsem + 1;
    }

    /** The protocol's stop callback; a quick one calls nn_sockbase_stopped at once. */
    method AskProtocol(quick: bool)
      requires Shaped()
      modifies this`protocol, this`kind, this`aborted, events, kind.Keys
      ensures Shaped() && kind.Keys == old(kind.Keys)
      ensures View() == if quick then Raise(old(View()).(protocol := SaidStopped), ProtocolStopped)
          else old(View()).(protocol := AskedToStop)
    {
      hide L.World, Q.World, ItemsEmbedded, EventsEmbedded, Raise;
      if quick { ProtocolHasStopped(); } else { protocol := AskedToStop; }
    }

    /** nn_sockbase_stopped: the socket's own event structure. */
    method ProtocolHasStopped()
      requires Shaped()
      modifies this`protocol, this`kind, this`aborted, events, kind.Keys
      ensures Shaped() && kind.Keys == old(kind.Keys)
      ensures View() == Raise(old(View()).(protocol := SaidStopped), ProtocolStopped)
    {
      hide L.World, Q.World, ItemsEmbedded, Raise;
      OwnEvent();
      hide EventsEmbedded, StructOf;
      protocol := SaidStopped;
      assert View() == old(View()).(protocol := SaidStopped);
      RaiseEvent(stopped, ProtocolStopped);
    }

    lemma OwnEvent()
      requires Shaped()
      ensures stopped in kind && StructOf(table, kind, stopped, stopped, ProtocolStopped)
    {
    }

    /** The loop of nn_sock_shutdown: it walks eps while it empties it. */
    method StopEndpoints(prompt: set<EpId>)
      requires Shaped()
      modifies this`kind, this`aborted, eps, sdeps, cont.Keys, events, kind.Keys, table.Values
      ensures Shaped() && View() == StopAll(old(View()), prompt) && kind.Keys == old(kind.Keys)
    {
      hide L.World, Q.World, EventsEmbedded, StopEp, Without, StopAll;
      ListsKnown();
      var it := eps.first;
      while it != null
        invariant Shaped() && it == (if eps.items == [] then null else eps.items[0]) && kind.Keys == old(kind.Keys)
        invariant StopAll(View(), prompt) == StopAll(old(View()), prompt)
        decreases |eps.items|
      {
        it := StopFirst(prompt);
      }
      NothingToStop(View(), prompt);
    }

    /** One turn of that loop: the successor is taken before the endpoint moves. */
    method StopFirst(prompt: set<EpId>) returns (it: L.Item?)
      requires Shaped() && eps.items != []
      modifies this`kind, this`aborted, eps, sdeps, cont.Keys, events, kind.Keys, table.Values
      ensures Shaped() && StopAll(View(), prompt) == StopAll(old(View()), prompt) && kind.Keys == old(kind.Keys)
      ensures |eps.items| < old(|eps.items|) && it == (if eps.items == [] then null else eps.items[0])
    {
      hide L.World, Q.World, EventsEmbedded, StopEp, Without, StopAll;
      ListsKnown();
      var first := eps.first;
      assert eps.items[0] in eps.items;
      var ep := table[cont[first]];
      it := first.next;
      ghost var v := View();
      assert v.eps[0] == ep.eid;
      ghost var k := Move(ep);
      FirstOut(v.eps);
      assert View() == v.(eps := v.eps[1..], sdeps := v.sdeps + [v.eps[0]]);
      StopEndpoint(ep, prompt);
      OneStopped(v, prompt);
    }

    /** nn_sock_stop: nn_fsm_stop and the NN_FSM_STOP branch of nn_sock_shutdown. */
    method Stop(prompt: set<EpId>, quick: bool)
      requires Shaped()
      modifies this`fsm, this`state, this`protocol, this`termsem, this`kind, this`aborted
      modifies eps, sdeps, cont.Keys, events, kind.Keys, table.Values
      ensures Shaped() && View() == StopSock(old(View()), prompt, quick)
      ensures Invariant(old(View())) ==>
                Invariant(View()) && (old(fsm) == FsmActive ==> AllAsked(old(View()), View(), prompt))
    {
      hide L.World, Q.World, ItemsEmbedded, EventsEmbedded, StopAll, Finish2, Invariant, AllAsked;
      if Invariant(View()) { StopSockKeeps(View(), prompt, quick); }
      if fsm != FsmActive { return; }
      fsm := FsmStopping;
      assert View() == old(View()).(fsm := FsmStopping);
      if state != Active { Fail(); return; }
      ShutDown(prompt, quick);
    }

    /** The rest of that branch: stop the endpoints, go to label finish2. */
    method ShutDown(prompt: set<EpId>, quick: bool)
      requires Shaped()
      modifies this`state, this`protocol, this`termsem, this`kind, this`aborted
      modifies eps, sdeps, cont.Keys, events, kind.Keys, table.Values
      ensures Shaped() && View() == Finish2(StopAll(old(View()), prompt).(state := StoppingEps), quick)
    {
      hide L.World, Q.World, ItemsEmbedded, EventsEmbedded, StopAll, Finish2;
      StopEndpoints(prompt);
      state := StoppingEps;
      assert View() == StopAll(old(View()), prompt).(state := StoppingEps);
      Finish(quick);
    }

    lemma ItemOf(ep: Endpoint)
      requires Shaped() && ep.eid in table && table[ep.eid] == ep
      ensures ep.item in cont && cont[ep.item] == ep.eid
    {
    }

    /** The heap of the socket lost structures and gained none. */
    twostate predicate Shrunk()
      reads this
    {
      cont.Keys <= old(cont.Keys) && kind.Keys <= old(kind.Keys) && table.Values <= old(table.Values)
    }

    /** Erase from sdeps, where nn_list_erase asserts that the item is in a list, and free. */
    method TermEndpoint(ep: Endpoint)
      requires Shaped() && ep.eid in table && table[ep.eid] == ep && ep.eid !in View().eps
      modifies this`table, this`cont, this`kind, this`terminated, this`aborted, sdeps, cont.Keys
      ensures Shaped() && View() == TermEp(old(View()), ep.eid) && Shrunk()
    {
      hide L.World, Q.World, ItemsEmbedded, EventsEmbedded, Without, TokenQueued;
      ItemOf(ep);
      ListsKnown();
      Listed(ep);
      if ep.item.notInList { Fail(); return; }
      ghost var k := Erase(sdeps, ep);
      assert View() == old(View()).(sdeps := Without(old(View()).sdeps, ep.eid));
      assert View().table == old(View()).table && View().table[ep.eid] == Ep(ep.state, ep.fsm, ep.tran);
      TermAndFree(ep);
    }

    /** nn_ep_term, with the checks of nn_list_item_term and nn_fsm_term, and nn_free. */
    method TermAndFree(ep: Endpoint)
      requires Shaped() && ep.eid in table && table[ep.eid] == ep && ep.item.notInList
      modifies this`table, this`cont, this`kind, this`terminated, this`aborted
      ensures Shaped() && Shrunk()
      ensures var v := old(View());
              View() == if ep.state != EpIdle || ep.fsm != FsmIdle || TokenQueued(v.events, ep.eid) then Abort(v)
                        else v.(table := v.table - {ep.eid}, terminated := v.terminated + [ep.eid])
    {
      hide L.World, Q.World, ItemsEmbedded, EventsEmbedded, StructOf, Queued, TokenQueued;
      ItemOf(ep);
      OwnStruct(ep);
      TokenIs(View().events, ep.eid);
      SeenBy(ep.stopped, EpStopped(ep.eid));
      if ep.state != EpIdle || !ep.item.notInList || ep.fsm != FsmIdle || !ep.stopped.notInQueue { Fail(); return; }
      Free(ep);
    }

    /** The endpoint's structures leave the heap. */
    method Free(ep: Endpoint)
      requires Shaped() && ep.eid in table && table[ep.eid] == ep && ep.item in cont && ep.stopped in kind
      requires ep.item.notInList && ep.stopped.notInQueue
      modifies this`table, this`cont, this`kind, this`terminated
      ensures Shaped() && Shrunk()
      ensures var was := old(View());
              View() == was.(table := was.table - {ep.eid}, terminated := was.terminated + [ep.eid])
    {
      hide L.World, Q.World, ItemsEmbedded, EventsEmbedded;
      Loss(ep);
      table, cont, kind, terminated := table - {ep.eid}, cont - {ep.item}, kind - {ep.stopped}, terminated + [ep.eid];
      assert Records() == old(Records()) - {ep.eid};
    }

    /** Without the structures of an unlinked endpoint the lists and the queue stand for the same. */
    lemma Loss(ep: Endpoint)
      requires Shaped() && ep.eid in table && table[ep.eid] == ep && ep.item in cont && ep.stopped in kind
      requires ep.item.notInList && ep.stopped.notInQueue
      ensures ItemsEmbedded(table - {ep.eid}, cont - {ep.item})
      ensures EventsEmbedded(table - {ep.eid}, kind - {ep.stopped}, stopped)
      ensures L.World(Lists(), (cont - {ep.item}).Keys) && Q.World({events}, (kind - {ep.stopped}).Keys)
      ensures Ids(cont - {ep.item}, eps.items) == Ids(cont, eps.items)
      ensures Ids(cont - {ep.item}, sdeps.items) == Ids(cont, sdeps.items)
      ensures Kinds(kind - {ep.stopped}, events.items) == Kinds(kind, events.items)
    {
      hide L.World, Q.World, ItemsEmbedded, EventsEmbedded;
      Freed(table, cont, kind, stopped, ep);
      L.Left(Lists(), cont.Keys, ep.item);
      Q.Left({events}, kind.Keys, ep.stopped);
      assert (cont - {ep.item}).Keys == cont.Keys - {ep.item};
      assert (kind - {ep.stopped}).Keys == kind.Keys - {ep.stopped};
      assert Ids(cont - {ep.item}, eps.items) == Ids(cont, eps.items);
      assert Ids(cont - {ep.item}, sdeps.items) == Ids(cont, sdeps.items);
      assert Kinds(kind - {ep.stopped}, events.items) == Kinds(kind, events.items);
      assert eps in Lists() && sdeps in Lists();
    }

    /** The item of an endpoint that is not on eps is marked as in a list when it is on sdeps. */
    lemma Listed(ep: Endpoint)
      requires Shaped() && ep.eid in table && table[ep.eid] == ep && ep.eid !in View().eps
      requires ep.item in cont && cont[ep.item] == ep.eid
      ensures ep.eid in View().sdeps <==> !ep.item.notInList
      ensures ep.item in sdeps.items <==> !ep.item.notInList
    {
      hide L.World, Q.World, ItemsEmbedded, EventsEmbedded;
      ListsKnown();
      InIds(table, cont, eps.items, ep);
      InIds(table, cont, sdeps.items, ep);
      L.Marked(Lists(), cont.Keys, ep.item);
    }

    /** nn_ep_handler and nn_ep_shutdown on the endpoint's own NN_EP_ACTION_STOPPED. */
    method FeedEndpoint(ep: Endpoint)
      requires Shaped() && ep.eid in table && table[ep.eid] == ep
      modifies this`kind, this`aborted, events, kind.Keys, ep
      ensures Shaped() && View() == FeedEp(old(View()), ep.eid) && kind.Keys == old(kind.Keys)
    {
      hide L.World, Q.World, ItemsEmbedded, EventsEmbedded, StructOf, Raise;
      if ep.fsm != FsmStopping || ep.state != EpStopping { Fail(); return; }
      Update(ep, EpIdle, FsmIdle, ep.tran);
      OwnStruct(ep);
      RaiseEvent(ep.stopped, EpStopped(ep.eid));
    }

    /** nn_sock_handler on an event, which for a stopped endpoint comes with its pointer. */
    method Handle(ev: Event, ep: Endpoint?)
      requires Shaped() && (ev.EpStopped? ==> Stopped(ev.ep, ep))
      modifies this`table, this`cont, this`kind, this`terminated, this`aborted, sdeps, cont.Keys
      ensures Shaped() && View() == Handler(old(View()), ev) && Shrunk()
    {
      hide L.World, Q.World, ItemsEmbedded, EventsEmbedded, TermEp;
      if state != Active { Fail(); return; }
      match ev {
        case EpStopped(_) => TermEndpoint(ep);
        case PipeReady(_) =>
        case _ => Fail();
      }
    }

    /** ep is endpoint e, which has left eps. */
    ghost predicate Stopped(e: EpId, ep: Endpoint?)
      reads this, eps
    {
      e in table && table[e] == ep && ep.eid == e && e !in Ids(cont, eps.items)
    }

    /** nn_sock_shutdown on an event. */
    method HandleShutdown(ev: Event, ep: Endpoint?, quick: bool)
      requires Shaped() && (ev.EpStopped? ==> Stopped(ev.ep, ep))
      modifies this, sdeps, cont.Keys, events, kind.Keys
      ensures Shaped() && View() == Shutdown(old(View()), ev, quick) && Shrunk()
      ensures holds == old(holds) && relesem == old(relesem)
    {
      hide L.World, Q.World, ItemsEmbedded, EventsEmbedded, TermEp, Finish2;
      match state {
        case StoppingEps =>
          if ev.EpStopped? { LastStep(ep, quick); }
        case Stopping =>
          if ev == ProtocolStopped { Destroy(); } else { Fail(); }
        case _ =>
          Fail();
      }
    }

    /** A stopped endpoint while the socket waits for them: free it, go to label finish2. */
    method LastStep(ep: Endpoint, quick: bool)
      requires Shaped() && Stopped(ep.eid, ep)
      modifies this, sdeps, cont.Keys, events, kind.Keys
      ensures Shaped() && View() == Finish2(TermEp(old(View()), ep.eid), quick) && Shrunk()
      ensures holds == old(holds) && relesem == old(relesem)
    {
      hide L.World, Q.World, ItemsEmbedded, EventsEmbedded, TermEp, Finish2;
      TermEndpoint(ep);
      assert View() == TermEp(old(View()), ep.eid);
      Finish(quick);
    }

    lemma Owner(x: Q.Item)
      requires Shaped() && x in kind && (kind[x].EpAction? || kind[x].EpStopped?)
      ensures kind[x].ep in table && table[kind[x].ep].eid == kind[x].ep
    {
    }

    /** nn_queue_pop, and what the popped structure holds. */
    method PopEvent() returns (ev: Event, ep: Endpoint?)
      requires Shaped() && Structure(View()) && events.items != []
      modifies events, kind.Keys
      ensures Shaped() && ev == old(View()).events[0] && View() == old(View()).(events := old(View()).events[1..])
      ensures ev.EpAction? ==> ev.ep in table && table[ev.ep] == ep && ep.eid == ev.ep
      ensures ev.EpStopped? ==> Stopped(ev.ep, ep)
    {
      hide L.World, Q.World, ItemsEmbedded, EventsEmbedded, Structure;
      QueueKnown();
      HeadKnown(View());
      assert events.items[0] in events.items;
      if kind[events.items[0]].EpAction? || kind[events.items[0]].EpStopped? { Owner(events.items[0]); }
      ghost var q, records := events.items, Records();
      var x := Q.PopIn(events, {events}, kind.Keys);
      assert L.World(Lists(), cont.Keys);
      assert Records() == records;
      ev := kind[x];
      ep := if ev.EpAction? || ev.EpStopped? then table[ev.ep] else null;
      assert Kinds(kind, q)[1..] == Kinds(kind, q[1..]);
    }

    /** nn_fsm_event_process of the first event, with nn_fsm_feed. */
    method ProcessEvent(quick: bool)
      requires Shaped() && Structure(View()) && events.items != []
      modifies this, sdeps, cont.Keys, events, kind.Keys, table.Values
      ensures Shaped() && View() == Process(old(View()), quick) && Shrunk()
      ensures holds == old(holds) && relesem == old(relesem)
    {
      hide L.World, Q.World, ItemsEmbedded, EventsEmbedded, Structure, FeedEp, Handler, Shutdown;
      var ev, ep := PopEvent();
      if ev.EpAction? { FeedEndpoint(ep); }
      else if fsm != FsmStopping { Handle(ev, ep); }
      else { HandleShutdown(ev, ep, quick); }
    }

    /** The draining loop of nn_ctx_leave; a failed assertion ends the process, and that is the
        one way not to reach the state of the recursive Drain. */
    method Leave(quick: bool)
      requires Shaped() && Invariant(View())
      modifies this, sdeps, cont.Keys, events, kind.Keys, table.Values
      ensures Shaped() && holds == old(holds) && relesem == old(relesem)
      ensures aborted <==> Doomed(old(View()))
      ensures !aborted ==> View() == Drain(old(View()), quick) && Invariant(View())
    {
      hide L.World, Q.World, ItemsEmbedded, EventsEmbedded, Invariant, Process, QueueWeight, Going;
      ghost var was := View();
      FirstTurn(was, quick);
      HeadTells();
      while events.head != null && !aborted
        invariant Shaped() && Shrunk() && holds == old(holds) && relesem == old(relesem)
        invariant Going(was, View(), quick) && (events.head == null <==> events.items == [])
        decreases QueueWeight(View().events)
      {
        OneTurn(was, View(), quick);
        ProcessEvent(quick);
        HeadTells();
      }
      NoTurn(was, View(), quick);
    }

    lemma HeadTells()
      requires Q.World({events}, kind.Keys)
      ensures events.head == null <==> events.items == []
    {
      assert events in {events};
    }
  }

  /** Where the draining loop stands: the rest of the work leads to the same end. */
  ghost predicate Going(was: Core, v: Core, quick: bool) {
    if v.aborted then Doomed(was)
        else Invariant(v) && Drain(v, quick) == Drain(was, quick) && (Doomed(v) <==> Doomed(was))
  }

  lemma NotAborted(v: Core)
    ensures Invariant(v) ==> !v.aborted
  {
  }

  lemma FirstTurn(v: Core, quick: bool)
    requires Invariant(v)
    ensures Going(v, v, quick)
  {
    NotAborted(v);
  }

  lemma NoTurn(was: Core, v: Core, quick: bool)
    requires Going(was, v, quick) && (v.events == [] || v.aborted)
    ensures v.aborted <==> Doomed(was)
    ensures !v.aborted ==> Invariant(v) && v == Drain(was, quick)
  {
    hide Doomed, Invariant;
    if !v.aborted && Doomed(v) { DoomedIsBusy(v); }
  }

  lemma OneTurn(was: Core, v: Core, quick: bool)
    requires Going(was, v, quick) && !v.aborted && v.events != []
    ensures Structure(v) && Going(was, Process(v, quick), quick)
    ensures QueueWeight(Process(v, quick).events) < QueueWeight(v.events)
  {
    hide Structure, Process, Doomed;
    ProcessShrinks(v, quick);
    assert Drain(v, quick) == Drain(Process(v, quick), quick);
    NotAborted(Process(v, quick));
    if Forgets(v) {
      ForgetsIsDoomed(v);
      Forgetting(v, quick);
    } else {
      ProcessKeeps(v, quick);
      DoomStays(v, quick);
    }
  }

  lemma NewId(s: Core)
    requires Structure(s)
    ensures s.eid !in s.table
  {
  }

  lemma Embedded(table: map<EpId, Endpoint>, cont: map<L.Item, EpId>, kind: map<Q.Item, Event>, own: Q.Item,
    ep: Endpoint)
    requires ItemsEmbedded(table, cont) && EventsEmbedded(table, kind, own)
    requires ep.eid !in table && ep.item !in cont && ep.stopped !in kind
    ensures ItemsEmbedded(table[ep.eid := ep], cont[ep.item := ep.eid])
    ensures EventsEmbedded(table[ep.eid := ep], kind[ep.stopped := EpStopped(ep.eid)], own)
  {
  }

  lemma PipeEmbedded(table: map<EpId, Endpoint>, kind: map<Q.Item, Event>, own: Q.Item, x: Q.Item, e: EpId)
    requires EventsEmbedded(table, kind, own) && x !in kind
    ensures EventsEmbedded(table, kind[x := PipeReady(e)], own)
  {
  }

  lemma SameIds(cont: map<L.Item, EpId>, q: seq<L.Item>, x: L.Item, e: EpId)
    requires x !in q
    ensures Ids(cont[x := e], q) == Ids(cont, q)
  {
  }

  lemma SameKinds(kind: map<Q.Item, Event>, q: seq<Q.Item>, x: Q.Item, ev: Event)
    requires x !in q
    ensures Kinds(kind[x := ev], q) == Kinds(kind, q)
  {
  }

  lemma InIds(table: map<EpId, Endpoint>, cont: map<L.Item, EpId>, q: seq<L.Item>, ep: Endpoint)
    requires ItemsEmbedded(table, cont) && ep.eid in table && table[ep.eid] == ep && forall x :: x in q ==> x in cont
    ensures ep.eid in Ids(cont, q) <==> ep.item in q
  {
    var v := Ids(cont, q);
    if ep.item in q { var i :| 0 <= i < |q| && q[i] == ep.item; assert v[i] == ep.eid; }
    if ep.eid in v { var i :| 0 <= i < |v| && v[i] == ep.eid; assert q[i] in q; }
  }

  lemma TokenIs(q: seq<Event>, e: EpId)
    ensures TokenQueued(q, e) <==> Queued(q, EpStopped(e))
  {
    assert forall ev: Event :: TokenOf(ev, e) <==> SameItem(ev, EpStopped(e));
  }

  lemma Freed(table: map<EpId, Endpoint>, cont: map<L.Item, EpId>, kind: map<Q.Item, Event>, own: Q.Item, ep: Endpoint)
    requires ItemsEmbedded(table, cont) && EventsEmbedded(table, kind, own) && ep.eid in table && table[ep.eid] == ep
    ensures ItemsEmbedded(table - {ep.eid}, cont - {ep.item})
    ensures EventsEmbedded(table - {ep.eid}, kind - {ep.stopped}, own)
  {
  }

  /** An endpoint that reports has left eps. */
  lemma HeadKnown(s: Core)
    requires Structure(s) && s.events != []
    ensures s.events[0].EpStopped? ==> s.events[0].ep !in s.eps
  {
    assert EventOk(s, 0);
  }

  lemma FirstOut(q: seq<EpId>)
    requires q != []
    ensures Without(q, q[0]) == q[1..]
  {
  }

  lemma OneStopped(v: Core, prompt: set<EpId>)
    requires v.eps != []
    ensures StopAll(v, prompt) ==
        StopAll(StopEp(v.(eps := v.eps[1..], sdeps := v.sdeps + [v.eps[0]]), v.eps[0], prompt), prompt)
  {
  }

  lemma NothingToStop(v: Core, prompt: set<EpId>)
    requires v.eps == []
    ensures StopAll(v, prompt) == v
  {
  }

  /** Taking out the item at k takes out its endpoint's id. */
  lemma ErasedIds(table: map<EpId, Endpoint>, cont: map<L.Item, EpId>, q: seq<L.Item>, k: nat)
    requires ItemsEmbedded(table, cont) && Distinct(q) && k < |q| && forall x :: x in q ==> x in cont
    ensures Ids(cont, q[..k] + q[k + 1..]) == Without(Ids(cont, q), cont[q[k]])
  {
    var v := Ids(cont, q);
    forall i | 0 <= i < k ensures v[i] != v[k] {
      assert q[i] in q && q[k] in q && q[i] != q[k];
    }
    assert v[k] !in v[..k];
    WithoutAt(v, k);
    assert Ids(cont, q[..k] + q[k + 1..]) == v[..k] + v[k + 1..];
  }

  lemma AppendedIds(cont: map<L.Item, EpId>, q: seq<L.Item>, x: L.Item)
    requires x in cont
    ensures Ids(cont, q + [x]) == Ids(cont, q) + [cont[x]]
  {
  }

  lemma EndpointsApart(table: map<EpId, Endpoint>, cont: map<L.Item, EpId>, ep: Endpoint)
    requires ItemsEmbedded(table, cont)
    ensures forall e :: e in table && e != ep.eid ==> table[e] != ep
  {
  }

  lemma Pushed(kind: map<Q.Item, Event>, q: seq<Q.Item>, x: Q.Item, ev: Event)
    requires x !in q
    ensures Kinds(kind[x := ev], q + [x]) == Kinds(kind, q) + [ev]
  {
  }
}
