/** What the references and chunks of module MsgStore hold, over any sequence of message
    operations (utils/chunkref.c, utils/chunk.c): each reference stands for a byte sequence
    whichever form it has, and sharing a chunk is never seen. */
module MsgData {
  import opened Wire
  import K = Chunk
  import M = MsgStore

  type Bytes = seq<byte>

  /** The account, what every reference stands for, and what every live chunk holds. */
  datatype Books = Books(store: M.Store, text: map<M.RefId, Bytes>, body: map<M.ChunkId, Bytes>)

  const EMPTY := Books(M.EMPTY, map[], map[])

  /** The chunks after c has lost a holder. */
  function Lost(s: M.Store, c: M.ChunkId, body: map<M.ChunkId, Bytes>): map<M.ChunkId, Bytes> {
    if c in s.counts && K.LastRef(s.counts[c]) then body - {c} else body
  }

  /** raw is what uninitialised memory happens to hold. */
  function TextAfter(b: Books, op: M.Op, raw: Bytes): map<M.RefId, Bytes>
    requires Agree(b) && M.Allowed(b.store, op)
  {
    match op
    case Init(r, _) => b.text[r := raw]
    case InitChunk(r, c) => b.text[r := if c in b.body then b.body[c] else []]
    case Term(r) => b.text - {r}
    case GetChunk(r) => b.text[r := []]
    case Mv(dst, src) => (b.text - {src})[dst := b.text[src]]
    case Cp(dst, src) => b.text[dst := b.text[src]]
    case BulkCp(dst, src) => b.text[dst := b.text[src]]
    case _ => b.text
  }

  function BodyAfter(b: Books, op: M.Op, raw: Bytes): map<M.ChunkId, Bytes>
    requires Agree(b) && M.Allowed(b.store, op)
  {
    var s := b.store;
    match op
    case AllocMsg => b.body[s.next := raw]
    case FreeMsg(c) => Lost(s, c, b.body)
    case Init(_, size) => if size < 32 then b.body else b.body[s.next := raw]
    case Term(r) => if s.refs[r].Heap? then Lost(s, s.refs[r].c, b.body) else b.body
    case GetChunk(r) => if s.refs[r].Heap? then b.body else b.body[s.next := b.text[r]]
    case _ => b.body
  }

  function After(b: Books, op: M.Op, raw: Bytes): Books
    requires Agree(b) && M.Allowed(b.store, op)
  {
    Books(M.Do(b.store, op), TextAfter(b, op, raw), BodyAfter(b, op, raw))
  }

  /** A reference in heap form stands for what its chunk holds. */
  predicate Agree(b: Books) {
    && b.text.Keys == b.store.refs.Keys && b.body.Keys == b.store.counts.Keys
    && forall r :: r in b.text && b.store.refs[r].Heap? ==>
         b.store.refs[r].c in b.body && b.text[r] == b.body[b.store.refs[r].c]
  }

  ghost predicate Sound(b: Books) { M.Conserved(b.store) && Agree(b) }

  lemma OpSound(b: Books, op: M.Op, raw: Bytes)
    requires Sound(b) && M.Allowed(b.store, op) && M.Room(b.store, op)
    ensures Sound(After(b, op, raw))
  {
    hide M.Conserved, Agree;
    M.OpKeeps(b.store, op);
    AllLive(b.store);
    AllLive(M.Do(b.store, op));
    NextIsNew(b.store);
    if op.InitChunk? { UserIsLive(b.store, op.c); }
    if op.AllocMsg? { AllocAgree(b, raw); }
    else if op.Init? { InitAgree(b, op.r, op.size, raw); }
    else if op.GetChunk? { GottenAgree(b, op.r); }
    else if op.FreeMsg? || op.Term? { LostAgree(b, op, raw); }
    else { SharedAgree(b, op, raw); }
  }

  /** Every reference in heap form points at a live chunk. */
  predicate Live(s: M.Store) { forall r :: r in s.refs && s.refs[r].Heap? ==> s.refs[r].c in s.counts }

  lemma AllLive(s: M.Store)
    requires M.Conserved(s)
    ensures Live(s)
  {
    forall r | r in s.refs && s.refs[r].Heap? ensures s.refs[r].c in s.counts { M.HeldIsLive(s, r); }
  }

  lemma NextIsNew(s: M.Store)
    requires M.Conserved(s)
    ensures s.next !in s.counts
  {
  }

  lemma UserIsLive(s: M.Store, c: M.ChunkId)
    requires M.Conserved(s) && M.At(s.user, c) > 0
    ensures c in s.counts
  {
    assert M.Total(s, c) > 0;
  }

  /** A chunk is made, or has been if the reference is large. */
  lemma AllocAgree(b: Books, raw: Bytes)
    requires Agree(b) && Live(b.store) && b.store.next !in b.store.counts
    ensures Agree(After(b, M.AllocMsg, raw))
  {
  }

  lemma InitAgree(b: Books, r: M.RefId, size: nat, raw: Bytes)
    requires Agree(b) && Live(b.store) && b.store.next !in b.store.counts && r !in b.store.refs
    ensures Agree(After(b, M.Init(r, size), raw))
  {
    hide Agree;
    if size >= 32 { LargeAgree(b, r, size, raw); } else { SmallAgree(b, r, size, raw); }
  }

  lemma SmallAgree(b: Books, r: M.RefId, size: nat, raw: Bytes)
    requires Agree(b) && r !in b.store.refs && size < 32
    ensures Agree(After(b, M.Init(r, size), raw))
  {
  }

  lemma LargeAgree(b: Books, r: M.RefId, size: nat, raw: Bytes)
    requires Agree(b) && Live(b.store) && b.store.next !in b.store.counts && r !in b.store.refs && size >= 32
    ensures Agree(After(b, M.Init(r, size), raw))
  {
    var c := After(b, M.Init(r, size), raw);
    assert c.text == b.text[r := raw] && c.body == b.body[b.store.next := raw];
    assert c.store.refs == b.store.refs[r := M.Heap(b.store.next)];
    assert c.store.counts == b.store.counts[b.store.next := 1];
    hide M.Do, TextAfter, BodyAfter;
  }

  lemma GottenAgree(b: Books, r: M.RefId)
    requires Agree(b) && Live(b.store) && b.store.next !in b.store.counts && r in b.store.refs
    ensures Agree(After(b, M.GetChunk(r), []))
  {
  }

  /** A chunk may have gone. */
  lemma LostAgree(b: Books, op: M.Op, raw: Bytes)
    requires Agree(b) && M.Allowed(b.store, op) && Live(b.store) && Live(M.Do(b.store, op))
    requires op.FreeMsg? || op.Term?
    ensures Agree(After(b, op, raw))
  {
  }

  /** The chunks are as they were. */
  lemma SharedAgree(b: Books, op: M.Op, raw: Bytes)
    requires Agree(b) && M.Allowed(b.store, op) && Live(b.store) && (op.InitChunk? ==> op.c in b.store.counts)
    requires op.InitChunk? || op.Mv? || op.Cp? || op.BulkStart? || op.BulkCp?
    ensures Agree(After(b, op, raw))
  {
  }

  // ---- Over runs ----

  datatype Event = Event(op: M.Op, raw: Bytes)

  ghost predicate ValidRun(b: Books, events: seq<Event>)
    decreases |events|
  {
    && Sound(b)
    && (events == [] || (M.Allowed(b.store, events[0].op) && M.Room(b.store, events[0].op) &&
                         ValidRun(After(b, events[0].op, events[0].raw), events[1..])))
  }

  ghost function Run(b: Books, events: seq<Event>): Books
    requires ValidRun(b, events)
    decreases |events|
  {
    if events == [] then b else Run(After(b, events[0].op, events[0].raw), events[1..])
  }

  /** Being sound is not asked of a run, it is kept. */
  lemma {:induction false} RunSound(b: Books, events: seq<Event>)
    requires Sound(b) && M.ValidRun(b.store, Ops(events))
    ensures ValidRun(b, events) && Sound(Run(b, events)) && Run(b, events).store == M.Run(b.store, Ops(events))
    decreases |events|
  {
    hide M.Conserved, M.Do, TextAfter, BodyAfter;
    if events != [] {
      OpSound(b, events[0].op, events[0].raw);
      assert Ops(events)[1..] == Ops(events[1..]);
      RunSound(After(b, events[0].op, events[0].raw), events[1..]);
    }
  }

  function Ops(events: seq<Event>): (r: seq<M.Op>)
    ensures |r| == |events| && forall i :: 0 <= i < |r| ==> r[i] == events[i].op
  {
    seq(|events|, i requires 0 <= i < |events| => events[i].op)
  }

  /** The operation gives the reference itself away. */
  predicate GivesAway(op: M.Op, r: M.RefId) {
    op == M.Term(r) || op == M.GetChunk(r) || (op.Mv? && op.src == r)
  }

  predicate Kept(events: seq<Event>, r: M.RefId) {
    forall i :: 0 <= i < |events| ==> !GivesAway(events[i].op, r)
  }

  /** Whatever happens to other references and to the chunk they share, a reference goes on
      standing for the same bytes until it is itself given away. */
  lemma {:induction false} TextStays(b: Books, events: seq<Event>, r: M.RefId)
    requires ValidRun(b, events) && r in b.text && Kept(events, r)
    ensures r in Run(b, events).text && Run(b, events).text[r] == b.text[r]
    decreases |events|
  {
    if events != [] {
      var c := After(b, events[0].op, events[0].raw);
      assert !GivesAway(events[0].op, r);
      assert r in c.text && c.text[r] == b.text[r];
      TextStays(c, events[1..], r);
    }
  }

  /** A copy stands for what its source stood for when it was made, for as long as it is kept,
      whether or not the source is. */
  lemma CopyStands(b: Books, op: M.Op, events: seq<Event>)
    requires op.Cp? || op.BulkCp?
    requires ValidRun(b, [Event(op, [])] + events) && Kept(events, op.dst)
    ensures var w := Run(b, [Event(op, [])] + events);
            op.src in b.text && op.dst in w.text && w.text[op.dst] == b.text[op.src]
  {
    assert ([Event(op, [])] + events)[1..] == events;
    TextStays(After(b, op, []), events, op.dst);
  }

  /** No live chunk ever changes, and a name is not used again. */
  lemma {:induction false} BodyStays(b: Books, events: seq<Event>, c: M.ChunkId)
    requires ValidRun(b, events) && c < b.store.next && c in Run(b, events).body
    ensures c in b.body && Run(b, events).body[c] == b.body[c]
    decreases |events|
  {
    if events != [] {
      BodyAfterOne(b, events[0].op, events[0].raw, c);
      BodyStays(After(b, events[0].op, events[0].raw), events[1..], c);
    }
  }

  lemma BodyAfterOne(b: Books, op: M.Op, raw: Bytes, c: M.ChunkId)
    requires Agree(b) && M.Allowed(b.store, op) && c < b.store.next
    ensures var d := After(b, op, raw);
            c < d.store.next && (c in d.body ==> c in b.body && d.body[c] == b.body[c])
  {
  }

  /** What nn_chunkref_getchunk hands to the user is what the reference stood for, and stays so
      while the chunk lives. */
  lemma ChunkStands(b: Books, r: M.RefId, events: seq<Event>)
    requires ValidRun(b, [Event(M.GetChunk(r), [])] + events)
    ensures var w := Run(b, [Event(M.GetChunk(r), [])] + events);
            var c := if b.store.refs[r].Heap? then b.store.refs[r].c else b.store.next;
            r in b.text && (c in w.body ==> w.body[c] == b.text[r])
  {
    var d := After(b, M.GetChunk(r), []);
    var c := if b.store.refs[r].Heap? then b.store.refs[r].c else b.store.next;
    var w := Run(b, [Event(M.GetChunk(r), [])] + events);
    assert ([Event(M.GetChunk(r), [])] + events)[1..] == events;
    if b.store.refs[r].Heap? { M.HeldIsLive(b.store, r); }
    if c in w.body { BodyStays(d, events, c); }
  }
}
