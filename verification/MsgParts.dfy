/** What the calls of utils/msg.c do to whole messages: each of them treats all three parts of a
    message, protocol header, ancillary headers and body, and no reference beside. */
module MsgParts {
  import opened Wire
  import D = MsgData
  import K = Chunk
  import M = MsgStore

  predicate PartOf(r: M.RefId, m: nat) { exists k: nat :: k < 3 && r == M.Part(m, k) }

  lemma PartsApart(m: nat, n: nat)
    requires m != n
    ensures forall j: nat, k: nat :: j < 3 && k < 3 ==> M.Part(m, j) != M.Part(n, k)
    ensures forall j: nat, k: nat :: j < k < 3 ==> M.Part(m, j) != M.Part(m, k)
  {
  }

  /** The message is initialised. */
  predicate Has(b: D.Books, m: nat) { forall k: nat :: k < 3 ==> M.Part(m, k) in b.text }

  predicate Lacks(b: D.Books, m: nat) { forall k: nat :: k < 3 ==> M.Part(m, k) !in b.text }

  /** Outside the messages m and n every reference stands for what it did. */
  ghost predicate SameElsewhere(b: D.Books, t: D.Books, m: nat, n: nat) {
    forall r :: !PartOf(r, m) && !PartOf(r, n) ==>
                  (r in t.text <==> r in b.text) && (r in b.text ==> t.text[r] == b.text[r])
  }

  /** Events that bring no uninitialised memory. */
  function Plain(ops: seq<M.Op>): (r: seq<D.Event>)
    ensures |r| == |ops| && forall i :: 0 <= i < |r| ==> r[i] == D.Event(ops[i], [])
  {
    seq(|ops|, i requires 0 <= i < |ops| => D.Event(ops[i], []))
  }

  /** The first event of a run. */
  lemma Peel(b: D.Books, events: seq<D.Event>)
    requires D.ValidRun(b, events) && events != []
    ensures D.Agree(b) && M.Allowed(b.store, events[0].op)
    ensures var c := D.After(b, events[0].op, events[0].raw);
            && D.Agree(c) && D.ValidRun(c, events[1..]) && D.Run(b, events) == D.Run(c, events[1..])
  {
    hide M.Conserved, M.Room, M.Allowed, M.Do, D.Agree, D.TextAfter, D.BodyAfter;
  }

  /** Three events, one after the other. */
  lemma Three(b: D.Books, x: D.Event, y: D.Event, z: D.Event) returns (c: D.Books, d: D.Books, t: D.Books)
    requires D.ValidRun(b, [x, y, z])
    ensures D.Agree(b) && M.Allowed(b.store, x.op) && c == D.After(b, x.op, x.raw)
    ensures D.Agree(c) && M.Allowed(c.store, y.op) && d == D.After(c, y.op, y.raw)
    ensures D.Agree(d) && M.Allowed(d.store, z.op) && t == D.After(d, z.op, z.raw)
    ensures D.Agree(t) && D.Run(b, [x, y, z]) == t
  {
    hide M.Allowed, D.Agree, D.After, D.ValidRun;
    assert [x, y, z][1..] == [y, z] && [y, z][1..] == [z] && [z][1..] == [];
    Peel(b, [x, y, z]);
    c := D.After(b, x.op, x.raw);
    Peel(c, [y, z]);
    d := D.After(c, y.op, y.raw);
    Peel(d, [z]);
    t := D.After(d, z.op, z.raw);
  }

  lemma Two(b: D.Books, x: D.Event, y: D.Event) returns (c: D.Books, t: D.Books)
    requires D.ValidRun(b, [x, y])
    ensures D.Agree(b) && M.Allowed(b.store, x.op) && c == D.After(b, x.op, x.raw)
    ensures D.Agree(c) && M.Allowed(c.store, y.op) && t == D.After(c, y.op, y.raw)
    ensures D.Agree(t) && D.Run(b, [x, y]) == t
  {
    hide M.Allowed, D.Agree, D.After, D.ValidRun;
    assert [x, y][1..] == [y] && [y][1..] == [];
    Peel(b, [x, y]);
    c := D.After(b, x.op, x.raw);
    Peel(c, [y]);
    t := D.After(c, y.op, y.raw);
  }

  /** Message dst stands for what message src stood for. */
  predicate Holds(t: D.Books, dst: nat, b: D.Books, src: nat) {
    Has(t, dst) && Has(b, src) && forall k: nat :: k < 3 ==> t.text[M.Part(dst, k)] == b.text[M.Part(src, k)]
  }

  /** nn_msg_mv moves all three parts, and leaves the source uninitialised. */
  lemma MvMoves(b: D.Books, dst: nat, src: nat)
    requires D.ValidRun(b, Plain(M.Expand(M.MsgMv(dst, src))))
    ensures var t := D.Run(b, Plain(M.Expand(M.MsgMv(dst, src))));
            Holds(t, dst, b, src) && Lacks(t, src) && SameElsewhere(b, t, dst, src)
  {
    hide M.Allowed, D.Agree, D.After, D.ValidRun, D.Run;
    var e := Plain(M.Expand(M.MsgMv(dst, src)));
    assert e == [e[0], e[1], e[2]];
    var c, d, t := Three(b, e[0], e[1], e[2]);
    MvText(b, M.Part(dst, 0), M.Part(src, 0));
    MvText(c, M.Part(dst, 1), M.Part(src, 1));
    MvText(d, M.Part(dst, 2), M.Part(src, 2));
    Moved(b, c, d, t, dst, src);
  }

  lemma MvText(b: D.Books, dst: M.RefId, src: M.RefId)
    requires D.Agree(b) && M.Allowed(b.store, M.Mv(dst, src))
    ensures dst !in b.text && src in b.text
    ensures D.After(b, M.Mv(dst, src), []).text == (b.text - {src})[dst := b.text[src]]
  {
  }

  /** What moving the three parts leaves. */
  lemma Moved(b: D.Books, c: D.Books, d: D.Books, t: D.Books, dst: nat, src: nat)
    requires M.Part(src, 0) in b.text && M.Part(dst, 0) !in b.text
    requires c.text == (b.text - {M.Part(src, 0)})[M.Part(dst, 0) := b.text[M.Part(src, 0)]]
    requires M.Part(src, 1) in c.text && d.text == (c.text - {M.Part(src, 1)})[M.Part(dst, 1) := c.text[M.Part(src, 1)]]
    requires M.Part(src, 2) in d.text && t.text == (d.text - {M.Part(src, 2)})[M.Part(dst, 2) := d.text[M.Part(src, 2)]]
    ensures Holds(t, dst, b, src) && Lacks(t, src) && SameElsewhere(b, t, dst, src)
  {
    assert dst != src;
    PartsApart(dst, src);
    var d0, d1, d2 := M.Part(dst, 0), M.Part(dst, 1), M.Part(dst, 2);
    var s0, s1, s2 := M.Part(src, 0), M.Part(src, 1), M.Part(src, 2);
    MovedAll(b.text, c.text, d.text, t.text, d0, d1, d2, s0, s1, s2);
    forall k: nat | k < 3
      ensures M.Part(src, k) in b.text && M.Part(dst, k) in t.text && M.Part(src, k) !in t.text
      ensures t.text[M.Part(dst, k)] == b.text[M.Part(src, k)]
    {
      if k == 0 {} else if k == 1 {} else {}
    }
    Beside(dst);
    Beside(src);
  }

  lemma Beside(m: nat)
    ensures PartOf(M.Part(m, 0), m) && PartOf(M.Part(m, 1), m) && PartOf(M.Part(m, 2), m)
  {
  }

  lemma MovedAll(a: map<M.RefId, D.Bytes>, b: map<M.RefId, D.Bytes>, c: map<M.RefId, D.Bytes>,
    t: map<M.RefId, D.Bytes>, d0: M.RefId, d1: M.RefId, d2: M.RefId, s0: M.RefId, s1: M.RefId, s2: M.RefId)
    requires d0 != d1 && d0 != d2 && d1 != d2 && s0 != s1 && s0 != s2 && s1 != s2
    requires {d0, d1, d2} !! {s0, s1, s2}
    requires s0 in a && b == (a - {s0})[d0 := a[s0]]
    requires s1 in b && c == (b - {s1})[d1 := b[s1]]
    requires s2 in c && t == (c - {s2})[d2 := c[s2]]
    ensures {s0, s1, s2} <= a.Keys && {d0, d1, d2} <= t.Keys && {s0, s1, s2} !! t.Keys
    ensures t[d0] == a[s0] && t[d1] == a[s1] && t[d2] == a[s2]
    ensures forall r :: r !in {d0, d1, d2, s0, s1, s2} ==> (r in t <==> r in a) && (r in a ==> t[r] == a[r])
  {
    assert s1 in a && s2 in b && s2 in a;
  }

  /** What copying the three parts leaves. */
  lemma Copied(b: D.Books, c: D.Books, d: D.Books, t: D.Books, dst: nat, src: nat)
    requires M.Part(src, 0) in b.text && M.Part(dst, 0) !in b.text
    requires c.text == b.text[M.Part(dst, 0) := b.text[M.Part(src, 0)]]
    requires M.Part(src, 1) in c.text && d.text == c.text[M.Part(dst, 1) := c.text[M.Part(src, 1)]]
    requires M.Part(src, 2) in d.text && t.text == d.text[M.Part(dst, 2) := d.text[M.Part(src, 2)]]
    ensures Holds(t, dst, b, src) && Holds(t, src, b, src) && SameElsewhere(b, t, dst, dst)
  {
    assert dst != src;
    PartsApart(dst, src);
  }

  lemma CpText(b: D.Books, op: M.Op)
    requires D.Agree(b) && M.Allowed(b.store, op) && (op.Cp? || op.BulkCp?)
    ensures op.dst !in b.text && op.src in b.text
    ensures D.After(b, op, []).text == b.text[op.dst := b.text[op.src]]
  {
  }

  /** nn_msg_cp copies all three parts, and the source stays. */
  lemma CpCopies(b: D.Books, dst: nat, src: nat)
    requires D.ValidRun(b, Plain(M.Expand(M.MsgCp(dst, src))))
    ensures var t := D.Run(b, Plain(M.Expand(M.MsgCp(dst, src))));
            Holds(t, dst, b, src) && Holds(t, src, b, src) && SameElsewhere(b, t, dst, dst)
  {
    hide M.Allowed, D.Agree, D.After, D.ValidRun, D.Run;
    var e := Plain(M.Expand(M.MsgCp(dst, src)));
    assert e == [e[0], e[1], e[2]];
    var c, d, t := Three(b, e[0], e[1], e[2]);
    CpText(b, e[0].op);
    CpText(c, e[1].op);
    CpText(d, e[2].op);
    Copied(b, c, d, t, dst, src);
  }

  /** And so does nn_msg_bulkcopy_cp. */
  lemma BulkCpCopies(b: D.Books, dst: nat, src: nat)
    requires D.ValidRun(b, Plain(M.Expand(M.MsgBulkCp(dst, src))))
    ensures var t := D.Run(b, Plain(M.Expand(M.MsgBulkCp(dst, src))));
            Holds(t, dst, b, src) && Holds(t, src, b, src) && SameElsewhere(b, t, dst, dst)
  {
    hide M.Allowed, D.Agree, D.After, D.ValidRun, D.Run;
    var e := Plain(M.Expand(M.MsgBulkCp(dst, src)));
    assert e == [e[0], e[1], e[2]];
    var c, d, t := Three(b, e[0], e[1], e[2]);
    CpText(b, e[0].op);
    CpText(c, e[1].op);
    CpText(d, e[2].op);
    Copied(b, c, d, t, dst, src);
  }

  /** nn_msg_bulkcopy_start changes what no reference stands for. */
  lemma BulkStartKeeps(b: D.Books, m: nat, copies: uint32)
    requires D.ValidRun(b, Plain(M.Expand(M.MsgBulkStart(m, copies))))
    ensures D.Run(b, Plain(M.Expand(M.MsgBulkStart(m, copies)))).text == b.text
  {
    hide M.Allowed, D.Agree, D.After, D.ValidRun, D.Run;
    var e := Plain(M.Expand(M.MsgBulkStart(m, copies)));
    assert e == [e[0], e[1], e[2]];
    var c, d, t := Three(b, e[0], e[1], e[2]);
    BulkStartText(b, M.Part(m, 0), copies);
    BulkStartText(c, M.Part(m, 1), copies);
    BulkStartText(d, M.Part(m, 2), copies);
  }

  lemma BulkStartText(b: D.Books, r: M.RefId, copies: uint32)
    requires D.Agree(b) && M.Allowed(b.store, M.BulkStart(r, copies))
    ensures D.After(b, M.BulkStart(r, copies), []).text == b.text
  {
  }

  /** nn_msg_term leaves no part initialised. */
  lemma TermEnds(b: D.Books, m: nat)
    requires D.ValidRun(b, Plain(M.Expand(M.MsgTerm(m))))
    ensures var t := D.Run(b, Plain(M.Expand(M.MsgTerm(m)))); Has(b, m) && Lacks(t, m) && SameElsewhere(b, t, m, m)
  {
    hide M.Allowed, D.Agree, D.After, D.ValidRun, D.Run;
    var e := Plain(M.Expand(M.MsgTerm(m)));
    assert e == [e[0], e[1], e[2]];
    var c, d, t := Three(b, e[0], e[1], e[2]);
    TermText(b, M.Part(m, 0));
    TermText(c, M.Part(m, 1));
    TermText(d, M.Part(m, 2));
  }

  lemma TermText(b: D.Books, r: M.RefId)
    requires D.Agree(b) && M.Allowed(b.store, M.Term(r))
    ensures r in b.text && D.After(b, M.Term(r), []).text == b.text - {r}
  {
  }

  /** nn_msg_init gives a message without headers and with a body of the asked size. */
  lemma InitMakes(b: D.Books, m: nat, size: nat, raw: D.Bytes)
    requires D.ValidRun(b, InitEvents(m, size, raw)) && |raw| == size
    ensures var t := D.Run(b, InitEvents(m, size, raw));
            && Lacks(b, m) && Has(t, m) && SameElsewhere(b, t, m, m)
            && t.text[M.Part(m, 0)] == t.text[M.Part(m, 1)] == [] && |t.text[M.Part(m, 2)]| == size
    ensures M.Expand(M.MsgInit(m, size)) == D.Ops(InitEvents(m, size, raw))
  {
    hide M.Allowed, D.Agree, D.After, D.ValidRun, D.Run;
    var e := InitEvents(m, size, raw);
    assert e == [e[0], e[1], e[2]];
    var c, d, t := Three(b, e[0], e[1], e[2]);
    InitText(b, M.Part(m, 0), 0, []);
    InitText(c, M.Part(m, 1), 0, []);
    InitText(d, M.Part(m, 2), size, raw);
    Made(b, t, m, raw);
  }

  lemma InitText(b: D.Books, r: M.RefId, size: nat, raw: D.Bytes)
    requires D.Agree(b) && M.Allowed(b.store, M.Init(r, size))
    ensures r !in b.text && D.After(b, M.Init(r, size), raw).text == b.text[r := raw]
    ensures size < 32 ==> D.After(b, M.Init(r, size), raw).body == b.body
  {
  }

  lemma Made(b: D.Books, t: D.Books, m: nat, body: D.Bytes)
    requires t.text == b.text[M.Part(m, 0) := []][M.Part(m, 1) := []][M.Part(m, 2) := body]
    requires M.Part(m, 0) !in b.text && M.Part(m, 1) !in b.text[M.Part(m, 0) := []]
    requires M.Part(m, 2) !in b.text[M.Part(m, 0) := []][M.Part(m, 1) := []]
    ensures Lacks(b, m) && Has(t, m) && SameElsewhere(b, t, m, m)
    ensures t.text[M.Part(m, 0)] == t.text[M.Part(m, 1)] == [] && t.text[M.Part(m, 2)] == body
  {
  }

  function InitEvents(m: nat, size: nat, raw: D.Bytes): seq<D.Event> {
    [D.Event(M.Init(M.Part(m, 0), 0), []), D.Event(M.Init(M.Part(m, 1), 0), []),
     D.Event(M.Init(M.Part(m, 2), size), raw)]
  }

  /** nn_msg_init_chunk gives one whose body is what the chunk holds. */
  lemma InitChunkMakes(b: D.Books, m: nat, c: M.ChunkId)
    requires D.ValidRun(b, Plain(M.Expand(M.MsgInitChunk(m, c)))) && c in b.body
    ensures var t := D.Run(b, Plain(M.Expand(M.MsgInitChunk(m, c))));
            && Lacks(b, m) && Has(t, m) && SameElsewhere(b, t, m, m)
            && t.text[M.Part(m, 0)] == t.text[M.Part(m, 1)] == [] && t.text[M.Part(m, 2)] == b.body[c]
  {
    hide M.Allowed, D.Agree, D.After, D.ValidRun, D.Run;
    var e := Plain(M.Expand(M.MsgInitChunk(m, c)));
    assert e == [e[0], e[1], e[2]];
    var x, y, t := Three(b, e[0], e[1], e[2]);
    InitText(b, M.Part(m, 0), 0, []);
    InitText(x, M.Part(m, 1), 0, []);
    InitChunkText(y, M.Part(m, 2), c);
    Made(b, t, m, b.body[c]);
  }

  lemma InitChunkText(b: D.Books, r: M.RefId, c: M.ChunkId)
    requires D.Agree(b) && M.Allowed(b.store, M.InitChunk(r, c)) && c in b.body
    ensures r !in b.text && D.After(b, M.InitChunk(r, c), []).text == b.text[r := b.body[c]]
  {
  }

  /** nn_msg_replace_body exchanges the body for the reference given, which is used up. */
  lemma ReplaceBodyReplaces(b: D.Books, m: nat, body: M.RefId)
    requires D.ValidRun(b, Plain(M.Expand(M.MsgReplaceBody(m, body)))) && body in b.text
    ensures var t := D.Run(b, Plain(M.Expand(M.MsgReplaceBody(m, body))));
            body != M.Part(m, 2) && t.text == (b.text - {body})[M.Part(m, 2) := b.text[body]]
  {
    hide M.Allowed, D.Agree, D.After, D.ValidRun, D.Run;
    var e := Plain(M.Expand(M.MsgReplaceBody(m, body)));
    assert e == [e[0], e[1]];
    var c, t := Two(b, e[0], e[1]);
    TermText(b, M.Part(m, 2));
    MvText(c, M.Part(m, 2), body);
    assert b.text - {M.Part(m, 2)} - {body} == b.text - {body} - {M.Part(m, 2)};
  }
}
