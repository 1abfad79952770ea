/** Conservation of chunk references over any sequence of message operations
    (utils/chunkref.c, utils/msg.c, utils/chunk.c:166-195).

    References are named; a name present in `refs` is an initialised nn_chunkref.  The count
    arithmetic and the decision to deallocate are those of module Chunk. */
module MsgStore {
  import opened Util
  import opened Wire
  import opened Chunk

  type ChunkId = nat
  type RefId = nat

  datatype Ref = Inline | Heap(c: ChunkId)

  /** counts: the refcount word of every live chunk; user: data pointers in user hands;
      promised: bulk copies announced and not yet made; freed: chunks deallocated, in order. */
  datatype Store = Store(
    counts: map<ChunkId, uint32>,
    refs: map<RefId, Ref>,
    user: map<ChunkId, nat>,
    promised: map<ChunkId, nat>,
    freed: seq<ChunkId>,
    next: ChunkId,
    crashed: bool)

  datatype Op =
    | AllocMsg                           // nn_allocmsg
    | FreeMsg(c: ChunkId)                // nn_freemsg
    | Init(r: RefId, size: nat)          // nn_chunkref_init
    | InitChunk(r: RefId, c: ChunkId)    // nn_chunkref_init_chunk
    | Term(r: RefId)                     // nn_chunkref_term
    | GetChunk(r: RefId)                 // nn_chunkref_getchunk
    | Mv(dst: RefId, src: RefId)         // nn_chunkref_mv
    | Cp(dst: RefId, src: RefId)         // nn_chunkref_cp
    | BulkStart(r: RefId, copies: uint32) // nn_chunkref_bulkcopy_start
    | BulkCp(dst: RefId, src: RefId)     // nn_chunkref_bulkcopy_cp

  const EMPTY := Store(map[], map[], map[], map[], [], 0, false)

  /** nn_chunk_free on a live chunk; on a dead one the tag check fails. */
  function Drop(s: Store, c: ChunkId): (t: Store)
    ensures t.refs == s.refs && t.user == s.user && t.promised == s.promised && t.next == s.next
  {
    if c !in s.counts then s.(crashed := true)
    else if LastRef(s.counts[c]) then s.(counts := s.counts - {c}, freed := s.freed + [c])
    else s.(counts := s.counts[c := Dec(s.counts[c])])
  }

  /** nn_chunk_addref. */
  function AddRef(s: Store, c: ChunkId, n: uint32): (t: Store)
    ensures t.refs == s.refs && t.user == s.user && t.promised == s.promised && t.next == s.next && t.freed == s.freed
  {
    if c !in s.counts then s.(crashed := true) else s.(counts := s.counts[c := Inc(s.counts[c], n)])
  }

  /** nn_chunk_alloc: a chunk with one reference. */
  function NewChunk(s: Store): Store {
    s.(counts := s.counts[s.next := 1], next := s.next + 1)
  }

  function At(m: map<ChunkId, nat>, c: ChunkId): nat { if c in m then m[c] else 0 }

  /** The callers' side of each operation: dst is not initialised, src is; a data pointer
      is given up once per time it was obtained; bulk copies are made as announced. */
  predicate Allowed(s: Store, op: Op) {
    match op
    case AllocMsg => true
    case FreeMsg(c) => At(s.user, c) > 0
    case Init(r, _) => r !in s.refs
    case InitChunk(r, c) => r !in s.refs && At(s.user, c) > 0
    case Term(r) => r in s.refs
    case GetChunk(r) => r in s.refs
    case Mv(dst, src) => src in s.refs && dst !in s.refs
    case Cp(dst, src) => src in s.refs && dst !in s.refs
    case BulkStart(r, _) => r in s.refs
    case BulkCp(dst, src) =>
      src in s.refs && dst !in s.refs && (s.refs[src].Heap? ==> At(s.promised, s.refs[src].c) > 0)
  }

  function Do(s: Store, op: Op): Store
    requires Allowed(s, op)
  {
    match op
    case AllocMsg => NewChunk(s).(user := s.user[s.next := At(s.user, s.next) + 1])
    case FreeMsg(c) => Drop(s, c).(user := s.user[c := At(s.user, c) - 1])
    case Init(r, size) =>
      if size < 32 then s.(refs := s.refs[r := Inline]) else NewChunk(s).(refs := s.refs[r := Heap(s.next)])
    case InitChunk(r, c) => s.(refs := s.refs[r := Heap(c)], user := s.user[c := At(s.user, c) - 1])
    case Term(r) => (if s.refs[r].Heap? then Drop(s, s.refs[r].c) else s).(refs := s.refs - {r})
    case GetChunk(r) =>
      if s.refs[r].Heap? then
        s.(refs := s.refs[r := Inline], user := s.user[s.refs[r].c := At(s.user, s.refs[r].c) + 1])
      else NewChunk(s).(user := s.user[s.next := At(s.user, s.next) + 1])
    case Mv(dst, src) => s.(refs := (s.refs - {src})[dst := s.refs[src]])
    case Cp(dst, src) => (if s.refs[src].Heap? then AddRef(s, s.refs[src].c, 1)
        else s).(refs := s.refs[dst := s.refs[src]])
    case BulkStart(r, copies) =>
      if s.refs[r].Heap? then
        var c := s.refs[r].c;
        AddRef(s, c, copies).(promised := s.promised[c := At(s.promised, c) + copies])
      else s
    case BulkCp(dst, src) =>
      var t := s.(refs := s.refs[dst := s.refs[src]]);
      if s.refs[src].Heap? then
        var c := s.refs[src].c;
        t.(promised := s.promised[c := At(s.promised, c) - 1])
      else t
  }

  function Holders(refs: map<RefId, Ref>, c: ChunkId): set<RefId> {
    set r | r in refs && refs[r] == Heap(c)
  }

  /** Everything that keeps chunk c alive. */
  function Total(s: Store, c: ChunkId): nat {
    |Holders(s.refs, c)| + At(s.user, c) + At(s.promised, c)
  }

  /** The 32-bit counter of every chunk has room for the copies the operation announces. */
  predicate Room(s: Store, op: Op)
    requires Allowed(s, op)
  {
    match op
    case Cp(_, src) => s.refs[src].Heap? ==> Total(s, s.refs[src].c) + 1 < TWO_32
    case BulkStart(r, copies) => s.refs[r].Heap? ==> Total(s, s.refs[r].c) + copies < TWO_32
    case _ => true
  }

  /** Refcount equals live references, plus user pointers, plus promised copies; a chunk is
      live while that is positive and was freed once, when it reached zero. */
  ghost predicate Conserved(s: Store) {
    && !s.crashed
    && (forall c :: c in s.counts ==>
        s.counts[c] == Total(s, c) && 0 < Total(s, c) < TWO_32 && c !in s.freed && c < s.next)
    && (forall c :: c !in s.counts ==> Total(s, c) == 0)
    && (forall c :: c in s.freed ==> c < s.next)
    && (forall c: ChunkId :: c < s.next ==> c in s.counts || c in s.freed)
    && Distinct(s.freed)
  }

  lemma HoldersAfter(refs: map<RefId, Ref>, r: RefId, v: Ref, c: ChunkId)
    ensures |Holders(refs[r := v], c)| ==
            |Holders(refs, c)| + (if v == Heap(c) then 1 else 0) - (if r in refs && refs[r] == Heap(c) then 1 else 0)
  {
    var h := Holders(refs, c);
    assert Holders(refs[r := v], c) == if v == Heap(c) then h + {r} else h - {r};
    assert r in h ==> h + {r} == h;
  }

  lemma HoldersWithout(refs: map<RefId, Ref>, r: RefId, c: ChunkId)
    requires r in refs
    ensures |Holders(refs - {r}, c)| == |Holders(refs, c)| - (if refs[r] == Heap(c) then 1 else 0)
  {
    assert Holders(refs - {r}, c) == Holders(refs, c) - {r};
  }

  /** How many holders of chunk d an operation creates, and how many it ends. */
  function Gains(s: Store, op: Op, d: ChunkId): nat
    requires Allowed(s, op)
  {
    match op
    case AllocMsg => if d == s.next then 1 else 0
    case Init(_, size) => if size >= 32 && d == s.next then 1 else 0
    case GetChunk(r) => if s.refs[r].Inline? && d == s.next then 1 else 0
    case Cp(_, src) => if s.refs[src] == Heap(d) then 1 else 0
    case BulkStart(r, copies) => if s.refs[r] == Heap(d) then copies else 0
    case _ => 0
  }

  function Loses(s: Store, op: Op, d: ChunkId): nat
    requires Allowed(s, op)
  {
    match op
    case FreeMsg(c) => if c == d then 1 else 0
    case Term(r) => if s.refs[r] == Heap(d) then 1 else 0
    case _ => 0
  }

  /** The books of chunk d across one operation. */
  lemma TotalAfter(s: Store, op: Op, d: ChunkId)
    requires Allowed(s, op)
    ensures Total(Do(s, op), d) == Total(s, d) + Gains(s, op, d) - Loses(s, op, d)
  {
    hide Holders;
    match op
    case AllocMsg =>
    case FreeMsg(c) =>
    case Init(r, size) => HoldersAfter(s.refs, r, if size < 32 then Inline else Heap(s.next), d);
    case InitChunk(r, c) => HoldersAfter(s.refs, r, Heap(c), d);
    case Term(r) => HoldersWithout(s.refs, r, d);
    case GetChunk(r) => HoldersAfter(s.refs, r, Inline, d);
    case BulkStart(r, copies) =>
    case Mv(dst, src) => MoveTotals(s, op, d);
    case Cp(dst, src) => CopyTotals(s, op, d);
    case BulkCp(dst, src) => CopyTotals(s, op, d);
  }

  lemma MoveTotals(s: Store, op: Op, d: ChunkId)
    requires Allowed(s, op) && op.Mv?
    ensures Total(Do(s, op), d) == Total(s, d)
  {
    HoldersWithout(s.refs, op.src, d);
    HoldersAfter(s.refs - {op.src}, op.dst, s.refs[op.src], d);
  }

  lemma CopyTotals(s: Store, op: Op, d: ChunkId)
    requires Allowed(s, op) && (op.Cp? || op.BulkCp?)
    ensures Total(Do(s, op), d) == Total(s, d) + Gains(s, op, d)
  {
    HoldersAfter(s.refs, op.dst, s.refs[op.src], d);
  }

  /** Only counts and freed matter beside the totals. */
  lemma SameBooks(s: Store, t: Store)
    requires Conserved(s) && (forall d :: Total(t, d) == Total(s, d))
    requires t.counts == s.counts && t.freed == s.freed && t.next == s.next && t.crashed == s.crashed
    ensures Conserved(t)
  {
  }

  lemma BooksAfterNew(s: Store, t: Store)
    requires Conserved(s) && (forall d :: Total(t, d) == Total(s, d) + if d == s.next then 1 else 0)
    requires t.counts == s.counts[s.next := 1] && t.freed == s.freed && t.next == s.next + 1 && t.crashed == s.crashed
    ensures Conserved(t)
  {
    assert Total(s, s.next) == 0;
  }

  lemma BooksAfterAdd(s: Store, t: Store, c: ChunkId, n: uint32)
    requires Conserved(s) && (forall d :: Total(t, d) == Total(s, d) + if d == c then n else 0)
    requires c in s.counts && Total(s, c) + n < TWO_32
    requires t.counts == s.counts[c := Inc(s.counts[c], n)]
    requires t.freed == s.freed && t.next == s.next && t.crashed == s.crashed
    ensures Conserved(t)
  {
  }

  lemma BooksAfterDec(s: Store, t: Store, c: ChunkId)
    requires Conserved(s) && Total(s, c) > 1 && (forall d :: Total(t, d) == Total(s, d) - if d == c then 1 else 0)
    requires c in s.counts && t.counts == s.counts[c := Dec(s.counts[c])]
    requires t.freed == s.freed && t.next == s.next && t.crashed == s.crashed
    ensures Conserved(t)
  {
  }

  lemma BooksAfterFree(s: Store, t: Store, c: ChunkId)
    requires Conserved(s) && Total(s, c) == 1 && (forall d :: Total(t, d) == Total(s, d) - if d == c then 1 else 0)
    requires c in s.counts && t.counts == s.counts - {c}
    requires t.freed == s.freed + [c] && t.next == s.next && t.crashed == s.crashed
    ensures Conserved(t)
  {
    forall i, j | 0 <= i < j < |t.freed| ensures t.freed[i] != t.freed[j] {
      assert t.freed[i] == s.freed[i] && s.freed[i] in s.freed;
    }
    forall d: ChunkId | d < t.next ensures d in t.counts || d in t.freed {
      if d in s.freed { assert d in s.freed + [c]; }
      assert c in s.freed + [c];
    }
  }

  /** The decision to deallocate is right: the chunk goes exactly with its last holder. */
  lemma BooksAfterDrop(s: Store, t: Store, c: ChunkId)
    requires Conserved(s) && Total(s, c) > 0 && (forall d :: Total(t, d) == Total(s, d) - if d == c then 1 else 0)
    requires t.counts == Drop(s, c).counts && t.freed == Drop(s, c).freed
    requires t.next == s.next && t.crashed == Drop(s, c).crashed
    ensures Conserved(t)
    ensures c in t.freed <==> Total(t, c) == 0
  {
    assert c in s.counts;
    if Total(s, c) == 1 {
      BooksAfterFree(s, t, c);
      assert c in s.freed + [c];
    } else {
      BooksAfterDec(s, t, c);
    }
  }

  /** An operation keeps the books exactly when the counter has room for what it adds. */
  lemma OpKeeps(s: Store, op: Op)
    requires Conserved(s) && Allowed(s, op)
    ensures Conserved(Do(s, op)) <==> Room(s, op)
  {
    if op.AllocMsg? || op.FreeMsg? || op.Init? || op.InitChunk? || op.Term? { OpKeepsEnds(s, op); }
    else if Room(s, op) { OpKeepsCopies(s, op); }
    else { OverflowLoses(s, op); }
  }

  /** Without room the 32-bit counter wraps and no longer tells the holders. */
  lemma OverflowLoses(s: Store, op: Op)
    requires Conserved(s) && Allowed(s, op) && !Room(s, op)
    ensures !Conserved(Do(s, op))
    ensures exists c :: c in Do(s, op).counts && Do(s, op).counts[c] != Total(Do(s, op), c)
  {
    var r := if op.Cp? then op.src else op.r;
    HeldIsLive(s, r);
    TotalAfter(s, op, s.refs[r].c);
    assert s.refs[r].c in Do(s, op).counts;
  }

  lemma OpKeepsEnds(s: Store, op: Op)
    requires Conserved(s) && Allowed(s, op)
    requires op.AllocMsg? || op.FreeMsg? || op.Init? || op.InitChunk? || op.Term?
    ensures Conserved(Do(s, op))
  {
    hide Conserved, Total, Holders;
    var t := Do(s, op);
    forall d ensures Total(t, d) == Total(s, d) + Gains(s, op, d) - Loses(s, op, d) { TotalAfter(s, op, d); }
    match op
    case AllocMsg => BooksAfterNew(s, t);
    case FreeMsg(c) => BooksAfterDrop(s, t, c);
    case Init(r, size) => if size < 32 { SameBooks(s, t); } else { BooksAfterNew(s, t); }
    case InitChunk(r, c) => SameBooks(s, t);
    case Term(r) => if s.refs[r].Heap? { HeldIsLive(s, r); BooksAfterDrop(s, t, s.refs[r].c); }
        else { SameBooks(s, t); }
  }

  lemma OpKeepsCopies(s: Store, op: Op)
    requires Conserved(s) && Allowed(s, op) && Room(s, op)
    requires op.GetChunk? || op.Mv? || op.Cp? || op.BulkStart? || op.BulkCp?
    ensures Conserved(Do(s, op))
  {
    hide Conserved, Total, Holders;
    var t := Do(s, op);
    forall d ensures Total(t, d) == Total(s, d) + Gains(s, op, d) - Loses(s, op, d) { TotalAfter(s, op, d); }
    match op
    case GetChunk(r) => if s.refs[r].Heap? { SameBooks(s, t); } else { BooksAfterNew(s, t); }
    case Mv(dst, src) => SameBooks(s, t);
    case Cp(dst, src) => if s.refs[src].Heap? { HeldIsLive(s, src); BooksAfterAdd(s, t, s.refs[src].c, 1); }
        else { SameBooks(s, t); }
    case BulkStart(r, n) => if s.refs[r].Heap? { HeldIsLive(s, r); BooksAfterAdd(s, t, s.refs[r].c, n); }
        else { SameBooks(s, t); }
    case BulkCp(dst, src) => SameBooks(s, t);
  }

  /** A heap-form reference always points at a live chunk. */
  lemma HeldIsLive(s: Store, r: RefId)
    requires Conserved(s) && r in s.refs && s.refs[r].Heap?
    ensures s.refs[r].c in s.counts && Total(s, s.refs[r].c) > 0
  {
    assert r in Holders(s.refs, s.refs[r].c);
  }

  predicate ValidRun(s: Store, ops: seq<Op>)
    decreases |ops|
  {
    ops == [] || (Allowed(s, ops[0]) && Room(s, ops[0]) && ValidRun(Do(s, ops[0]), ops[1..]))
  }

  function Run(s: Store, ops: seq<Op>): Store
    requires ValidRun(s, ops)
    decreases |ops|
  {
    if ops == [] then s else Run(Do(s, ops[0]), ops[1..])
  }

  lemma {:induction false} RunKeeps(s: Store, ops: seq<Op>)
    requires Conserved(s) && ValidRun(s, ops)
    ensures Conserved(Run(s, ops))
    decreases |ops|
  {
    if ops == [] {
    } else {
      OpKeeps(s, ops[0]);
      RunKeeps(Do(s, ops[0]), ops[1..]);
    }
  }

  /** A run of calls each of which its caller may make, with room in the counters or not. */
  predicate AllowedRun(s: Store, ops: seq<Op>)
    decreases |ops|
  {
    ops == [] || (Allowed(s, ops[0]) && AllowedRun(Do(s, ops[0]), ops[1..]))
  }

  ghost predicate AlwaysConserved(s: Store, ops: seq<Op>)
    requires AllowedRun(s, ops)
    decreases |ops|
  {
    Conserved(s) && (ops == [] || AlwaysConserved(Do(s, ops[0]), ops[1..]))
  }

  /** Exactly when the books stay right all the way. */
  lemma {:induction false} ConservedIffRoom(s: Store, ops: seq<Op>)
    requires Conserved(s) && AllowedRun(s, ops)
    ensures AlwaysConserved(s, ops) <==> ValidRun(s, ops)
    decreases |ops|
  {
    if ops == [] {
    } else {
      OpKeeps(s, ops[0]);
      if Room(s, ops[0]) { ConservedIffRoom(Do(s, ops[0]), ops[1..]); }
    }
  }

  lemma EmptyConserved()
    ensures Conserved(EMPTY)
  {
    forall c ensures Total(EMPTY, c) == 0 { assert Holders(map[], c) == {}; }
  }

  /** In every run: the refcount of a live chunk is the number of its heap-form references,
      user pointers and promised copies; a chunk ever allocated is live exactly while that
      number is positive, and was deallocated exactly once when it is zero; no operation
      ever reaches a deallocated chunk. */
  lemma RefcountsConserved(ops: seq<Op>, c: ChunkId)
    requires ValidRun(EMPTY, ops)
    ensures var s := Run(EMPTY, ops);
            && !s.crashed
            && (c in s.counts ==> s.counts[c] == |Holders(s.refs, c)| + At(s.user, c) + At(s.promised, c))
            && (c < s.next ==> (c in s.counts <==> Total(s, c) > 0))
            && multiset(s.freed)[c] == (if c < s.next && Total(s, c) == 0 then 1 else 0)
  {
    EmptyConserved();
    RunKeeps(EMPTY, ops);
    CountDistinct(Run(EMPTY, ops).freed, c);
  }

  /** Why the counter needs room: with a wrapped 32-bit counter the deallocation test of
      nn_chunk_free is right precisely while the remainder is not 0 or 1 by wrapping. */
  lemma CounterNeedsRoom(total: nat, count: uint32)
    requires total >= 1 && count == total % TWO_32
    ensures (LastRef(count) <==> total == 1) <==> (total < TWO_32 || count > 1)
  {
  }

  /** nn_msg: sphdr, hdrs and body of message m. */
  function Part(m: nat, k: nat): RefId
    requires k < 3
  {
    3 * m + k
  }

  datatype MsgOp =
    | MsgInit(m: nat, size: nat)
    | MsgInitChunk(m: nat, c: ChunkId)
    | MsgTerm(m: nat)
    | MsgMv(dst: nat, src: nat)
    | MsgCp(dst: nat, src: nat)
    | MsgBulkStart(m: nat, copies: uint32)
    | MsgBulkCp(dst: nat, src: nat)
    | MsgReplaceBody(m: nat, body: RefId)
    | Plain(op: Op)

  /** utils/msg.c, call by call. */
  function Expand(op: MsgOp): seq<Op> {
    match op
    case MsgInit(m, size) => [Init(Part(m, 0), 0), Init(Part(m, 1), 0), Init(Part(m, 2), size)]
    case MsgInitChunk(m, c) => [Init(Part(m, 0), 0), Init(Part(m, 1), 0), InitChunk(Part(m, 2), c)]
    case MsgTerm(m) => [Term(Part(m, 0)), Term(Part(m, 1)), Term(Part(m, 2))]
    case MsgMv(dst, src) => [Mv(Part(dst, 0), Part(src, 0)), Mv(Part(dst, 1), Part(src, 1)),
        Mv(Part(dst, 2), Part(src, 2))]
    case MsgCp(dst, src) => [Cp(Part(dst, 0), Part(src, 0)), Cp(Part(dst, 1), Part(src, 1)),
        Cp(Part(dst, 2), Part(src, 2))]
    case MsgBulkStart(m, n) => [BulkStart(Part(m, 0), n), BulkStart(Part(m, 1), n), BulkStart(Part(m, 2), n)]
    case MsgBulkCp(dst, src) => [BulkCp(Part(dst, 0), Part(src, 0)), BulkCp(Part(dst, 1), Part(src, 1)),
        BulkCp(Part(dst, 2), Part(src, 2))]
    case MsgReplaceBody(m, body) => [Term(Part(m, 2)), Mv(Part(m, 2), body)]
    case Plain(o) => [o]
  }

  function Flatten(ops: seq<MsgOp>): seq<Op> {
    if ops == [] then [] else Expand(ops[0]) + Flatten(ops[1..])
  }

  /** The same over any sequence of message operations. */
  lemma MessagesConserved(ops: seq<MsgOp>, c: ChunkId)
    requires ValidRun(EMPTY, Flatten(ops))
    ensures var s := Run(EMPTY, Flatten(ops));
            && !s.crashed
            && (c in s.counts ==> s.counts[c] == Total(s, c))
            && multiset(s.freed)[c] == (if c < s.next && Total(s, c) == 0 then 1 else 0)
  {
    RefcountsConserved(Flatten(ops), c);
  }

  /** A copied message: each of its three parts that is a chunk has one more holder. */
  lemma MsgCpCounts(s: Store, dst: nat, src: nat, c: ChunkId)
    requires Conserved(s) && dst != src
    requires forall k: nat :: k < 3 ==> Part(src, k) in s.refs && Part(dst, k) !in s.refs
    requires forall d :: Total(s, d) + 3 < TWO_32
    ensures ValidRun(s, Expand(MsgCp(dst, src)))
    ensures var t := Run(s, Expand(MsgCp(dst, src)));
            && (forall k: nat :: k < 3 ==> Part(dst, k) in t.refs && t.refs[Part(dst, k)] == s.refs[Part(src, k)])
            && Total(t, c) == Total(s, c) + HeldByParts(s, src, c, 3)
  {
    var ops := Expand(MsgCp(dst, src));
    CopyParts(s, dst, src, c, 0, s);
    assert ops == PartCopies(dst, src, 0);
  }

  /** How many of the first n parts of a message are references to chunk c. */
  function HeldByParts(s: Store, m: nat, c: ChunkId, n: nat): nat
    requires n <= 3 && forall k: nat :: k < 3 ==> Part(m, k) in s.refs
  {
    if n == 0 then 0 else HeldByParts(s, m, c, n - 1) + if s.refs[Part(m, n - 1)] == Heap(c) then 1 else 0
  }

  function PartCopies(dst: nat, src: nat, k: nat): seq<Op>
    requires k <= 3
    decreases 3 - k
  {
    if k == 3 then [] else [Cp(Part(dst, k), Part(src, k))] + PartCopies(dst, src, k + 1)
  }

  /** From the store s with the first k parts of s0 already copied. */
  lemma {:induction false} CopyParts(s: Store, dst: nat, src: nat, c: ChunkId, k: nat, s0: Store)
    requires Conserved(s) && dst != src && k <= 3
    requires forall j: nat :: j < 3 ==>
        Part(src, j) in s0.refs && Part(src, j) in s.refs && s.refs[Part(src, j)] == s0.refs[Part(src, j)]
    requires forall j: nat :: j < 3 ==>
        if j < k then Part(dst, j) in s.refs && s.refs[Part(dst, j)] == s0.refs[Part(src, j)]
                                        else Part(dst, j) !in s.refs
    requires forall d :: Total(s, d) + 3 - k < TWO_32
    requires Total(s, c) == Total(s0, c) + HeldByParts(s0, src, c, k)
    ensures ValidRun(s, PartCopies(dst, src, k))
    ensures var t := Run(s, PartCopies(dst, src, k));
            && (forall j: nat :: j < 3 ==> Part(dst, j) in t.refs && t.refs[Part(dst, j)] == s0.refs[Part(src, j)])
            && Total(t, c) == Total(s0, c) + HeldByParts(s0, src, c, 3)
    decreases 3 - k
  {
    if k < 3 {
      var op := Cp(Part(dst, k), Part(src, k));
      OpKeeps(s, op);
      forall d ensures Total(Do(s, op), d) == Total(s, d) + Gains(s, op, d) { CopyTotals(s, op, d); }
      CopyParts(Do(s, op), dst, src, c, k + 1, s0);
      assert PartCopies(dst, src, k)[1..] == PartCopies(dst, src, k + 1);
    }
  }

  /** Bulk copying delivers what individual copying does: announcing n copies of a message
      part and making them leaves the same store as n single copies. */
  lemma {:induction false} BulkIsManyCopies(s: Store, src: RefId, dsts: seq<RefId>)
    requires Conserved(s) && src in s.refs && |dsts| < TWO_32
    requires forall i :: 0 <= i < |dsts| ==> dsts[i] !in s.refs
    requires forall i, j :: 0 <= i < j < |dsts| ==> dsts[i] != dsts[j]
    requires s.refs[src].Heap? ==> Total(s, s.refs[src].c) + |dsts| < TWO_32
    ensures ValidRun(s, Copies(src, dsts)) && ValidRun(s, [BulkStart(src, |dsts|)] + BulkCopies(src, dsts))
    ensures var one, bulk := Run(s, Copies(src, dsts)), Run(s, [BulkStart(src, |dsts|)] + BulkCopies(src, dsts));
            SameStore(one, bulk) && forall c :: At(one.promised, c) == At(bulk.promised, c)
  {
    var bulk := Do(s, BulkStart(src, |dsts|));
    if s.refs[src].Heap? { HeldIsLive(s, src); }
    assert Owes(s, bulk, src, |dsts|);
    Lockstep(s, bulk, src, dsts);
    assert ([BulkStart(src, |dsts|)] + BulkCopies(src, dsts))[1..] == BulkCopies(src, dsts);
  }

  function Copies(src: RefId, dsts: seq<RefId>): seq<Op> { seq(|dsts|, i requires 0 <= i < |dsts| => Cp(dsts[i], src)) }

  function BulkCopies(src: RefId, dsts: seq<RefId>): seq<Op> {
    seq(|dsts|, i requires 0 <= i < |dsts| => BulkCp(dsts[i], src))
  }

  /** The bulk store owes n copies of src that the other has still to count. */
  ghost predicate Owes(a: Store, b: Store, src: RefId, n: nat) {
    && Conserved(a) && src in a.refs
    && a.refs == b.refs && a.user == b.user && a.freed == b.freed && a.next == b.next
    && (if a.refs[src].Heap? then
          var c := a.refs[src].c;
          && c in a.counts && Total(a, c) + n < TWO_32
          && b.counts == a.counts[c := a.counts[c] + n]
          && (forall d :: At(b.promised, d) == At(a.promised, d) + if d == c then n else 0)
        else b.counts == a.counts && forall d :: At(b.promised, d) == At(a.promised, d))
  }

  lemma OwesOneLess(a: Store, b: Store, src: RefId, dst: RefId, n: nat)
    requires Owes(a, b, src, n + 1) && dst !in a.refs
    ensures Allowed(a, Cp(dst, src)) && Room(a, Cp(dst, src)) && Allowed(b, BulkCp(dst, src))
    ensures Room(b, BulkCp(dst, src))
    ensures Owes(Do(a, Cp(dst, src)), Do(b, BulkCp(dst, src)), src, n)
  {
    OpKeeps(a, Cp(dst, src));
    if a.refs[src].Heap? { OneMoreCounted(a, b, src, dst, n); }
  }

  lemma OneMoreCounted(a: Store, b: Store, src: RefId, dst: RefId, n: nat)
    requires Owes(a, b, src, n + 1) && dst !in a.refs && a.refs[src].Heap?
    ensures var c, a', b' := a.refs[src].c, Do(a, Cp(dst, src)), Do(b, BulkCp(dst, src));
            && c in a'.counts && Total(a', c) == Total(a, c) + 1
            && b'.counts == a'.counts[c := a'.counts[c] + n]
            && (forall d :: At(b'.promised, d) == At(a'.promised, d) + if d == c then n else 0)
  {
    var c := a.refs[src].c;
    CopyTotals(a, Cp(dst, src), c);
    assert a.counts[c] == Total(a, c);
    assert Inc(a.counts[c], 1) == a.counts[c] + 1;
  }

  predicate SameStore(a: Store, b: Store) {
    && a.refs == b.refs && a.counts == b.counts && a.user == b.user && a.freed == b.freed && a.next == b.next
  }

  lemma {:induction false} Lockstep(a: Store, b: Store, src: RefId, dsts: seq<RefId>)
    requires Owes(a, b, src, |dsts|)
    requires forall i :: 0 <= i < |dsts| ==> dsts[i] !in a.refs
    requires forall i, j :: 0 <= i < j < |dsts| ==> dsts[i] != dsts[j]
    ensures ValidRun(a, Copies(src, dsts)) && ValidRun(b, BulkCopies(src, dsts))
    ensures SameStore(Run(a, Copies(src, dsts)), Run(b, BulkCopies(src, dsts)))
    ensures forall c :: At(Run(a, Copies(src, dsts)).promised, c) == At(Run(b, BulkCopies(src, dsts)).promised, c)
    decreases |dsts|
  {
    if dsts == [] {
      assert Copies(src, dsts) == [] && BulkCopies(src, dsts) == [];
    } else {
      var x, y := Cp(dsts[0], src), BulkCp(dsts[0], src);
      assert Copies(src, dsts)[0] == x && Copies(src, dsts)[1..] == Copies(src, dsts[1..]);
      assert BulkCopies(src, dsts)[0] == y && BulkCopies(src, dsts)[1..] == BulkCopies(src, dsts[1..]);
      OwesOneLess(a, b, src, dsts[0], |dsts| - 1);
      Lockstep(Do(a, x), Do(b, y), src, dsts[1..]);
    }
  }
}
