/** The references and chunks of modules ChunkRef and Chunk on one heap, and beside them the
    books of modules MsgStore and MsgData: every call on the bytes is the operation on the
    books, so what is proved there of all runs is true of the real counters, blocks and data
    (utils/chunkref.c). */
module MsgHeap {
  import opened Wire
  import C = ChunkRef
  import K = Chunk
  import D = MsgData
  import M = MsgStore

  type Refs = map<M.RefId, C.Ref>
  type Blocks = map<M.ChunkId, K.Chunk>
  type Ptrs = map<M.ChunkId, int>
  type Counts = map<M.ChunkId, uint32>
  type Forms = map<M.RefId, M.Ref>
  type Texts = map<M.RefId, D.Bytes>
  type Bodies = map<M.ChunkId, D.Bytes>

  ghost function Arrays(refs: Refs): set<array<byte>> { set r | r in refs :: refs[r].ref }

  ghost function Mems(blocks: Blocks): set<array<byte>> { set c | c in blocks :: blocks[c].mem }

  /** No two structures share memory. */
  ghost predicate Apart(refs: Refs, blocks: Blocks) {
    && (forall r, q :: r in refs && q in refs && r != q ==> refs[r] != refs[q] && refs[r].ref != refs[q].ref)
    && (forall c, d :: c in blocks && d in blocks && c != d ==>
        blocks[c] != blocks[d] && blocks[c].mem != blocks[d].mem)
    && (forall r, c :: r in refs && c in blocks ==> refs[r].ref != blocks[c].mem)
  }

  /** A reference is in the form v says, and holds the text or points to the chunk v says. */
  ghost predicate Fits(x: C.Ref, v: M.Ref, t: D.Bytes, blocks: Blocks, ptr: Ptrs)
    reads x, x.ref
  {
    && x.ref.Length == C.CHUNKREF_MAX
    && match v
       case Inline => x.ref[0] < C.CHUNKREF_MAX && x.ref[1..1 + x.ref[0] as int] == t
       case Heap(c) => x.ref[0] == C.HEAP && c in blocks && c in ptr && x.chunk == blocks[c] && x.at == ptr[c]
  }

  ghost predicate RefsFit(refs: Refs, vs: Forms, ts: Texts, blocks: Blocks, ptr: Ptrs)
    reads refs.Values, Arrays(refs)
  {
    refs.Keys == vs.Keys == ts.Keys && forall r :: r in refs ==> Fits(refs[r], vs[r], ts[r], blocks, ptr)
  }

  /** The counter of a live chunk is what the books count, and its data what they say. */
  ghost predicate Counted(b: K.Chunk, p: int, n: uint32, t: D.Bytes)
    reads b, b.mem
  {
    b.At(p) && b.refcount == n && b.Live(p) == t
  }

  ghost predicate BlocksFit(blocks: Blocks, ptr: Ptrs, counts: Counts, body: Bodies)
    reads blocks.Values, Mems(blocks)
  {
    && blocks.Keys == ptr.Keys == counts.Keys == body.Keys
    && forall c :: c in blocks ==> Counted(blocks[c], ptr[c], counts[c], body[c])
  }

  // ---- One chunk taken apart from the others, and put back ----

  lemma TakeBlock(refs: Refs, blocks: Blocks, ptr: Ptrs, counts: Counts, body: Bodies, c: M.ChunkId)
    requires Apart(refs, blocks) && BlocksFit(blocks, ptr, counts, body) && c in blocks
    ensures c in ptr && c in counts && c in body && Counted(blocks[c], ptr[c], counts[c], body[c])
    ensures BlocksFit(blocks - {c}, ptr - {c}, counts - {c}, body - {c})
    ensures blocks[c] !in (blocks - {c}).Values && blocks[c].mem !in Mems(blocks - {c})
    ensures blocks[c].mem !in Arrays(refs)
  {
  }

  lemma PutBlock(blocks: Blocks, ptr: Ptrs, counts: Counts, body: Bodies, c: M.ChunkId, n: uint32)
    requires c in blocks && c in ptr && c in body && BlocksFit(blocks - {c}, ptr - {c}, counts - {c}, body - {c})
    requires Counted(blocks[c], ptr[c], n, body[c])
    ensures BlocksFit(blocks, ptr, counts[c := n], body)
  {
    assert blocks.Keys == (blocks - {c}).Keys + {c};
    assert ptr.Keys == (ptr - {c}).Keys + {c};
    assert body.Keys == (body - {c}).Keys + {c};
    assert counts[c := n].Keys == (counts - {c}).Keys + {c};
    forall d | d in blocks && d != c ensures Counted(blocks[d], ptr[d], counts[d], body[d]) {
      assert d in blocks - {c} && (blocks - {c})[d] == blocks[d] && (ptr - {c})[d] == ptr[d];
    }
  }

  // ---- References and chunks that come and go ----

  lemma RefComes(refs: Refs, vs: Forms, ts: Texts, blocks: Blocks, ptr: Ptrs, r: M.RefId, x: C.Ref, v: M.Ref,
    t: D.Bytes)
    requires Apart(refs, blocks) && RefsFit(refs, vs, ts, blocks, ptr) && Fits(x, v, t, blocks, ptr) && r !in refs
    requires x !in refs.Values && x.ref !in Arrays(refs) && x.ref !in Mems(blocks)
    ensures Apart(refs[r := x], blocks) && RefsFit(refs[r := x], vs[r := v], ts[r := t], blocks, ptr)
  {
    assert forall q :: q in refs ==> refs[q] in refs.Values && refs[q].ref in Arrays(refs);
    assert forall c :: c in blocks ==> blocks[c].mem in Mems(blocks);
  }

  lemma RefGoes(refs: Refs, vs: Forms, ts: Texts, blocks: Blocks, ptr: Ptrs, r: M.RefId)
    requires Apart(refs, blocks) && RefsFit(refs, vs, ts, blocks, ptr) && r in refs
    ensures r in vs && r in ts && Fits(refs[r], vs[r], ts[r], blocks, ptr)
    ensures Apart(refs - {r}, blocks) && RefsFit(refs - {r}, vs - {r}, ts - {r}, blocks, ptr)
    ensures refs[r] !in (refs - {r}).Values && refs[r].ref !in Arrays(refs - {r}) && refs[r].ref !in Mems(blocks)
  {
  }

  lemma BlockComes(refs: Refs, vs: Forms, ts: Texts, blocks: Blocks, ptr: Ptrs, counts: Counts, body: Bodies,
    c: M.ChunkId, b: K.Chunk, p: int, t: D.Bytes)
    requires Apart(refs, blocks) && RefsFit(refs, vs, ts, blocks, ptr) && BlocksFit(blocks, ptr, counts, body)
    requires c !in blocks && Counted(b, p, 1, t)
    requires b !in blocks.Values && b.mem !in Mems(blocks) && b.mem !in Arrays(refs)
    ensures Apart(refs, blocks[c := b]) && RefsFit(refs, vs, ts, blocks[c := b], ptr[c := p])
    ensures BlocksFit(blocks[c := b], ptr[c := p], counts[c := 1], body[c := t])
  {
    hide Fits, Counted;
    StillApart(refs, blocks, c, b);
    forall q | q in refs ensures Fits(refs[q], vs[q], ts[q], blocks[c := b], ptr[c := p]) {
      StillFits(refs[q], vs[q], ts[q], blocks, ptr, c, b, p);
    }
  }

  lemma StillApart(refs: Refs, blocks: Blocks, c: M.ChunkId, b: K.Chunk)
    requires Apart(refs, blocks) && c !in blocks
    requires b !in blocks.Values && b.mem !in Mems(blocks) && b.mem !in Arrays(refs)
    ensures Apart(refs, blocks[c := b])
  {
    assert forall d :: d in blocks ==> blocks[d] in blocks.Values && blocks[d].mem in Mems(blocks);
    assert forall q :: q in refs ==> refs[q].ref in Arrays(refs);
  }

  lemma StillFits(x: C.Ref, v: M.Ref, t: D.Bytes, blocks: Blocks, ptr: Ptrs, c: M.ChunkId, b: K.Chunk, p: int)
    requires Fits(x, v, t, blocks, ptr) && c !in blocks
    ensures Fits(x, v, t, blocks[c := b], ptr[c := p])
  {
  }

  lemma BlockGoes(refs: Refs, vs: Forms, ts: Texts, blocks: Blocks, ptr: Ptrs, c: M.ChunkId)
    requires Apart(refs, blocks) && RefsFit(refs, vs, ts, blocks, ptr) && forall r :: r in vs ==> vs[r] != M.Heap(c)
    ensures Apart(refs, blocks - {c}) && RefsFit(refs, vs, ts, blocks - {c}, ptr - {c})
  {
    forall q | q in refs ensures Fits(refs[q], vs[q], ts[q], blocks - {c}, ptr - {c}) {
      assert Fits(refs[q], vs[q], ts[q], blocks, ptr);
    }
  }

  lemma NobodyHolds(s: M.Store, c: M.ChunkId)
    requires M.Conserved(s) && c !in s.counts
    ensures forall r :: r in s.refs ==> s.refs[r] != M.Heap(c)
  {
    assert M.Total(s, c) == 0;
    assert M.Holders(s.refs, c) == {};
    forall r | r in s.refs ensures s.refs[r] != M.Heap(c) { assert r !in M.Holders(s.refs, c); }
  }

  /** The initialised references, the live chunks, and the data pointer of each chunk. */
  datatype Heap = Heap(refs: Refs, blocks: Blocks, ptr: Ptrs, next: M.ChunkId)

  /** The heap is as the books say. */
  ghost predicate Kept(h: Heap, books: D.Books)
    reads h.refs.Values, Arrays(h.refs), h.blocks.Values, Mems(h.blocks)
  {
    && Apart(h.refs, h.blocks) && RefsFit(h.refs, books.store.refs, books.text, h.blocks, h.ptr)
    && BlocksFit(h.blocks, h.ptr, books.store.counts, books.body)
    && D.Sound(books) && h.next == books.store.next
  }

  lemma Usable(h: Heap, books: D.Books, r: M.RefId)
    requires Kept(h, books) && r in books.store.refs
    ensures r in h.refs && r in books.text && h.refs[r].Valid()
    ensures var v := books.store.refs[r];
            && Fits(h.refs[r], v, books.text[r], h.blocks, h.ptr) && (h.refs[r].IsHeap() <==> v.Heap?)
            && (v.Heap? ==> v.c in h.blocks && h.blocks[v.c] in h.blocks.Values)
  {
    var v := books.store.refs[r];
    if v.Heap? { assert Counted(h.blocks[v.c], h.ptr[v.c], books.store.counts[v.c], books.body[v.c]); }
  }

  /** What the reference on the heap stands for is what the books say. */
  lemma StandsFor(h: Heap, books: D.Books, r: M.RefId)
    requires Kept(h, books) && r in h.refs
    ensures h.refs[r].Valid() && r in books.text && h.refs[r].Contents() == books.text[r]
  {
    Usable(h, books, r);
    var v := books.store.refs[r];
    if v.Heap? { assert Counted(h.blocks[v.c], h.ptr[v.c], books.store.counts[v.c], books.body[v.c]); }
  }

  lemma IsSound(h: Heap, books: D.Books)
    requires Kept(h, books)
    ensures D.Sound(books)
  {
  }

  lemma NewName(h: Heap, books: D.Books, r: M.RefId)
    requires Kept(h, books) && r !in books.store.refs
    ensures r !in h.refs
  {
  }

  lemma NextIsNew(h: Heap, books: D.Books)
    requires Kept(h, books)
    ensures h.next !in books.store.counts && h.next !in h.blocks
  {
  }

  /** What is on the heap was there before or is new. */
  twostate predicate Grown(h: Heap, new h': Heap) {
    && (forall r {:trigger h'.refs[r]} :: r in h'.refs ==>
          (r in h.refs && h'.refs[r] == h.refs[r]) || (fresh(h'.refs[r]) && fresh(h'.refs[r].ref)))
    && (forall c {:trigger h'.blocks[c]} :: c in h'.blocks ==>
          (c in h.blocks && h'.blocks[c] == h.blocks[c]) || (fresh(h'.blocks[c]) && fresh(h'.blocks[c].mem)))
  }

  // ---- nn_chunkref_cp ----

  /** A copy of a reference in heap form counts one more. */
  method CopyHeap(h: Heap, ghost books: D.Books, src: M.RefId, ghost c: M.ChunkId) returns (to: C.Ref)
    requires Kept(h, books) && src in books.store.refs && src in h.refs && src in books.text
    requires books.store.refs[src] == M.Heap(c)
    modifies h.blocks.Values
    ensures fresh(to) && fresh(to.ref) && Fits(to, M.Heap(c), books.text[src], h.blocks, h.ptr)
    ensures c in books.store.counts && RefsFit(h.refs, books.store.refs, books.text, h.blocks, h.ptr)
    ensures BlocksFit(h.blocks, h.ptr, books.store.counts[c := K.Inc(books.store.counts[c], 1)], books.body)
  {
    hide M.Conserved, D.Agree, RefsFit, BlocksFit, Apart;
    Usable(h, books, src);
    TakeBlock(h.refs, h.blocks, h.ptr, books.store.counts, books.body, c);
    to := new C.Ref.Raw();
    C.Cp(to, h.refs[src]);
    assert RefsFit(h.refs, books.store.refs, books.text, h.blocks, h.ptr);
    assert BlocksFit(h.blocks - {c}, h.ptr - {c}, books.store.counts - {c}, books.body - {c});
    PutBlock(h.blocks, h.ptr, books.store.counts, books.body, c, K.Inc(books.store.counts[c], 1));
  }

  method CopyInline(h: Heap, ghost books: D.Books, src: M.RefId) returns (to: C.Ref)
    requires Kept(h, books) && src in books.store.refs && src in h.refs && src in books.text
    requires books.store.refs[src].Inline?
    ensures fresh(to) && fresh(to.ref) && Fits(to, M.Inline, books.text[src], h.blocks, h.ptr)
    ensures Kept(h, books)
  {
    hide M.Conserved, D.Agree, RefsFit, BlocksFit, Apart;
    Usable(h, books, src);
    assert allocated(Arrays(h.refs)) && allocated(Mems(h.blocks));
    to := new C.Ref.Raw();
    C.Cp(to, h.refs[src]);
    assert RefsFit(h.refs, books.store.refs, books.text, h.blocks, h.ptr);
    assert BlocksFit(h.blocks, h.ptr, books.store.counts, books.body);
  }

  method Cp(h: Heap, ghost books: D.Books, dst: M.RefId, src: M.RefId) returns (h': Heap)
    requires Kept(h, books) && M.Allowed(books.store, M.Cp(dst, src)) && M.Room(books.store, M.Cp(dst, src))
    modifies h.blocks.Values
    ensures Kept(h', D.After(books, M.Cp(dst, src), [])) && Grown(h, h')
  {
    hide M.Conserved, D.Agree, M.Room, RefsFit, BlocksFit, Apart, Fits;
    D.OpSound(books, M.Cp(dst, src), []);
    Usable(h, books, src);
    NewName(h, books, dst);
    ghost var v := books.store.refs[src];
    var to;
    if h.refs[src].ref[0] == C.HEAP { to := CopyHeap(h, books, src, v.c); } else { to := CopyInline(h, books, src); }
    RefComes(h.refs, books.store.refs, books.text, h.blocks, h.ptr, dst, to, v, books.text[src]);
    h' := h.(refs := h.refs[dst := to]);
  }

  // ---- nn_allocmsg and nn_freemsg ----

  method AllocMsg(h: Heap, ghost books: D.Books, size: nat) returns (h': Heap, ghost raw: D.Bytes)
    requires Kept(h, books) && size + K.HDRSZ < TWO_64
    ensures |raw| == size && Kept(h', D.After(books, M.AllocMsg, raw)) && Grown(h, h')
  {
    hide M.Conserved, D.Agree, RefsFit, BlocksFit, Apart, Fits;
    assert allocated(Arrays(h.refs)) && allocated(Mems(h.blocks));
    var b := new K.Chunk(size);
    raw := b.Live(K.HDRSZ);
    D.OpSound(books, M.AllocMsg, raw);
    NextIsNew(h, books);
    h' := WithChunk(h, books.store.refs, books.text, books.store.counts, books.body, b, K.HDRSZ, raw);
  }

  /** A fresh chunk gets the next name. */
  method WithChunk(h: Heap, ghost vs: Forms, ghost ts: Texts, ghost counts: Counts, ghost body: Bodies, b: K.Chunk,
                   p: int, ghost t: D.Bytes)
    returns (h': Heap)
    requires Apart(h.refs, h.blocks) && RefsFit(h.refs, vs, ts, h.blocks, h.ptr)
    requires BlocksFit(h.blocks, h.ptr, counts, body) && h.next !in h.blocks && Counted(b, p, 1, t)
    requires b !in h.blocks.Values && b.mem !in Mems(h.blocks) && b.mem !in Arrays(h.refs)
    ensures h'.refs == h.refs && h'.next == h.next + 1
    ensures h'.blocks == h.blocks[h.next := b] && h'.ptr == h.ptr[h.next := p]
    ensures Apart(h'.refs, h'.blocks) && RefsFit(h'.refs, vs, ts, h'.blocks, h'.ptr)
    ensures BlocksFit(h'.blocks, h'.ptr, counts[h.next := 1], body[h.next := t])
  {
    hide M.Conserved, D.Agree, RefsFit, BlocksFit, Apart, Counted;
    BlockComes(h.refs, vs, ts, h.blocks, h.ptr, counts, body, h.next, b, p, t);
    h' := h.(blocks := h.blocks[h.next := b], ptr := h.ptr[h.next := p], next := h.next + 1);
  }

  method FreeMsg(h: Heap, ghost books: D.Books, c: M.ChunkId) returns (h': Heap)
    requires Kept(h, books) && M.Allowed(books.store, M.FreeMsg(c))
    modifies h.blocks.Values, Mems(h.blocks)
    ensures Kept(h', D.After(books, M.FreeMsg(c), [])) && Grown(h, h')
  {
    hide M.Conserved, D.Agree, RefsFit, BlocksFit, Apart, Fits;
    D.OpSound(books, M.FreeMsg(c), []);
    Owned(h, books, c);
    h' := Release(h, books, c, D.After(books, M.FreeMsg(c), []));
  }

  lemma Owned(h: Heap, books: D.Books, c: M.ChunkId)
    requires Kept(h, books) && M.At(books.store.user, c) > 0
    ensures c in h.blocks && c in books.store.counts
  {
    assert M.Total(books.store, c) > 0;
  }

  /** The books after a holder of c has gone. */
  ghost predicate Loses(books: D.Books, c: M.ChunkId, after: D.Books) {
    && D.Sound(after) && after.store.next == books.store.next
    && after.store.counts == M.Drop(books.store, c).counts && after.body == D.Lost(books.store, c, books.body)
  }

  /** nn_chunk_free of a chunk that nobody but the references of `after` may hold afterwards. */
  method Release(h: Heap, ghost books: D.Books, c: M.ChunkId, ghost after: D.Books) returns (h': Heap)
    requires Apart(h.refs, h.blocks) && RefsFit(h.refs, after.store.refs, after.text, h.blocks, h.ptr)
    requires BlocksFit(h.blocks, h.ptr, books.store.counts, books.body)
    requires c in h.blocks && h.next == books.store.next && Loses(books, c, after)
    modifies h.blocks.Values, Mems(h.blocks)
    ensures Kept(h', after) && Grown(h, h')
  {
    hide M.Conserved, D.Agree, RefsFit, BlocksFit, Apart, Fits;
    TakeBlock(h.refs, h.blocks, h.ptr, books.store.counts, books.body, c);
    h.blocks[c].Free(h.ptr[c]);
    assert RefsFit(h.refs, after.store.refs, after.text, h.blocks, h.ptr);
    assert BlocksFit(h.blocks - {c}, h.ptr - {c}, books.store.counts - {c}, books.body - {c});
    h' := Settle(h, books, c, after);
  }

  /** A chunk that has lost a holder leaves the heap if it was deallocated. */
  method Settle(h: Heap, ghost books: D.Books, c: M.ChunkId, ghost after: D.Books) returns (h': Heap)
    requires Apart(h.refs, h.blocks) && RefsFit(h.refs, after.store.refs, after.text, h.blocks, h.ptr)
    requires c in h.blocks && c in h.ptr && c in books.store.counts && c in books.body
    requires BlocksFit(h.blocks - {c}, h.ptr - {c}, books.store.counts - {c}, books.body - {c})
    requires h.blocks[c].freed == K.LastRef(books.store.counts[c])
    requires !h.blocks[c].freed ==> Counted(h.blocks[c], h.ptr[c], K.Dec(books.store.counts[c]), books.body[c])
    requires h.next == books.store.next && Loses(books, c, after)
    ensures Kept(h', after) && Grown(h, h')
  {
    hide M.Conserved, D.Agree, RefsFit, BlocksFit, Apart, Fits;
    if h.blocks[c].freed {
      NobodyHolds(after.store, c);
      BlockGoes(h.refs, after.store.refs, after.text, h.blocks, h.ptr, c);
      h' := h.(blocks := h.blocks - {c}, ptr := h.ptr - {c});
    } else {
      PutBlock(h.blocks, h.ptr, books.store.counts, books.body, c, K.Dec(books.store.counts[c]));
      h' := h;
    }
  }

  // ---- nn_chunkref_init, nn_chunkref_init_chunk and nn_chunkref_term ----

  method Init(h: Heap, ghost books: D.Books, r: M.RefId, size: nat) returns (h': Heap, ghost raw: D.Bytes)
    requires Kept(h, books) && M.Allowed(books.store, M.Init(r, size)) && size + K.HDRSZ < TWO_64
    ensures |raw| == size && Kept(h', D.After(books, M.Init(r, size), raw)) && Grown(h, h')
  {
    hide M.Conserved, D.Agree, RefsFit, BlocksFit, Apart, Fits, Counted;
    NewName(h, books, r);
    assert allocated(Arrays(h.refs)) && allocated(Mems(h.blocks));
    var x;
    x, raw := Initialised(size);
    D.OpSound(books, M.Init(r, size), raw);
    assert RefsFit(h.refs, books.store.refs, books.text, h.blocks, h.ptr);
    assert BlocksFit(h.blocks, h.ptr, books.store.counts, books.body);
    if size < C.CHUNKREF_MAX {
      IsInline(x, h.blocks, h.ptr);
      RefComes(h.refs, books.store.refs, books.text, h.blocks, h.ptr, r, x, M.Inline, raw);
      h' := h.(refs := h.refs[r := x]);
    } else {
      h' := InitHeap(h, books, r, x, raw);
    }
  }

  /** A reference on the stack, initialised. */
  method Initialised(size: nat) returns (x: C.Ref, ghost raw: D.Bytes)
    requires size + K.HDRSZ < TWO_64
    ensures fresh(x) && fresh(x.ref) && x.Valid() && (x.IsHeap() <==> size >= C.CHUNKREF_MAX)
    ensures |raw| == size && x.Contents() == raw
    ensures x.IsHeap() ==>
              fresh(x.chunk) && fresh(x.chunk.mem) && x.ref != x.chunk.mem && Counted(x.chunk, x.at, 1, raw)
  {
    x := new C.Ref.Raw();
    x.Init(size);
    raw := x.Contents();
  }

  lemma IsInline(x: C.Ref, blocks: Blocks, ptr: Ptrs)
    requires x.Valid() && !x.IsHeap()
    ensures Fits(x, M.Inline, x.Contents(), blocks, ptr)
  {
  }

  lemma IsHeap(x: C.Ref, t: D.Bytes, blocks: Blocks, ptr: Ptrs, c: M.ChunkId)
    requires x.Valid() && x.IsHeap() && c in blocks && blocks[c] == x.chunk && c in ptr && ptr[c] == x.at
    ensures Fits(x, M.Heap(c), t, blocks, ptr)
  {
  }

  method InitHeap(h: Heap, ghost books: D.Books, r: M.RefId, x: C.Ref, ghost raw: D.Bytes) returns (h': Heap)
    requires Kept(h, books) && r !in h.refs && x.Valid() && x.IsHeap() && Counted(x.chunk, x.at, 1, raw)
    requires x !in h.refs.Values && x.ref !in Arrays(h.refs) && x.ref !in Mems(h.blocks) && x.ref != x.chunk.mem
    requires x.chunk !in h.blocks.Values && x.chunk.mem !in Mems(h.blocks) && x.chunk.mem !in Arrays(h.refs)
    requires r !in books.store.refs && D.Sound(D.After(books, M.Init(r, C.CHUNKREF_MAX), raw))
    ensures Kept(h', D.After(books, M.Init(r, C.CHUNKREF_MAX), raw))
    ensures h'.refs == h.refs[r := x] && h'.blocks == h.blocks[h.next := x.chunk]
  {
    hide M.Conserved, D.Agree, RefsFit, BlocksFit, Apart, Fits, Counted;
    NextIsNew(h, books);
    h' := WithChunk(h, books.store.refs, books.text, books.store.counts, books.body, x.chunk, x.at, raw);
    IsHeap(x, raw, h'.blocks, h'.ptr, h.next);
    RefComes(h'.refs, books.store.refs, books.text, h'.blocks, h'.ptr, r, x, M.Heap(h.next), raw);
    h' := h'.(refs := h'.refs[r := x]);
  }

  method InitChunk(h: Heap, ghost books: D.Books, r: M.RefId, c: M.ChunkId) returns (h': Heap)
    requires Kept(h, books) && M.Allowed(books.store, M.InitChunk(r, c))
    ensures Kept(h', D.After(books, M.InitChunk(r, c), [])) && Grown(h, h')
  {
    hide M.Conserved, D.Agree, RefsFit, BlocksFit, Apart, Fits, Counted;
    D.OpSound(books, M.InitChunk(r, c), []);
    NewName(h, books, r);
    Owned(h, books, c);
    TakeBlock(h.refs, h.blocks, h.ptr, books.store.counts, books.body, c);
    IsAt(h.blocks[c], h.ptr[c], books.store.counts[c], books.body[c]);
    assert allocated(Arrays(h.refs)) && allocated(Mems(h.blocks));
    var x := PointerTo(h.blocks[c], h.ptr[c]);
    assert RefsFit(h.refs, books.store.refs, books.text, h.blocks, h.ptr);
    assert BlocksFit(h.blocks, h.ptr, books.store.counts, books.body);
    IsHeap(x, books.body[c], h.blocks, h.ptr, c);
    RefComes(h.refs, books.store.refs, books.text, h.blocks, h.ptr, r, x, M.Heap(c), books.body[c]);
    h' := h.(refs := h.refs[r := x]);
  }

  lemma IsAt(b: K.Chunk, p: int, n: uint32, t: D.Bytes)
    requires Counted(b, p, n, t)
    ensures b.At(p)
  {
  }

  /** A reference on the stack that takes over a pointer. */
  method PointerTo(b: K.Chunk, p: int) returns (x: C.Ref)
    requires b.At(p)
    ensures fresh(x) && fresh(x.ref) && x.Valid() && x.IsHeap() && x.chunk == b && x.at == p
  {
    x := new C.Ref.Raw();
    x.InitChunk(b, p);
  }

  method Term(h: Heap, ghost books: D.Books, r: M.RefId) returns (h': Heap)
    requires Kept(h, books) && M.Allowed(books.store, M.Term(r))
    modifies h.blocks.Values, Mems(h.blocks)
    ensures Kept(h', D.After(books, M.Term(r), [])) && Grown(h, h')
  {
    hide M.Conserved, D.Agree, RefsFit, BlocksFit, Apart, Fits;
    D.OpSound(books, M.Term(r), []);
    Usable(h, books, r);
    RefGoes(h.refs, books.store.refs, books.text, h.blocks, h.ptr, r);
    ghost var after := D.After(books, M.Term(r), []);
    h' := h.(refs := h.refs - {r});
    if h.refs[r].ref[0] == C.HEAP {
      Target(h, books, r);
      var c :| c in h.blocks && h.blocks[c] == h.refs[r].chunk;
      h' := TermHeap(h', books, h.refs[r], c, after);
    } else {
      h.refs[r].Term();
    }
  }

  /** The chunk behind a reference in heap form, by its name. */
  lemma Target(h: Heap, books: D.Books, r: M.RefId)
    requires Kept(h, books) && r in books.store.refs && books.store.refs[r].Heap?
    ensures r in h.refs && books.store.refs[r].c in books.store.counts
    ensures forall c :: c in h.blocks && h.blocks[c] == h.refs[r].chunk <==> c == books.store.refs[r].c
  {
    assert Fits(h.refs[r], books.store.refs[r], books.text[r], h.blocks, h.ptr);
  }

  /** nn_chunkref_term of a reference in heap form, which is no longer among those of h. */
  method TermHeap(h: Heap, ghost books: D.Books, x: C.Ref, c: M.ChunkId, ghost after: D.Books) returns (h': Heap)
    requires Apart(h.refs, h.blocks) && RefsFit(h.refs, after.store.refs, after.text, h.blocks, h.ptr)
    requires BlocksFit(h.blocks, h.ptr, books.store.counts, books.body)
    requires x.Valid() && x.IsHeap() && c in h.blocks && x.chunk == h.blocks[c] && c in h.ptr && x.at == h.ptr[c]
    requires h.next == books.store.next && Loses(books, c, after)
    modifies h.blocks.Values, Mems(h.blocks)
    ensures Kept(h', after) && Grown(h, h')
  {
    hide M.Conserved, D.Agree, RefsFit, BlocksFit, Apart;
    TakeBlock(h.refs, h.blocks, h.ptr, books.store.counts, books.body, c);
    x.Term();
    assert RefsFit(h.refs, after.store.refs, after.text, h.blocks, h.ptr);
    assert BlocksFit(h.blocks - {c}, h.ptr - {c}, books.store.counts - {c}, books.body - {c});
    h' := Settle(h, books, c, after);
  }

  // ---- nn_chunkref_getchunk and nn_chunkref_mv ----

  method GetChunk(h: Heap, ghost books: D.Books, r: M.RefId) returns (h': Heap)
    requires Kept(h, books) && M.Allowed(books.store, M.GetChunk(r))
    modifies Arrays(h.refs)
    ensures Kept(h', D.After(books, M.GetChunk(r), [])) && Grown(h, h')
  {
    hide M.Conserved, D.Agree, M.Do, D.TextAfter, D.BodyAfter, RefsFit, BlocksFit, Apart, Fits, Counted;
    D.OpSound(books, M.GetChunk(r), []);
    Gotten(books, r);
    Usable(h, books, r);
    h' := TakenOut(h, books, r);
    h' := Back(h', books, r, h.refs[r]);
  }

  /** The reference gives up its bytes, and a chunk is made for them if it had none. */
  method TakenOut(h: Heap, ghost books: D.Books, r: M.RefId) returns (h': Heap)
    requires Kept(h, books) && r in books.store.refs && r in h.refs
    modifies Arrays(h.refs)
    ensures h'.refs == h.refs - {r} && Grown(h, h') && Apart(h'.refs, h'.blocks)
    ensures RefsFit(h'.refs, books.store.refs - {r}, books.text - {r}, h'.blocks, h'.ptr)
    ensures var t := D.After(books, M.GetChunk(r), []);
            BlocksFit(h'.blocks, h'.ptr, t.store.counts, t.body) && h'.next == t.store.next
    ensures var x := h.refs[r];
            && x.Valid() && !x.IsHeap() && x.Contents() == []
            && x !in h'.refs.Values && x.ref !in Arrays(h'.refs) && x.ref !in Mems(h'.blocks)
  {
    hide M.Conserved, D.Agree, M.Do, D.TextAfter, D.BodyAfter, RefsFit, BlocksFit, Apart, Fits, Counted;
    Gotten(books, r);
    Usable(h, books, r);
    NextIsNew(h, books);
    RefGoes(h.refs, books.store.refs, books.text, h.blocks, h.ptr, r);
    var heap := h.refs[r].ref[0] == C.HEAP;
    var b, p := Emptied(h, books, r);
    h' := h.(refs := h.refs - {r});
    if !heap {
      ghost var s, t: Texts := books.store, books.text;
      h' := WithChunk(h', s.refs - {r}, t - {r}, s.counts, books.body, b, p, t[r]);
    }
  }

  /** Either way the reference is left empty. */
  lemma Gotten(books: D.Books, r: M.RefId)
    requires D.Agree(books) && r in books.store.refs
    ensures var t, s := D.After(books, M.GetChunk(r), []), books.store;
            && t.store.refs == s.refs[r := M.Inline] && t.text == books.text[r := []]
            && if s.refs[r].Heap? then t.store.counts == s.counts && t.store.next == s.next && t.body == books.body
               else t.store.counts == s.counts[s.next := 1] && t.store.next == s.next + 1 &&
                    t.body == books.body[s.next := books.text[r]]
  {
  }

  /** The reference itself, with what the others stand for kept apart. */
  method Emptied(h: Heap, ghost books: D.Books, r: M.RefId) returns (b: K.Chunk, p: int)
    requires Kept(h, books) && r in books.store.refs && r in h.refs
    modifies Arrays(h.refs)
    ensures h.refs[r].Valid() && !h.refs[r].IsHeap() && h.refs[r].Contents() == []
    ensures RefsFit(h.refs - {r}, books.store.refs - {r}, books.text - {r}, h.blocks, h.ptr)
    ensures BlocksFit(h.blocks, h.ptr, books.store.counts, books.body)
    ensures books.store.refs[r].Inline? ==>
              r in books.text && fresh(b) && fresh(b.mem) && Counted(b, p, 1, books.text[r])
  {
    hide M.Conserved, D.Agree, RefsFit, BlocksFit, Apart;
    Usable(h, books, r);
    RefGoes(h.refs, books.store.refs, books.text, h.blocks, h.ptr, r);
    assert allocated(Arrays(h.refs)) && allocated(Mems(h.blocks));
    b, p := h.refs[r].GetChunk();
    assert RefsFit(h.refs - {r}, books.store.refs - {r}, books.text - {r}, h.blocks, h.ptr);
    assert BlocksFit(h.blocks, h.ptr, books.store.counts, books.body);
  }

  /** And put back, in its inline form. */
  method Back(h: Heap, ghost books: D.Books, r: M.RefId, x: C.Ref) returns (h': Heap)
    requires Apart(h.refs, h.blocks) && RefsFit(h.refs, books.store.refs - {r}, books.text - {r}, h.blocks, h.ptr)
    requires r !in h.refs && x.Valid() && !x.IsHeap() && x.Contents() == []
    requires x !in h.refs.Values && x.ref !in Arrays(h.refs) && x.ref !in Mems(h.blocks)
    ensures h' == h.(refs := h.refs[r := x])
    ensures Apart(h'.refs, h'.blocks)
    ensures RefsFit(h'.refs, books.store.refs[r := M.Inline], books.text[r := []], h'.blocks, h'.ptr)
  {
    hide RefsFit, Apart, Fits;
    IsInline(x, h.blocks, h.ptr);
    RefComes(h.refs, books.store.refs - {r}, books.text - {r}, h.blocks, h.ptr, r, x, M.Inline, []);
    assert (books.text - {r})[r := []] == books.text[r := []];
    assert (books.store.refs - {r})[r := M.Inline] == books.store.refs[r := M.Inline];
    h' := h.(refs := h.refs[r := x]);
  }

  method Mv(h: Heap, ghost books: D.Books, dst: M.RefId, src: M.RefId) returns (h': Heap)
    requires Kept(h, books) && M.Allowed(books.store, M.Mv(dst, src))
    ensures Kept(h', D.After(books, M.Mv(dst, src), [])) && Grown(h, h')
  {
    hide M.Conserved, D.Agree, RefsFit, BlocksFit, Apart, Fits;
    D.OpSound(books, M.Mv(dst, src), []);
    Usable(h, books, src);
    NewName(h, books, dst);
    assert allocated(Arrays(h.refs)) && allocated(Mems(h.blocks));
    ghost var v := books.store.refs[src];
    ghost var t := books.text[src];
    var to := Moved(h, h.refs[src], v, t);
    assert RefsFit(h.refs, books.store.refs, books.text, h.blocks, h.ptr);
    assert BlocksFit(h.blocks, h.ptr, books.store.counts, books.body);
    RefGoes(h.refs, books.store.refs, books.text, h.blocks, h.ptr, src);
    RefComes(h.refs - {src}, books.store.refs - {src}, books.text - {src}, h.blocks, h.ptr, dst, to, v, t);
    h' := h.(refs := (h.refs - {src})[dst := to]);
  }

  method Moved(h: Heap, from: C.Ref, ghost v: M.Ref, ghost t: D.Bytes) returns (to: C.Ref)
    requires from.Valid() && Fits(from, v, t, h.blocks, h.ptr)
    ensures fresh(to) && fresh(to.ref) && Fits(to, v, t, h.blocks, h.ptr)
  {
    to := new C.Ref.Raw();
    C.Mv(to, from);
  }

  // ---- nn_chunkref_bulkcopy_start and nn_chunkref_bulkcopy_cp ----

  method BulkStart(h: Heap, ghost books: D.Books, r: M.RefId, copies: uint32)
    requires Kept(h, books) && M.Allowed(books.store, M.BulkStart(r, copies))
    requires M.Room(books.store, M.BulkStart(r, copies))
    modifies h.blocks.Values
    ensures Kept(h, D.After(books, M.BulkStart(r, copies), []))
  {
    hide M.Conserved, D.Agree, M.Room, RefsFit, BlocksFit, Apart, Fits;
    D.OpSound(books, M.BulkStart(r, copies), []);
    Usable(h, books, r);
    if h.refs[r].ref[0] == C.HEAP {
      Announce(h, books, r, books.store.refs[r].c, copies);
    } else {
      assert allocated(Arrays(h.refs)) && allocated(Mems(h.blocks));
      C.BulkCopyStart(h.refs[r], copies);
      assert RefsFit(h.refs, books.store.refs, books.text, h.blocks, h.ptr);
    assert BlocksFit(h.blocks, h.ptr, books.store.counts, books.body);
    }
  }

  method Announce(h: Heap, ghost books: D.Books, r: M.RefId, ghost c: M.ChunkId, copies: uint32)
    requires Kept(h, books) && r in books.store.refs && r in h.refs && books.store.refs[r] == M.Heap(c)
    modifies h.blocks.Values
    ensures RefsFit(h.refs, books.store.refs, books.text, h.blocks, h.ptr) && c in books.store.counts
    ensures BlocksFit(h.blocks, h.ptr, books.store.counts[c := K.Inc(books.store.counts[c], copies)], books.body)
  {
    hide M.Conserved, D.Agree, RefsFit, BlocksFit, Apart;
    Usable(h, books, r);
    TakeBlock(h.refs, h.blocks, h.ptr, books.store.counts, books.body, c);
    C.BulkCopyStart(h.refs[r], copies);
    assert RefsFit(h.refs, books.store.refs, books.text, h.blocks, h.ptr);
    assert BlocksFit(h.blocks - {c}, h.ptr - {c}, books.store.counts - {c}, books.body - {c});
    PutBlock(h.blocks, h.ptr, books.store.counts, books.body, c, K.Inc(books.store.counts[c], copies));
  }

  method BulkCp(h: Heap, ghost books: D.Books, dst: M.RefId, src: M.RefId) returns (h': Heap)
    requires Kept(h, books) && M.Allowed(books.store, M.BulkCp(dst, src))
    ensures Kept(h', D.After(books, M.BulkCp(dst, src), [])) && Grown(h, h')
  {
    hide M.Conserved, D.Agree, RefsFit, BlocksFit, Apart, Fits;
    D.OpSound(books, M.BulkCp(dst, src), []);
    Usable(h, books, src);
    NewName(h, books, dst);
    assert allocated(Arrays(h.refs)) && allocated(Mems(h.blocks));
    var to := BulkCopied(h, h.refs[src], books.store.refs[src], books.text[src]);
    assert RefsFit(h.refs, books.store.refs, books.text, h.blocks, h.ptr);
    assert BlocksFit(h.blocks, h.ptr, books.store.counts, books.body);
    RefComes(h.refs, books.store.refs, books.text, h.blocks, h.ptr, dst, to, books.store.refs[src], books.text[src]);
    h' := h.(refs := h.refs[dst := to]);
  }

  method BulkCopied(h: Heap, from: C.Ref, ghost v: M.Ref, ghost t: D.Bytes) returns (to: C.Ref)
    requires from.Valid() && Fits(from, v, t, h.blocks, h.ptr)
    ensures fresh(to) && fresh(to.ref) && Fits(to, v, t, h.blocks, h.ptr)
  {
    to := new C.Ref.Raw();
    C.BulkCopyCp(to, from);
  }

  // ---- All of them ----

  /** Chunks and references of a size that fits in memory. */
  predicate Sized(op: M.Op, size: nat) { size + K.HDRSZ < TWO_64 && (op.Init? ==> op.size + K.HDRSZ < TWO_64) }

  /** One operation; `size` is that of a message to be made, raw what its memory happens to hold. */
  method Do(h: Heap, ghost books: D.Books, op: M.Op, size: nat) returns (h': Heap, ghost raw: D.Bytes)
    requires Kept(h, books) && M.Allowed(books.store, op) && M.Room(books.store, op) && Sized(op, size)
    modifies h.blocks.Values, Mems(h.blocks), Arrays(h.refs)
    ensures Kept(h', D.After(books, op, raw)) && Grown(h, h')
    ensures (op.AllocMsg? ==> |raw| == size) && (op.Init? ==> |raw| == op.size)
  {
    hide M.Conserved, M.Room, M.Allowed, M.Do, D.After, D.Agree, Kept;
    h', raw := h, [];
    match op {
      case AllocMsg => h', raw := AllocMsg(h, books, size);
      case FreeMsg(c) => h' := FreeMsg(h, books, c);
      case Init(r, n) => h', raw := Init(h, books, r, n);
      case InitChunk(r, c) => h' := InitChunk(h, books, r, c);
      case Term(r) => h' := Term(h, books, r);
      case GetChunk(r) => h' := GetChunk(h, books, r);
      case Mv(dst, src) => h' := Mv(h, books, dst, src);
      case Cp(dst, src) => h' := Cp(h, books, dst, src);
      case BulkStart(r, n) => BulkStart(h, books, r, n);
      case BulkCp(dst, src) => h' := BulkCp(h, books, dst, src);
    }
  }

  /** Any sequence of operations on the heap is the run over the books. */
  method DoAll(h: Heap, ghost books: D.Books, ops: seq<M.Op>, sizes: seq<nat>)
    returns (h': Heap, ghost events: seq<D.Event>)
    requires Kept(h, books) && M.ValidRun(books.store, ops)
    requires |sizes| == |ops| && forall i :: 0 <= i < |ops| ==> Sized(ops[i], sizes[i])
    modifies h.blocks.Values, Mems(h.blocks), Arrays(h.refs)
    ensures D.Ops(events) == ops && D.ValidRun(books, events) && Kept(h', D.Run(books, events))
    decreases |ops|
  {
    hide Kept, M.Allowed, M.Room, M.Do, M.Conserved, D.TextAfter, D.BodyAfter, D.Agree;
    IsSound(h, books);
    if ops == [] {
      h', events := h, [];
      assert D.Ops([]) == [];
    } else {
      assert Sized(ops[0], sizes[0]);
      var h1;
      ghost var raw, rest;
      h1, raw := Do(h, books, ops[0], sizes[0]);
      h', rest := DoAll(h1, D.After(books, ops[0], raw), ops[1..], sizes[1..]);
      events := [D.Event(ops[0], raw)] + rest;
    }
  }

  lemma NothingKept()
    ensures Kept(Heap(map[], map[], map[], 0), D.EMPTY)
  {
    M.EmptyConserved();
  }

  /** The references on the heap that point to a block. */
  ghost function Pointing(h: Heap, b: K.Chunk): set<M.RefId>
    requires forall r :: r in h.refs ==> h.refs[r].ref.Length == C.CHUNKREF_MAX
    reads h.refs.Values, Arrays(h.refs)
  {
    set r | r in h.refs && h.refs[r].ref[0] == C.HEAP && h.refs[r].chunk == b
  }

  /** What a kept heap says of the real structures: a block that has not been deallocated counts
      the references that point to it, the user's pointers and the copies announced. */
  lemma CounterTells(h: Heap, books: D.Books, c: M.ChunkId)
    requires Kept(h, books) && c in h.blocks
    ensures forall r :: r in h.refs ==> h.refs[r].ref.Length == C.CHUNKREF_MAX
    ensures !h.blocks[c].freed
    ensures var s := books.store;
            h.blocks[c].refcount == |Pointing(h, h.blocks[c])| + M.At(s.user, c) + M.At(s.promised, c)
  {
    assert Counted(h.blocks[c], h.ptr[c], books.store.counts[c], books.body[c]);
    forall r | r in h.refs ensures Fits(h.refs[r], books.store.refs[r], books.text[r], h.blocks, h.ptr) { }
    assert Pointing(h, h.blocks[c]) == M.Holders(books.store.refs, c);
  }
}
