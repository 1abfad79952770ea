/** The 32-byte reference to message data (utils/chunkref.c): either the data itself, with
    its length in the first byte, or 0xff and a pointer to a chunk.  The pointer shares
    storage with bytes 8 to 15; it is kept here as a block and an offset.  Every operation
    is specified on Contents(), which does not say which of the two forms is used. */
module ChunkRef {
  import opened Wire
  import opened Chunk

  const CHUNKREF_MAX := 32
  const HEAP := 0xff

  class Ref {
    const ref: array<byte>
    var chunk: Chunk?
    var at: int

    /** Contents uninitialised, as on the stack. */
    constructor Raw()
      ensures fresh(ref) && ref.Length == CHUNKREF_MAX
    {
      ref := new byte[CHUNKREF_MAX];
      chunk, at := null, 0;
    }

    predicate IsHeap()
      requires ref.Length == CHUNKREF_MAX
      reads ref
    {
      ref[0] == HEAP
    }

    /** The chunk behind the reference, if it is in heap form. */
    function Blocks(): set<object>
      reads this, ref
    {
      if ref.Length == CHUNKREF_MAX && ref[0] == HEAP && chunk != null then {chunk, chunk.mem} else {}
    }

    /** An initialised reference. */
    predicate Valid()
      reads this, ref, Blocks()
    {
      && ref.Length == CHUNKREF_MAX
      && (if IsHeap() then chunk != null && ref != chunk.mem && chunk.At(at) else ref[0] < CHUNKREF_MAX)
    }

    /** The byte sequence the reference stands for. */
    function Contents(): seq<byte>
      requires Valid()
      reads this, ref, Blocks()
    {
      if IsHeap() then chunk.Live(at) else ref[1..1 + ref[0] as int]
    }

    /** nn_chunkref_init. */
    method Init(size: nat)
      requires ref.Length == CHUNKREF_MAX && size + HDRSZ < TWO_64
      modifies this, ref
      ensures Valid() && |Contents()| == size
      ensures IsHeap() <==> size >= CHUNKREF_MAX
      ensures IsHeap() ==> fresh(chunk) && fresh(chunk.mem) && chunk.refcount == 1
      ensures !IsHeap() ==> ref[1..] == old(ref[1..])
    {
      if size < CHUNKREF_MAX {
        ref[0] := size;
        return;
      }
      ref[0] := HEAP;
      chunk := new Chunk(size);
      at := HDRSZ;
    }

    /** nn_chunkref_init_chunk. */
    method InitChunk(c: Chunk, p: int)
      requires ref.Length == CHUNKREF_MAX && c.At(p) && c.mem != ref
      modifies this, ref
      ensures Valid() && IsHeap() && chunk == c && at == p && Contents() == c.Live(p)
    {
      ref[0] := HEAP;
      chunk, at := c, p;
    }

    /** nn_chunkref_term: afterwards the reference is uninitialised. */
    method Term()
      requires Valid()
      modifies if IsHeap() then {chunk, chunk.mem} else {}
      ensures old(IsHeap()) ==>
          chunk.refcount == Dec(old(chunk.refcount)) && chunk.freed == LastRef(old(chunk.refcount))
      ensures old(IsHeap()) && !chunk.freed ==> Valid() && Contents() == old(Contents())
    {
      if ref[0] == HEAP { chunk.Free(at); }
    }

    /** nn_chunkref_getchunk: the data as a chunk; the reference becomes empty. */
    method GetChunk() returns (c: Chunk, p: int)
      requires Valid()
      modifies ref
      ensures Valid() && Contents() == [] && !IsHeap()
      ensures c.At(p) && c.Live(p) == old(Contents())
      ensures old(IsHeap()) ==> c == chunk && p == at
      ensures !old(IsHeap()) ==> fresh(c) && fresh(c.mem) && c.refcount == 1
    {
      if ref[0] == HEAP {
        ref[0] := 0;
        return chunk, at;
      }
      var n: nat := ref[0];
      var d := new Chunk(n);
      var i := 0;
      while i < n
        invariant 0 <= i <= n && d.mem.Length == HDRSZ + n && d.At(HDRSZ) && d.refcount == 1
        invariant ref[..] == old(ref[..])
        invariant d.mem[HDRSZ..HDRSZ + i] == ref[1..1 + i]
        modifies d.mem
      {
        ghost var before := d.mem[..];
        d.mem[HDRSZ + i] := ref[1 + i];
        assert d.mem[..][HDRSZ - 4..HDRSZ] == before[HDRSZ - 4..HDRSZ];
        assert d.mem[..][HDRSZ - 8..HDRSZ - 4] == before[HDRSZ - 8..HDRSZ - 4];
        i := i + 1;
      }
      ref[0] := 0;
      return d, HDRSZ;
    }

    /** nn_chunkref_size. */
    method Size() returns (n: nat)
      requires Valid()
      ensures n == |Contents()|
    {
      if ref[0] == HEAP { return chunk.size; }
      return ref[0];
    }

    /** nn_chunkref_data: the bytes found through the pointer it returns. */
    method Data() returns (b: seq<byte>)
      requires Valid()
      ensures |b| >= |Contents()| && b[..|Contents()|] == Contents()
    {
      if ref[0] == HEAP { return chunk.mem[at..]; }
      return ref[1..];
    }

    /** nn_chunkref_trim. */
    method Trim(n: nat)
      requires Valid() && n <= |Contents()|
      requires IsHeap() ==> at + n - HDRSZ < TWO_32 - 1
      modifies this`at, ref, if IsHeap() then {chunk, chunk.mem} else {}
      ensures Valid() && Contents() == old(Contents())[n..]
      ensures IsHeap() == old(IsHeap()) && chunk == old(chunk)
      ensures IsHeap() ==> chunk.refcount == old(chunk.refcount) && !chunk.freed
    {
      if ref[0] == HEAP {
        var q := chunk.Trim(at, n);
        at := q;
        return;
      }
      var len: nat := ref[0];
      MoveDown(ref, n, len - n);
      ref[0] := len - n;
    }
  }

  /** memmove of `count` bytes to the start of the inline data from n bytes further on. */
  method MoveDown(b: array<byte>, n: nat, count: nat)
    requires 1 + n + count <= b.Length
    modifies b
    ensures b[0] == old(b[0]) && b[1..1 + count] == old(b[1 + n..1 + n + count])
  {
    var i := 0;
    while i < count
      invariant 0 <= i <= count && b[0] == old(b[0])
      invariant forall j :: 1 <= j < 1 + i ==> b[j] == old(b[n + j])
      invariant forall j :: 1 + i <= j < b.Length ==> b[j] == old(b[j])
    {
      b[1 + i] := b[1 + n + i];
      i := i + 1;
    }
  }

  /** memcpy of the first n bytes of the reference, and of the pointer when it is covered. */
  method CopyBytes(dst: Ref, src: Ref, n: nat)
    requires dst != src && dst.ref != src.ref && dst.ref.Length == src.ref.Length == CHUNKREF_MAX >= n
    modifies dst, dst.ref
    ensures dst.ref[..n] == src.ref[..n]
    ensures n >= 16 ==> dst.chunk == src.chunk && dst.at == src.at
  {
    var i := 0;
    while i < n
      invariant 0 <= i <= n && dst.ref[..i] == src.ref[..i]
      modifies dst.ref
    {
      dst.ref[i] := src.ref[i];
      i := i + 1;
    }
    if n >= 16 { dst.chunk, dst.at := src.chunk, src.at; }
  }

  /** nn_chunkref_mv: only the used part is copied; no count changes. */
  method Mv(dst: Ref, src: Ref)
    requires dst != src && dst.ref != src.ref && dst.ref.Length == CHUNKREF_MAX && src.Valid()
    requires dst.ref as object !in src.Blocks()
    modifies dst, dst.ref
    ensures dst.Valid() && dst.Contents() == src.Contents() && dst.IsHeap() == src.IsHeap()
    ensures src.IsHeap() ==> dst.chunk == src.chunk && dst.at == src.at
  {
    CopyBytes(dst, src, if src.ref[0] == HEAP then 16 else src.ref[0] as int + 1);
    assert dst.ref[0] == dst.ref[..1][0] == src.ref[0];
    if src.ref[0] != HEAP {
      var n := src.ref[0] as int + 1;
      assert dst.ref[1..n] == dst.ref[..n][1..];
    }
  }

  /** nn_chunkref_cp: one more reference on the chunk, if there is one. */
  method Cp(dst: Ref, src: Ref)
    requires dst != src && dst.ref != src.ref && dst.ref.Length == CHUNKREF_MAX && src.Valid()
    requires dst.ref as object !in src.Blocks()
    modifies dst, dst.ref, (if src.IsHeap() then {src.chunk} else {})`refcount
    ensures dst.Valid() && src.Valid() && dst.Contents() == src.Contents() == old(src.Contents())
    ensures dst.IsHeap() == src.IsHeap() == old(src.IsHeap()) && src.chunk == old(src.chunk)
    ensures src.IsHeap() ==>
        dst.chunk == src.chunk && dst.at == src.at && src.chunk.refcount == Inc(old(src.chunk.refcount), 1)
  {
    if src.ref[0] == HEAP { src.chunk.AddRef(src.at, 1); }
    CopyBytes(dst, src, CHUNKREF_MAX);
    assert dst.ref[..] == src.ref[..];
  }

  /** nn_chunkref_bulkcopy_start. */
  method BulkCopyStart(self: Ref, copies: uint32)
    requires self.Valid()
    modifies (if self.IsHeap() then {self.chunk} else {})`refcount
    ensures self.Valid() && self.Contents() == old(self.Contents()) && self.IsHeap() == old(self.IsHeap())
    ensures self.IsHeap() ==> self.chunk.refcount == Inc(old(self.chunk.refcount), copies)
  {
    if self.ref[0] == HEAP { self.chunk.AddRef(self.at, copies); }
  }

  /** nn_chunkref_bulkcopy_cp: the count was raised beforehand. */
  method BulkCopyCp(dst: Ref, src: Ref)
    requires dst != src && dst.ref != src.ref && dst.ref.Length == CHUNKREF_MAX && src.Valid()
    requires dst.ref as object !in src.Blocks()
    modifies dst, dst.ref
    ensures dst.Valid() && src.Valid() && dst.Contents() == src.Contents() && dst.IsHeap() == src.IsHeap()
    ensures src.IsHeap() ==> dst.chunk == src.chunk && dst.at == src.at
  {
    CopyBytes(dst, src, CHUNKREF_MAX);
    assert dst.ref[..] == src.ref[..];
  }
}
