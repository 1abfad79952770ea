/** Reference-counted message blocks (utils/chunk.c), down to the bytes: a header
    structure, optional empty space, a 32-bit word giving the size of that space, a 32-bit
    tag, and the data.  A data pointer is an offset into its block; LP64 sizes. */
module Chunk {
  import opened Util
  import opened Wire

  const ENOMEM := 12

  const TAG: uint32 := 0xdeadcafe
  const TAG_DEALLOCATED: uint32 := 0xbeadfeed

  /** sizeof (struct nn_chunk), and nn_chunk_hdrsize (). */
  const STRUCT := 24
  const HDRSZ := 32

  /** nn_atomic_inc and nn_atomic_dec on the 32-bit counter. */
  function Inc(count: uint32, n: uint32): uint32 { (count as int + n as int) % TWO_32 }
  function Dec(count: uint32): uint32 { (count - 1) % TWO_32 }

  /** nn_chunk_free deallocates when the value it decremented was at most one. */
  predicate LastRef(count: uint32) { count <= 1 }

  /** nn_chunk_getptr: follow the back-offset from a data pointer to the block. */
  function GetPtr(mem: seq<byte>, p: int): int
    requires 8 <= p <= |mem|
  {
    p - 8 - GetL(mem[p - 8..p - 4]) - STRUCT
  }

  /** The two words before the data pointer lead back to the start of the block. */
  predicate Layout(mem: seq<byte>, p: int) {
    && HDRSZ <= p <= |mem|
    && GetL(mem[p - 4..p]) == TAG
    && GetL(mem[p - 8..p - 4]) == p - HDRSZ
  }

  /** The block after nn_chunk_trim has moved the pointer by n and rewritten both words. */
  function TrimMem(mem: seq<byte>, p: int, n: nat): seq<byte>
    requires HDRSZ <= p && p + n <= |mem| && p + n - HDRSZ < TWO_32
  {
    mem[..p + n - 8] + PutL(p + n - HDRSZ) + PutL(TAG) + mem[p + n..]
  }

  /** Trimming any amount, even less than the 8-byte prefix, keeps the way back, the header
      structure and the remaining data. */
  lemma TrimKeeps(mem: seq<byte>, p: int, n: nat)
    requires Layout(mem, p) && p + n <= |mem| && p + n - HDRSZ < TWO_32
    ensures Trimmed(mem, p, TrimMem(mem, p, n), n)
    ensures TrimMem(mem, p, n)[..p + n - 8] == mem[..p + n - 8]
  {
    var t := TrimMem(mem, p, n);
    assert t[p + n - 8..p + n - 4] == PutL(p + n - HDRSZ);
    assert t[p + n - 4..p + n] == PutL(TAG);
    GetPutL(p + n - HDRSZ);
    GetPutL(TAG);
  }

  /** Writing the tag and then the word before it. */
  lemma TwoWrites(before: seq<byte>, after: seq<byte>, q: int, off: seq<byte>, tag: seq<byte>)
    requires 8 <= q <= |before| && |off| == |tag| == 4
    requires var mid := before[..q - 4] + tag + before[q..];
             after == mid[..q - 8] + off + mid[q - 4..]
    ensures after == before[..q - 8] + off + tag + before[q..]
  {
  }

  function Sum(ns: seq<nat>): nat { if ns == [] then 0 else ns[0] + Sum(ns[1..]) }

  /** Any sequence of trims. */
  function Trims(mem: seq<byte>, p: int, ns: seq<nat>): seq<byte>
    requires HDRSZ <= p && p + Sum(ns) <= |mem| && p + Sum(ns) - HDRSZ < TWO_32
    decreases |ns|
  {
    if ns == [] then mem else Trims(TrimMem(mem, p, ns[0]), p + ns[0], ns[1..])
  }

  /** After any sequence of in-range trims the pointer leads back to the block, the header
      structure is untouched and the data is exactly the untrimmed suffix. */
  lemma {:induction false} TrimsKeep(mem: seq<byte>, p: int, ns: seq<nat>)
    requires Layout(mem, p) && p + Sum(ns) <= |mem| && p + Sum(ns) - HDRSZ < TWO_32
    ensures Trimmed(mem, p, Trims(mem, p, ns), Sum(ns))
    decreases |ns|
  {
    hide TrimMem, GetPtr, Trimmed, Layout;
    if ns == [] {
      Untrimmed(mem, p);
    } else {
      InBounds(mem, p);
      var t := TrimMem(mem, p, ns[0]);
      TrimKeeps(mem, p, ns[0]);
      TrimmedLayout(mem, p, t, ns[0]);
      TrimsKeep(t, p + ns[0], ns[1..]);
      TrimmedTwice(mem, t, Trims(t, p + ns[0], ns[1..]), p, ns[0], Sum(ns[1..]));
    }
  }

  /** t is mem after n bytes in all were trimmed from the pointer p. */
  predicate Trimmed(mem: seq<byte>, p: int, t: seq<byte>, n: nat) {
    && |t| == |mem| && 0 <= p && p + n <= |mem| && |mem| >= STRUCT
    && Layout(t, p + n) && GetPtr(t, p + n) == 0
    && t[p + n..] == mem[p..][n..] && t[..STRUCT] == mem[..STRUCT]
  }

  lemma Untrimmed(mem: seq<byte>, p: int)
    requires Layout(mem, p)
    ensures Trimmed(mem, p, mem, 0)
  {
  }

  lemma InBounds(mem: seq<byte>, p: int)
    requires Layout(mem, p)
    ensures HDRSZ <= p <= |mem|
  {
  }

  lemma TrimmedLayout(mem: seq<byte>, p: int, t: seq<byte>, n: nat)
    requires Trimmed(mem, p, t, n)
    ensures |t| == |mem| && Layout(t, p + n)
  {
  }

  lemma TrimmedTwice(mem: seq<byte>, t: seq<byte>, u: seq<byte>, p: int, m: nat, n: nat)
    requires Trimmed(mem, p, t, m) && Trimmed(t, p + m, u, n)
    ensures Trimmed(mem, p, u, m + n)
  {
    assert mem[p..][m + n..] == mem[p..][m..][n..];
  }

  /** The tag and then the size of the empty space, in front of the pointer q. */
  method WritePrefix(mem: array<byte>, q: int)
    requires HDRSZ <= q <= mem.Length && q - HDRSZ < TWO_32
    modifies mem
    ensures mem[..] == old(mem[..])[..q - 8] + PutL(q - HDRSZ) + PutL(TAG) + old(mem[..])[q..]
  {
    ghost var before := mem[..];
    WriteL(mem, q - 4, TAG);
    assert mem[..] == before[..q - 4] + PutL(TAG) + before[q..];
    ghost var mid := mem[..];
    WriteL(mem, q - 8, q - HDRSZ);
    assert mem[..] == mid[..q - 8] + PutL(q - HDRSZ) + mid[q - 4..];
    TwoWrites(before, mem[..], q, PutL(q - HDRSZ), PutL(TAG));
  }

  class Chunk {
    const mem: array<byte>
    var refcount: uint32
    var size: nat
    var freed: bool

    /** p is a data pointer of this block and the recorded size is what remains. */
    predicate At(p: int)
      reads this, mem
    {
      !freed && Layout(mem[..], p) && size == mem.Length - p
    }

    /** The message bytes seen through the pointer p. */
    function Live(p: int): seq<byte>
      requires At(p)
      reads this, mem
    {
      mem[p..]
    }

    constructor (size: nat)
      ensures fresh(mem) && At(HDRSZ) && |Live(HDRSZ)| == size && refcount == 1
    {
      mem := new byte[HDRSZ + size];
      refcount, this.size, freed := 1, size, false;
      new;
      WriteL(mem, STRUCT, 0);
      WriteL(mem, STRUCT + 4, TAG);
      GetPutL(0);
      GetPutL(TAG);
      assert mem[24..28] == PutL(0) && mem[28..32] == PutL(TAG);
    }

    /** nn_chunk_addref. */
    method AddRef(p: int, n: uint32)
      requires At(p)
      modifies this`refcount
      ensures refcount == Inc(old(refcount), n)
    {
      refcount := (refcount as int + n as int) % TWO_32;
    }

    /** nn_chunk_free. */
    method Free(p: int)
      requires At(p)
      modifies this`refcount, this`freed, mem
      ensures refcount == Dec(old(refcount))
      ensures freed == LastRef(old(refcount))
      ensures !freed ==> mem[..] == old(mem[..])
      ensures freed ==> GetL(mem[p - 4..p]) == TAG_DEALLOCATED
      ensures freed ==> mem[p..] == old(mem[p..]) && mem[..p - 4] == old(mem[..p - 4])
    {
      var was := refcount;
      refcount := (refcount - 1) % TWO_32;
      if was <= 1 {
        WriteL(mem, p - 4, TAG_DEALLOCATED);
        GetPutL(TAG_DEALLOCATED);
        assert mem[p - 4..p] == PutL(TAG_DEALLOCATED);
        freed := true;
      }
    }

    /** nn_chunk_trim: the new pointer.  Both assertions of the C code are preconditions. */
    method Trim(p: int, n: nat) returns (q: int)
      requires At(p) && n <= size && p + n - HDRSZ < TWO_32 - 1
      modifies this`size, mem
      ensures q == p + n && At(q) && size == old(size) - n
      ensures Live(q) == old(Live(p))[n..] && mem[..STRUCT] == old(mem[..STRUCT])
      ensures mem[..] == TrimMem(old(mem[..]), p, n)
    {
      TrimKeeps(mem[..], p, n);
      q := p + n;
      WritePrefix(mem, q);
      size := size - n;
    }
  }

  /** nn_chunk_alloc: the block, with its data pointer at HDRSZ.  The size is added to the
      header size modulo 2^64 and the sum compared; `memory` says that nn_alloc succeeds. */
  method Alloc(size: uint64, kind: int, memory: bool) returns (r: Result<Chunk, int>)
    ensures r.Ok? <==> size as int + HDRSZ < TWO_64 && kind == 0 && memory
    ensures r.Ok? ==> fresh(r.value) && fresh(r.value.mem) && r.value.At(HDRSZ)
    ensures r.Ok? ==> |r.value.Live(HDRSZ)| == size && r.value.refcount == 1
    ensures r.Err? ==> r.error == if size as int + HDRSZ >= TWO_64 || kind == 0 then ENOMEM else EINVAL
  {
    var sz := (HDRSZ + size as int) % TWO_64;
    if sz < HDRSZ { return Err(ENOMEM); }
    if kind != 0 { return Err(EINVAL); }
    if !memory { return Err(ENOMEM); }
    var c := new Chunk(size);
    return Ok(c);
  }
}
