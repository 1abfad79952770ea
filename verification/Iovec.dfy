/** Scatter and gather arrays: the body nn_sendmsg builds and the buffers nn_recvmsg fills
    (core/global.c). */
module Iovec {
  import opened Util
  import opened Wire

  const EFAULT := 14

  /** One element: memory, a null base, or NN_MSG with the chunk it points to, if any. */
  datatype Iov = Mem(data: seq<byte>) | Null(len: nat) | Whole(chunk: Option<seq<byte>>)

  function Len(v: Iov): nat { match v case Mem(d) => |d| case Null(n) => n case Whole(_) => 0 }

  function Total(iov: seq<Iov>): nat { if iov == [] then 0 else Total(iov[..|iov| - 1]) + Len(iov[|iov| - 1]) }

  function Bytes(v: Iov): seq<byte> { if v.Mem? then v.data else [] }

  function Joined(iov: seq<Iov>): seq<byte> {
    if iov == [] then [] else Joined(iov[..|iov| - 1]) + Bytes(iov[|iov| - 1])
  }

  /** What nn_sendmsg accepts: memory, or a null base of length 0. */
  predicate Sendable(v: Iov) { v.Mem? || (v.Null? && v.len == 0) }

  /** What is wrong with element i when all before it are in order. */
  function Fault(iov: seq<Iov>, i: nat): Option<int>
    requires i < |iov|
  {
    if iov[i].Whole? then Some(EINVAL)
    else if iov[i].Null? && iov[i].len != 0 then Some(EFAULT)
    else if Total(iov[..i + 1]) >= TWO_64 then Some(EINVAL)
    else None
  }

  ghost predicate FirstFault(iov: seq<Iov>, i: nat, e: int) {
    i < |iov| && Fault(iov, i) == Some(e) && forall j :: 0 <= j < i ==> Fault(iov, j) == None
  }

  lemma PrefixStep(iov: seq<Iov>, i: nat)
    requires i < |iov|
    ensures Total(iov[..i + 1]) == Total(iov[..i]) + Len(iov[i])
    ensures Joined(iov[..i + 1]) == Joined(iov[..i]) + Bytes(iov[i])
  {
    assert iov[..i + 1][..i] == iov[..i];
  }

  lemma {:induction false} TotalGrows(iov: seq<Iov>, i: nat)
    requires i <= |iov|
    ensures Total(iov[..i]) <= Total(iov)
    decreases |iov| - i
  {
    if i < |iov| {
      PrefixStep(iov, i);
      TotalGrows(iov, i + 1);
    } else {
      assert iov[..i] == iov;
    }
  }

  /** A fault anywhere spoils the whole array. */
  lemma FaultSpoils(iov: seq<Iov>, i: nat)
    requires i < |iov| && Fault(iov, i).Some?
    ensures !((forall v :: v in iov ==> Sendable(v)) && Total(iov) < TWO_64)
  {
    assert iov[i] in iov;
    TotalGrows(iov, i + 1);
  }

  /** A size_t sum. */
  function Add(a: nat, b: nat): (r: nat)
    requires a < TWO_64 && b < TWO_64
    ensures r == if a + b < TWO_64 then a + b else a + b - TWO_64
  {
    (a + b) % TWO_64
  }

  lemma AllSendable(iov: seq<Iov>)
    requires forall j :: 0 <= j < |iov| ==> Fault(iov, j) == None
    ensures forall v :: v in iov ==> Sendable(v)
  {
    forall j | 0 <= j < |iov| ensures Sendable(iov[j]) { assert Fault(iov, j) == None; }
  }

  /** The size loop of nn_sendmsg, with its wrap-around test. */
  method Size(iov: seq<Iov>) returns (r: Result<nat, int>, ghost i: nat)
    requires forall v :: v in iov ==> Len(v) < TWO_64
    ensures r.Ok? <==> (forall v :: v in iov ==> Sendable(v)) && Total(iov) < TWO_64
    ensures r.Ok? ==> r.value == Total(iov)
    ensures r.Err? ==> FirstFault(iov, i, r.error)
  {
    var sz, k := 0, 0;
    i := 0;
    assert Total(iov[..0]) == 0;
    hide Total, Joined, Add;
    while k != |iov|
      invariant 0 <= k <= |iov| && sz == Total(iov[..k]) < TWO_64
      invariant forall j :: 0 <= j < k ==> Fault(iov, j) == None
    {
      i := k;
      PrefixStep(iov, k);
      assert iov[k] in iov;
      var wrapped := Add(sz, Len(iov[k]));
      if iov[k].Whole? { FaultSpoils(iov, k); return Err(EINVAL), k; }
      if iov[k].Null? && iov[k].len != 0 { FaultSpoils(iov, k); return Err(EFAULT), k; }
      if wrapped < sz { FaultSpoils(iov, k); return Err(EINVAL), k; }
      sz := wrapped;
      k := k + 1;
    }
    AllSendable(iov);
    assert iov[..k] == iov;
    return Ok(sz), k;
  }

  /** The body nn_sendmsg builds: a single NN_MSG element is handed over whole; otherwise the
      pieces are sized, and joined in order. */
  method Gather(iov: seq<Iov>) returns (r: Result<seq<byte>, int>)
    requires forall v :: v in iov ==> Len(v) < TWO_64
    ensures |iov| == 1 && iov[0].Whole? ==> r == if iov[0].chunk.Some? then Ok(iov[0].chunk.value) else Err(EFAULT)
    ensures !(|iov| == 1 && iov[0].Whole?) ==>
              if (forall v :: v in iov ==> Sendable(v)) && Total(iov) < TWO_64 then r == Ok(Joined(iov))
              else r.Err? && exists i :: FirstFault(iov, i, r.error)
  {
    if |iov| == 1 && iov[0].Whole? {
      if iov[0].chunk.None? { return Err(EFAULT); }
      return Ok(iov[0].chunk.value);
    }
    ghost var at;
    var sz;
    sz, at := Size(iov);
    if sz.Err? { return Err(sz.error); }
    var body: seq<byte> := [];
    var i := 0;
    while i != |iov|
      invariant 0 <= i <= |iov| && body == Joined(iov[..i])
    {
      PrefixStep(iov, i);
      body := body + Bytes(iov[i]);
      i := i + 1;
    }
    assert iov[..i] == iov;
    return Ok(body);
  }

  /** The body holds each byte of the array at its place: byte k of piece i comes after all the
      bytes of the pieces before it. */
  lemma {:induction false} JoinedAt(iov: seq<Iov>, i: nat, k: nat)
    requires (forall v :: v in iov ==> Sendable(v)) && i < |iov| && k < Len(iov[i])
    ensures |Joined(iov)| == Total(iov)
    ensures iov[i].Mem? && Total(iov[..i]) + k < Total(iov) && Joined(iov)[Total(iov[..i]) + k] == iov[i].data[k]
  {
    var n := |iov| - 1;
    JoinedLength(iov[..n]);
    assert iov[n] in iov && iov[i] in iov;
    if i < n {
      assert iov[..n][..i] == iov[..i];
      JoinedAt(iov[..n], i, k);
    }
  }

  lemma {:induction false} JoinedLength(iov: seq<Iov>)
    requires forall v :: v in iov ==> Sendable(v)
    ensures |Joined(iov)| == Total(iov)
  {
    if iov != [] {
      assert iov[|iov| - 1] in iov;
      JoinedLength(iov[..|iov| - 1]);
    }
  }

  function Content(v: Option<seq<byte>>): seq<byte> { if v.Some? then v.value else [] }

  /** The buffers of nn_recvmsg end to end; None is an NN_MSG element. */
  function Flat(bufs: seq<Option<seq<byte>>>): seq<byte> {
    if bufs == [] then [] else Flat(bufs[..|bufs| - 1]) + Content(bufs[|bufs| - 1])
  }

  lemma FlatStep(bufs: seq<Option<seq<byte>>>, v: Option<seq<byte>>)
    ensures Flat(bufs + [v]) == Flat(bufs) + Content(v)
  {
    assert (bufs + [v])[..|bufs|] == bufs;
  }

  lemma {:induction false} FlatJoin(a: seq<Option<seq<byte>>>, b: seq<Option<seq<byte>>>)
    ensures Flat(a + b) == Flat(a) + Flat(b)
    decreases |b|
  {
    if b == [] {
      assert a + b == a;
    } else {
      var b', v := b[..|b| - 1], b[|b| - 1];
      hide Content;
      FlatJoin(a, b');
      FlatStep(a + b', v);
      assert a + b == (a + b') + [v];
      Assoc(Flat(a), Flat(b'), Content(v));
    }
  }

  lemma Assoc(a: seq<byte>, b: seq<byte>, c: seq<byte>)
    ensures (a + b) + c == a + (b + c)
  {
  }

  lemma FlatAt(bufs: seq<Option<seq<byte>>>, i: nat)
    requires i < |bufs|
    ensures Flat(bufs[..i + 1]) == Flat(bufs[..i]) + Content(bufs[i])
    ensures Flat(bufs) == Flat(bufs[..i + 1]) + Flat(bufs[i + 1..])
  {
    hide Flat, Content;
    FlatStep(bufs[..i], bufs[i]);
    assert bufs[..i + 1] == bufs[..i] + [bufs[i]];
    FlatJoin(bufs[..i + 1], bufs[i + 1..]);
    assert bufs == bufs[..i + 1] + bufs[i + 1..];
  }

  /** The NN_MSG element i is met before the body runs out. */
  ghost predicate Reached(bufs: seq<Option<seq<byte>>>, body: seq<byte>, i: nat) {
    i < |bufs| && bufs[i].None? && |Flat(bufs[..i])| <= |body|
  }

  lemma PrefixShorter(bufs: seq<Option<seq<byte>>>, i: nat, j: nat)
    requires i <= j <= |bufs|
    ensures |Flat(bufs[..i])| <= |Flat(bufs[..j])|
  {
    FlatJoin(bufs[..i], bufs[i..j]);
    assert bufs[..j] == bufs[..i] + bufs[i..j];
  }

  ghost predicate NoneReached(bufs: seq<Option<seq<byte>>>, body: seq<byte>) { forall i :: !Reached(bufs, body, i) }

  /** The buffers r are the buffers bufs with as much of the body as fits copied over them. */
  ghost predicate Copied(bufs: seq<Option<seq<byte>>>, body: seq<byte>, r: seq<Option<seq<byte>>>) {
    var n := if |body| < |Flat(bufs)| then |body| else |Flat(bufs)|;
    Flat(r) == body[..n] + Flat(bufs)[n..]
  }

  /** Every buffer keeps its place and its size. */
  ghost predicate SameShape(bufs: seq<Option<seq<byte>>>, r: seq<Option<seq<byte>>>) {
    |r| == |bufs| && forall i :: 0 <= i < |bufs| ==>
        r[i].Some? == bufs[i].Some? && |Content(r[i])| == |Content(bufs[i])|
  }

  /** The copying loop of nn_recvmsg: the bytes of the body fill the buffers in order, and what
      they do not reach is left alone; it fails exactly if it meets an NN_MSG element. */
  method Scatter(bufs: seq<Option<seq<byte>>>, body: seq<byte>) returns (ok: bool, r: seq<Option<seq<byte>>>)
    ensures ok <==> NoneReached(bufs, body)
    ensures |r| == |bufs|
    ensures ok ==> Copied(bufs, body, r) && SameShape(bufs, r)
  {
    r := [];
    var data, i := body, 0;
    assert Part(bufs, body, 0, r, data) && SameShape(bufs[..0], r);
    hide Flat, NoneReached, Content, Copied, Part, SameShape;
    while i != |bufs|
      invariant 0 <= i <= |bufs| && |r| == i
      invariant Part(bufs, body, i, r, data)
      invariant forall j :: 0 <= j < i ==> bufs[j].Some?
      invariant SameShape(bufs[..i], r)
    {
      if bufs[i].None? { IsReached(bufs, body, i, r, data); return false, r + bufs[i..]; }
      var iov := bufs[i].value;
      if |iov| > |data| {
        LastPiece(bufs, body, i, r, data);
        NoneLater(bufs, body, i, r, data);
        ShapeStep(bufs, r, data + iov[|data|..]);
        r := r + [Some(data + iov[|data|..])];
        ShapeRest(bufs, r);
        return true, r + bufs[i + 1..];
      }
      FullPiece(bufs, body, i, r, data);
      ShapeStep(bufs, r, data[..|iov|]);
      r := r + [Some(data[..|iov|])];
      data := data[|iov|..];
      i := i + 1;
    }
    assert bufs[..i] == bufs;
    NoneMet(bufs, body);
    AllCopied(bufs, body, r, data);
    ok := true;
  }

  /** The first i buffers, filled as r, have taken all of the body but `data`. */
  ghost predicate Part(bufs: seq<Option<seq<byte>>>, body: seq<byte>, i: nat, r: seq<Option<seq<byte>>>,
    data: seq<byte>)
    requires i <= |bufs|
  {
    Flat(r) + data == body && |Flat(bufs[..i])| + |data| == |body|
  }

  lemma AllCopied(bufs: seq<Option<seq<byte>>>, body: seq<byte>, r: seq<Option<seq<byte>>>, data: seq<byte>)
    requires Part(bufs, body, |bufs|, r, data)
    ensures Copied(bufs, body, r)
  {
    hide Flat;
    assert bufs[..|bufs|] == bufs;
    assert Flat(bufs)[|Flat(bufs)|..] == [];
  }

  lemma IsReached(bufs: seq<Option<seq<byte>>>, body: seq<byte>, i: nat, r: seq<Option<seq<byte>>>, data: seq<byte>)
    requires i < |bufs| && bufs[i].None? && Part(bufs, body, i, r, data)
    ensures !NoneReached(bufs, body)
  {
    assert Reached(bufs, body, i);
  }

  lemma NoneMet(bufs: seq<Option<seq<byte>>>, body: seq<byte>)
    requires forall j :: 0 <= j < |bufs| ==> bufs[j].Some?
    ensures NoneReached(bufs, body)
  {
  }

  lemma NoneLater(bufs: seq<Option<seq<byte>>>, body: seq<byte>, i: nat, r: seq<Option<seq<byte>>>, data: seq<byte>)
    requires i < |bufs| && (forall j :: 0 <= j < i ==> bufs[j].Some?) && bufs[i].Some?
    requires |data| < |bufs[i].value| && Part(bufs, body, i, r, data)
    ensures NoneReached(bufs, body)
  {
    FlatAt(bufs, i);
    forall k | i < k < |bufs| ensures !Reached(bufs, body, k) { PrefixShorter(bufs, i + 1, k); }
  }

  /** The buffer in which the body ends. */
  lemma LastPiece(bufs: seq<Option<seq<byte>>>, body: seq<byte>, i: nat, r: seq<Option<seq<byte>>>, data: seq<byte>)
    requires i < |bufs| && bufs[i].Some? && |data| < |bufs[i].value| && Part(bufs, body, i, r, data)
    ensures Copied(bufs, body, r + [Some(data + bufs[i].value[|data|..])] + bufs[i + 1..])
  {
    hide Flat;
    var piece := data + bufs[i].value[|data|..];
    FlatAt(bufs, i);
    FlatStep(r, Some(piece));
    FlatJoin(r + [Some(piece)], bufs[i + 1..]);
    Tail(Flat(bufs[..i]), bufs[i].value, Flat(bufs[i + 1..]), Flat(r), data);
  }

  lemma Tail(a: seq<byte>, b: seq<byte>, c: seq<byte>, filled: seq<byte>, data: seq<byte>)
    requires |filled| == |a| && |data| <= |b|
    ensures filled + (data + b[|data|..]) + c == (filled + data) + (a + b + c)[|filled + data|..]
  {
    assert (a + b + c)[|filled + data|..] == b[|data|..] + c;
  }

  /** A buffer filled whole. */
  lemma FullPiece(bufs: seq<Option<seq<byte>>>, body: seq<byte>, i: nat, r: seq<Option<seq<byte>>>, data: seq<byte>)
    requires i < |bufs| && bufs[i].Some? && |bufs[i].value| <= |data| && Part(bufs, body, i, r, data)
    ensures var n := |bufs[i].value|; Part(bufs, body, i + 1, r + [Some(data[..n])], data[n..])
  {
    hide Flat;
    FlatAt(bufs, i);
    FlatStep(r, Some(data[..|bufs[i].value|]));
  }

  lemma ShapeStep(bufs: seq<Option<seq<byte>>>, r: seq<Option<seq<byte>>>, piece: seq<byte>)
    requires |r| < |bufs| && SameShape(bufs[..|r|], r) && bufs[|r|].Some? && |bufs[|r|].value| == |piece|
    ensures SameShape(bufs[..|r| + 1], r + [Some(piece)])
  {
    assert forall i :: 0 <= i < |r| ==> bufs[..|r|][i] == bufs[..|r| + 1][i];
  }

  lemma ShapeRest(bufs: seq<Option<seq<byte>>>, r: seq<Option<seq<byte>>>)
    requires |r| <= |bufs| && SameShape(bufs[..|r|], r)
    ensures SameShape(bufs, r + bufs[|r|..])
  {
    forall i | 0 <= i < |r| ensures |Content(r[i])| == |Content(bufs[i])| && r[i].Some? == bufs[i].Some? {
      assert bufs[..|r|][i] == bufs[i];
    }
  }

  /** Where each byte is after nn_recvmsg: byte k of buffer i is the byte of the body at that
      place counted over the buffers before it, or what it was if the body is too short. */
  lemma EachByte(bufs: seq<Option<seq<byte>>>, body: seq<byte>, r: seq<Option<seq<byte>>>, i: nat, k: nat)
    requires Copied(bufs, body, r) && SameShape(bufs, r) && i < |bufs| && k < |Content(bufs[i])|
    ensures var at := |Flat(bufs[..i])| + k; Content(r[i])[k] == if at < |body| then body[at] else Content(bufs[i])[k]
  {
    hide Flat, Content;
    var at := |Flat(bufs[..i])| + k;
    ShapePrefix(bufs, r, i);
    ByteAt(bufs, i, k);
    ByteAt(r, i, k);
    assert at < |body| && at < |Flat(bufs)| ==> Flat(r)[at] == body[at];
  }

  lemma ByteAt(bufs: seq<Option<seq<byte>>>, i: nat, k: nat)
    requires i < |bufs| && k < |Content(bufs[i])|
    ensures |Flat(bufs[..i])| + k < |Flat(bufs)| && Flat(bufs)[|Flat(bufs[..i])| + k] == Content(bufs[i])[k]
  {
    hide Flat, Content;
    FlatAt(bufs, i);
  }

  lemma {:induction false} ShapePrefix(bufs: seq<Option<seq<byte>>>, r: seq<Option<seq<byte>>>, i: nat)
    requires SameShape(bufs, r) && i <= |bufs|
    ensures |Flat(r[..i])| == |Flat(bufs[..i])|
  {
    hide Flat;
    if i == 0 {
      assert r[..0] == bufs[..0];
    } else {
      ShapePrefix(bufs, r, i - 1);
      FlatAt(bufs, i - 1);
      FlatAt(r, i - 1);
    }
  }
}
