/** Control buffers as senders lay them out: properties end to end, each padded to whole words
    (the NN_CMSG macros of nn.h).  The walk of nn_sendmsg meets every one of them. */
module Layout {
  import opened Util
  import opened Wire
  import opened Cmsg
  import opened Message

  /** A property: its level and type, its data, and the bytes that pad it. */
  datatype Prop = Prop(level: uint32, kind: uint32, data: seq<byte>, pad: seq<byte>)

  predicate Padded(p: Prop) { |p.data| < TWO_64 / 2 && HDR + |p.data| + |p.pad| == Align(HDR + |p.data|) }

  predicate AllPadded(ps: seq<Prop>) { forall i :: 0 <= i < |ps| ==> Padded(ps[i]) }

  function Enc(p: Prop): (r: seq<byte>)
    requires Padded(p)
    ensures |r| == HDR + |p.data| + |p.pad|
  {
    Put8(HDR + |p.data|) + Put4(p.level) + Put4(p.kind) + p.data + p.pad
  }

  function Lay(ps: seq<Prop>): seq<byte>
    requires AllPadded(ps)
  {
    if ps == [] then [] else Enc(ps[0]) + Lay(ps[1..])
  }

  /** Where property k starts: the padded sizes before it, added up. */
  function Offset(ps: seq<Prop>, k: nat): nat
    requires k <= |ps|
  {
    if k == 0 then 0 else Offset(ps, k - 1) + HDR + |ps[k - 1].data| + |ps[k - 1].pad|
  }

  lemma {:induction false} LaySplit(ps: seq<Prop>, k: nat)
    requires AllPadded(ps) && k <= |ps|
    ensures Lay(ps) == Lay(ps[..k]) + Lay(ps[k..])
    decreases k
  {
    if k == 0 {
      assert ps[..0] == [] && ps[0..] == ps;
      assert [] + Lay(ps) == Lay(ps);
    } else {
      hide Enc;
      LaySplit(ps[1..], k - 1);
      assert ps[1..][..k - 1] == ps[..k][1..] && ps[1..][k - 1..] == ps[k..];
      Assoc(Enc(ps[0]), Lay(ps[..k][1..]), Lay(ps[k..]));
    }
  }

  lemma Assoc(a: seq<byte>, b: seq<byte>, c: seq<byte>)
    ensures a + (b + c) == (a + b) + c
  {
  }

  lemma {:induction false} OffsetIs(ps: seq<Prop>, k: nat)
    requires AllPadded(ps) && k <= |ps|
    ensures |Lay(ps[..k])| == Offset(ps, k)
    decreases k
  {
    hide Enc;
    if k == 0 {
      assert ps[..0] == [];
    } else {
      OffsetIs(ps, k - 1);
      LaySplit(ps[..k], k - 1);
      assert ps[..k][..k - 1] == ps[..k - 1] && ps[..k][k - 1..] == [ps[k - 1]];
      LayOne(ps[k - 1]);
    }
  }

  lemma LayOne(p: Prop)
    requires Padded(p)
    ensures Lay([p]) == Enc(p)
  {
    assert [p][1..] == [];
    assert Enc(p) + [] == Enc(p);
  }

  /** The buffer around property k. */
  lemma Around(ps: seq<Prop>, tail: seq<byte>, k: nat) returns (pre: seq<byte>, post: seq<byte>)
    requires AllPadded(ps) && k < |ps|
    ensures Lay(ps) + tail == pre + Enc(ps[k]) + post && |pre| == Offset(ps, k)
    ensures k + 1 < |ps| ==> |post| >= HDR
    ensures k + 1 == |ps| ==> post == tail
  {
    hide Enc;
    LaySplit(ps, k);
    OffsetIs(ps, k);
    assert ps[k..][0] == ps[k] && ps[k..][1..] == ps[k + 1..];
    pre, post := Lay(ps[..k]), Lay(ps[k + 1..]) + tail;
    assert Lay(ps[k..]) == Enc(ps[k]) + Lay(ps[k + 1..]);
    assert pre + (Enc(ps[k]) + Lay(ps[k + 1..])) + tail == pre + Enc(ps[k]) + post;
    if k + 1 == |ps| {
      assert ps[k + 1..] == [];
    } else {
      assert ps[k + 1..][0] == ps[k + 1];
    }
  }

  /** What lies at the start of a property. */
  lemma Fields(pre: seq<byte>, p: Prop, post: seq<byte>)
    requires Padded(p)
    ensures var c, h := pre + Enc(p) + post, |pre|;
            && h + HDR + |p.data| + |p.pad| <= |c|
            && c[h..h + 8] == Put8(HDR + |p.data|) && c[h + 8..h + 12] == Put4(p.level)
            && c[h + 12..h + 16] == Put4(p.kind) && c[h + 16..h + 16 + |p.data|] == p.data
  {
    hide Put8, Put4;
    var c, h, e := pre + Enc(p) + post, |pre|, Enc(p);
    assert e[0..8] == Put8(HDR + |p.data|) && e[8..12] == Put4(p.level) && e[12..16] == Put4(p.kind);
    assert e[16..16 + |p.data|] == p.data;
    assert c[h..h + |e|] == e;
    assert c[h..h + 8] == c[h..h + |e|][0..8] && c[h + 8..h + 12] == c[h..h + |e|][8..12];
    assert c[h + 12..h + 16] == c[h..h + |e|][12..16];
    assert c[h + 16..h + 16 + |p.data|] == c[h..h + |e|][16..16 + |p.data|];
  }

  /** nn_cmsg_nxthdr_ accepts it, and it is as long as it is. */
  lemma Met(pre: seq<byte>, p: Prop, post: seq<byte>)
    requires Padded(p) && |pre + Enc(p) + post| <= TWO_64 / 2
    ensures var c, h := pre + Enc(p) + post, |pre|;
            && Accepted(c, h) && Len(c, h) == HDR + |p.data| && h + Align(Len(c, h)) == h + |Enc(p)|
            && (IsSpHdr(c, h) <==> p.level == PROTO_SP && p.kind == SP_HDR)
  {
    Fields(pre, p, post);
    GetPutLittle(HDR + |p.data|, p.level);
    GetPutLittle(0, p.kind);
    hide Put8, Put4, Get8, Get4, Align, Enc;
  }

  lemma FromStart(ctrl: seq<byte>)
    requires |ctrl| <= TWO_64 / 2
    ensures Next(ctrl, None) == if Accepted(ctrl, 0) then Some(0) else None
  {
    SpaceZero();
    hide Align, Len, Space;
  }

  lemma Onward(ctrl: seq<byte>, h: nat, next: nat)
    requires |ctrl| <= TWO_64 / 2 && Accepted(ctrl, h) && h + Align(Len(ctrl, h)) == next <= |ctrl|
    ensures Next(ctrl, Some(h)) == if Accepted(ctrl, next) then Some(next) else None
  {
    SpaceZero();
    hide Align, Len, Space;
  }

  /** What follows the properties is not another one. */
  predicate NoMore(ps: seq<Prop>, tail: seq<byte>)
    requires AllPadded(ps)
  {
    !Accepted(Lay(ps) + tail, |Lay(ps)|)
  }

  /** So it is if there are fewer bytes than a header has, none for example. */
  lemma ShortTail(ps: seq<Prop>, tail: seq<byte>)
    requires AllPadded(ps) && |tail| < HDR
    ensures NoMore(ps, tail)
  {
  }

  /** And so it is if the last property lacks some of its padding: the walk passes it over. */
  lemma UnpaddedIsMissed(ps: seq<Prop>, p: Prop)
    requires AllPadded(ps) && |Lay(ps)| + HDR + |p.data| + |p.pad| <= TWO_64 / 2
    requires HDR + |p.data| + |p.pad| < Align(HDR + |p.data|)
    ensures NoMore(ps, Put8(HDR + |p.data|) + Put4(p.level) + Put4(p.kind) + p.data + p.pad)
  {
    hide Put8, Put4, Align, Lay, Accepted;
    var tail := Put8(HDR + |p.data|) + Put4(p.level) + Put4(p.kind) + p.data + p.pad;
    assert tail[0..8] == Put8(HDR + |p.data|);
    TailAt(Lay(ps), tail);
    NotAccepted(Lay(ps) + tail, |Lay(ps)|, HDR + |p.data|);
  }

  lemma TailAt(pre: seq<byte>, tail: seq<byte>)
    requires |tail| >= 8
    ensures (pre + tail)[|pre|..|pre| + 8] == tail[0..8]
  {
  }

  lemma NotAccepted(c: seq<byte>, h: nat, len: uint64)
    requires |c| <= TWO_64 / 2 && h + HDR <= |c| && c[h..h + 8] == Put8(len)
    requires len <= TWO_64 / 2 && h + Align(len) > |c|
    ensures !Accepted(c, h)
  {
    GetPutLittle(len, 0);
    AlignRounds(len);
    hide Put8, Get8, Align;
  }

  /** On a buffer laid out so the walk meets every property, in order, at its own offset, and then
      ends. */
  lemma {:induction false} WalkMeetsAll(ps: seq<Prop>, tail: seq<byte>, k: nat)
    requires AllPadded(ps) && |Lay(ps) + tail| <= TWO_64 / 2 && NoMore(ps, tail) && k <= |ps|
    ensures Walk(Lay(ps) + tail, k) == if k < |ps| then Some(Offset(ps, k)) else None
  {
    hide Enc, Lay, Align, Len, Next, Accepted, NoMore;
    Ended(ps, tail);
    var ctrl := Lay(ps) + tail;
    if k < |ps| {
      var pre, post := Around(ps, tail, k);
      Met(pre, ps[k], post);
    }
    if k == 0 {
      FromStart(ctrl);
    } else {
      WalkMeetsAll(ps, tail, k - 1);
      var pre, post := Around(ps, tail, k - 1);
      Met(pre, ps[k - 1], post);
      Onward(ctrl, Offset(ps, k - 1), Offset(ps, k));
    }
  }

  lemma Ended(ps: seq<Prop>, tail: seq<byte>)
    requires AllPadded(ps) && NoMore(ps, tail)
    ensures Offset(ps, |ps|) <= |Lay(ps) + tail| && !Accepted(Lay(ps) + tail, Offset(ps, |ps|))
  {
    OffsetIs(ps, |ps|);
    assert ps[..|ps|] == ps;
  }

  predicate IsSp(p: Prop) { p.level == PROTO_SP && p.kind == SP_HDR }

  /** So the search of nn_sendmsg stops at the first SP header, wherever it is, or finds none. */
  lemma FirstFound(ps: seq<Prop>, tail: seq<byte>, i: nat)
    requires AllPadded(ps) && |Lay(ps) + tail| <= TWO_64 / 2 && NoMore(ps, tail)
    requires i <= |ps| && (i < |ps| ==> IsSp(ps[i])) && forall j :: 0 <= j < i ==> !IsSp(ps[j])
    ensures FirstSpHdr(Lay(ps) + tail, if i < |ps| then Some(Offset(ps, i)) else None, i)
  {
    hide Lay, Enc, Walk, IsSpHdr;
    forall j: nat | j <= i
      ensures Walk(Lay(ps) + tail, j) == if j < |ps| then Some(Offset(ps, j)) else None
      ensures j < |ps| ==> Room(Lay(ps) + tail, Offset(ps, j))
      ensures j < |ps| ==> (IsSpHdr(Lay(ps) + tail, Offset(ps, j)) <==> IsSp(ps[j]))
    {
      WalkMeetsAll(ps, tail, j);
      if j < |ps| {
        var pre, post := Around(ps, tail, j);
        Met(pre, ps[j], post);
      }
    }
  }

  /** There is only one first. */
  lemma OneFirst(ctrl: seq<byte>, a: Option<nat>, j: nat, b: Option<nat>, k: nat)
    requires |ctrl| <= TWO_64 / 2 && FirstSpHdr(ctrl, a, j) && FirstSpHdr(ctrl, b, k)
    ensures a == b && j == k
  {
    hide Walk, IsSpHdr;
    if j < k { assert false; }
    if k < j { assert false; }
  }

  /** The header found in a property's data: a size word and that many bytes, if they are there. */
  lemma DataFound(ps: seq<Prop>, tail: seq<byte>, i: nat)
    requires AllPadded(ps) && i < |ps| && |Lay(ps) + tail| <= TWO_64 / 2
    ensures Room(Lay(ps) + tail, Offset(ps, i))
    ensures var d := ps[i].data;
            Extract(Lay(ps) + tail, Offset(ps, i)) ==
            if |d| > WORD && Get8(d[..WORD]) <= |d| - WORD then Sphdr(d[WORD..][..Get8(d[..WORD])]) else Nothing
  {
    hide Lay, Enc, Extract, Len, Get8, Put8, Put4, Align;
    var pre, post := Around(ps, tail, i);
    Fields(pre, ps[i], post);
    Met(pre, ps[i], post);
    DataAt(Lay(ps) + tail, Offset(ps, i), ps[i].data);
  }

  lemma DataAt(c: seq<byte>, h: nat, d: seq<byte>)
    requires h + HDR + |d| <= |c| <= TWO_64 / 2 && Len(c, h) == HDR + |d|
    requires c[h + 16..h + 16 + |d|] == d
    ensures Extract(c, h) ==
            if |d| > WORD && Get8(d[..WORD]) <= |d| - WORD then Sphdr(d[WORD..][..Get8(d[..WORD])]) else Nothing
  {
    SpaceZero();
    hide Len, Get8, Align, Space;
    assert (Len(c, h) - HDR) % TWO_64 == |d|;
    if |d| > WORD {
      assert d[..WORD] == c[h + 16..h + 16 + |d|][..WORD] == c[h + 16..h + 24];
      var n := Get8(d[..WORD]);
      if n <= |d| - WORD { assert d[WORD..][..n] == c[h + 16..h + 16 + |d|][WORD..][..n] == c[h + 24..h + 24 + n]; }
    }
  }

  /** What nn_sendmsg takes as the protocol header of a control buffer. */
  method SphdrOf(ctrl: seq<byte>, turns: nat) returns (done: bool, found: Found)
    requires |ctrl| <= TWO_64 / 2
    ensures forall ps: seq<Prop>, tail: seq<byte>, i: nat ::
              AllPadded(ps) && ctrl == Lay(ps) + tail && NoMore(ps, tail) && SpAt(ps, i) && turns >= |ctrl|
              ==> done && found == FoundIn(ps, i)
  {
    hide Lay, Enc, Extract, FirstSpHdr;
    var at, k;
    done, at, k := Search(ctrl, turns);
    found := if at.Some? && Room(ctrl, at.value) then Extract(ctrl, at.value) else Nothing;
    forall ps: seq<Prop>, tail: seq<byte>, i: nat
      | AllPadded(ps) && ctrl == Lay(ps) + tail && NoMore(ps, tail) && SpAt(ps, i) && turns >= |ctrl|
      ensures done && found == FoundIn(ps, i)
    {
      FirstFound(ps, tail, i);
      StopsThere(ctrl, if i < |ps| then Some(Offset(ps, i)) else None, i);
      OneFirst(ctrl, at, k, if i < |ps| then Some(Offset(ps, i)) else None, i);
      if i < |ps| { DataFound(ps, tail, i); }
    }
  }

  /** The first SP header is property i, or there is none and i is the number of properties. */
  predicate SpAt(ps: seq<Prop>, i: nat) {
    i <= |ps| && (i < |ps| ==> IsSp(ps[i])) && forall j :: 0 <= j < i ==> !IsSp(ps[j])
  }

  /** What its data say. */
  function FoundIn(ps: seq<Prop>, i: nat): Found {
    if i >= |ps| then Nothing
    else
      var d := ps[i].data;
      if |d| > WORD && Get8(d[..WORD]) <= |d| - WORD then Sphdr(d[WORD..][..Get8(d[..WORD])]) else Nothing
  }

  lemma StopsThere(ctrl: seq<byte>, at: Option<nat>, k: nat)
    requires |ctrl| <= TWO_64 / 2 && FirstSpHdr(ctrl, at, k)
    ensures Stops(ctrl, k)
  {
  }
}
