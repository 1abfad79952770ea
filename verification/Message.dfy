/** nn_sendmsg and nn_recvmsg (core/global.c) on one message, and the device that joins them
    (devices/device.c): scatter and gather arrays, and the SP header inside the control buffer. */
module Message {
  import opened Util
  import opened Wire
  import opened Cmsg

  /** A message: protocol header, ancillary headers, body (utils/msg.h). */
  datatype Msg = Msg(sphdr: seq<byte>, hdrs: seq<byte>, body: seq<byte>)

  const LIMIT := TWO_64 / 4

  /** The parts of a message are in memory together, far below 2^62 bytes. */
  predicate InMemory(m: Msg) { |m.sphdr| + |m.hdrs| + 64 <= LIMIT }

  /** sptotalsz of nn_recvmsg. */
  function SpTotal(spsz: uint64): uint64 { Space((spsz + WORD) % TWO_64) }

  lemma SpTotalIs(n: uint64)
    requires n <= LIMIT
    ensures SpTotal(n) == HDR + Align(n + WORD) && SpTotal(n) % 8 == 0
    ensures 24 + n <= SpTotal(n) < 32 + n
    ensures Align(SpTotal(n)) == SpTotal(n)
  {
    hide Align;
    AlignRounds(n + WORD);
    AlignRounds(SpTotal(n));
  }

  /** The bytes up to the end of the SP header. */
  function Head(m: Msg): seq<byte>
    requires InMemory(m)
  {
    Put8(SpTotal(|m.sphdr|)) + Put4(PROTO_SP) + Put4(SP_HDR) + Put8(|m.sphdr|) + m.sphdr
  }

  /** What nn_recvmsg makes of a control buffer: its own bytes stay in the padding and after
      the last header copied. */
  function ControlOf(buf: seq<byte>, m: Msg): (r: seq<byte>)
    requires InMemory(m)
    ensures |r| == |buf|
  {
    SpTotalIs(|m.sphdr|);
    var total := SpTotal(|m.sphdr|);
    if |buf| < total then buf
    else
      var n := Min(|m.hdrs|, |buf| - total);
      Head(m) + buf[|m.sphdr| + 24..total] + m.hdrs[..n] + buf[total + n..]
  }

  /** memcpy at the end of the part already filled. */
  method Fill(ctrl: array<byte>, at: nat, src: seq<byte>, ghost was: seq<byte>)
    requires at + |src| <= ctrl.Length == |was| && ctrl[at..] == was[at..]
    modifies ctrl
    ensures ctrl[..at + |src|] == old(ctrl[..at]) + src && ctrl[at + |src|..] == was[at + |src|..]
  {
    var i := 0;
    forall k | at <= k < |was| ensures ctrl[k] == was[k] { assert ctrl[at..][k - at] == was[at..][k - at]; }
    while i < |src|
      invariant 0 <= i <= |src|
      invariant forall k :: 0 <= k < |was| ==>
                  ctrl[k] == if k < at then old(ctrl[k]) else if k < at + i then src[k - at] else was[k]
    {
      ctrl[at + i] := src[i];
      i := i + 1;
    }
    assert ctrl[..at + |src|] == ctrl[..at] + ctrl[at..at + |src|];
  }

  /** The SP_HDR property, up to its padding. */
  method FillHead(ctrl: array<byte>, m: Msg, ghost was: seq<byte>)
    requires InMemory(m) && 24 + |m.sphdr| <= ctrl.Length && was == ctrl[..]
    modifies ctrl
    ensures |Head(m)| == 24 + |m.sphdr| && ctrl[..24 + |m.sphdr|] == Head(m)
    ensures ctrl[24 + |m.sphdr|..] == was[24 + |m.sphdr|..]
  {
    hide Put8, Put4, SpTotal;
    Fill(ctrl, 0, Put8(SpTotal(|m.sphdr|)), was);
    Fill(ctrl, 8, Put4(PROTO_SP), was);
    Fill(ctrl, 12, Put4(SP_HDR), was);
    Fill(ctrl, 16, Put8(|m.sphdr|), was);
    Fill(ctrl, 24, m.sphdr, was);
  }

  /** The control part of nn_recvmsg, written field by field. */
  method FillControl(ctrl: array<byte>, m: Msg)
    requires InMemory(m)
    modifies ctrl
    ensures ctrl[..] == ControlOf(old(ctrl[..]), m)
  {
    hide Head, SpTotal, ControlOf;
    SpTotalIs(|m.sphdr|);
    ghost var was := ctrl[..];
    var spsz := |m.sphdr|;
    var total := SpTotal(spsz);
    if ctrl.Length < total { TooSmall(was, m); return; }
    FillHead(ctrl, m, was);
    assert ctrl[total..] == ctrl[24 + spsz..][total - 24 - spsz..] == was[total..];
    assert ctrl[..total] == Head(m) + was[24 + spsz..total] by {
      assert ctrl[..total] == ctrl[..24 + spsz] + ctrl[24 + spsz..][..total - 24 - spsz];
    }
    var hdrssz := |m.hdrs|;
    if hdrssz > ctrl.Length - total { hdrssz := ctrl.Length - total; }
    Fill(ctrl, total, m.hdrs[..hdrssz], was);
    assert ctrl[..] == ctrl[..total + hdrssz] + ctrl[total + hdrssz..];
    BigEnough(was, m);
  }

  lemma TooSmall(buf: seq<byte>, m: Msg)
    requires InMemory(m) && |buf| < SpTotal(|m.sphdr|)
    ensures ControlOf(buf, m) == buf
  {
  }

  lemma BigEnough(buf: seq<byte>, m: Msg)
    requires InMemory(m) && SpTotal(|m.sphdr|) <= |buf| && |m.sphdr| + 24 <= SpTotal(|m.sphdr|)
    ensures var total := SpTotal(|m.sphdr|);
            var n := Min(|m.hdrs|, |buf| - total);
            ControlOf(buf, m) == Head(m) + buf[|m.sphdr| + 24..total] + m.hdrs[..n] + buf[total + n..]
  {
  }

  /** What nn_sendmsg finds in the SP_HDR property at h: nothing to copy, the header's bytes,
      or a read past the end of the buffer. */
  datatype Found = Nothing | Sphdr(bytes: seq<byte>) | Overrun

  function Extract(ctrl: seq<byte>, h: nat): Found
    requires Room(ctrl, h)
  {
    var clen := (Len(ctrl, h) - Space(0)) % TWO_64;
    if clen <= WORD then Nothing
    else if h + 24 > |ctrl| then Overrun
    else
      var spsz := Get8(ctrl[h + 16..h + 24]);
      if spsz > clen - WORD then Nothing
      else if h + 24 + spsz > |ctrl| then Overrun
      else Sphdr(ctrl[h + 24..h + 24 + spsz])
  }

  /** Exactly when the read passes the end, for every property the walk accepts: its length is
      less than its own header or more than the buffer, so that the subtraction in nn_sendmsg
      wraps or bounds nothing, and the word read as the header's size is missing, or is small
      enough for the wrapped bound and too large for the buffer. */
  lemma ExtractOverrunsIff(ctrl: seq<byte>, h: nat)
    requires |ctrl| <= TWO_64 / 2 && Accepted(ctrl, h)
    ensures Extract(ctrl, h) == Overrun <==>
            && !(HDR <= Len(ctrl, h) <= |ctrl|)
            && (h + 24 > |ctrl|
                || (Get8(ctrl[h + 16..h + 24]) <= (Len(ctrl, h) - 24) % TWO_64 &&
                    h + 24 + Get8(ctrl[h + 16..h + 24]) > |ctrl|))
  {
    var len: int := Len(ctrl, h);
    OverrunAt(ctrl, h);
    hide Extract, Len, Get8;
    if HDR <= len <= |ctrl| {
      InsideAt(ctrl, h);
    } else if len > |ctrl| {
      TooLong(|ctrl|, h, len);
    }
    Clen(len);
  }

  lemma Clen(len: uint64)
    ensures (len - HDR) % TWO_64 == if len < HDR then len - HDR + TWO_64 else len - HDR
    ensures (len - 24) % TWO_64 == if len < 24 then len - 24 + TWO_64 else len - 24
  {
  }

  lemma OverrunAt(ctrl: seq<byte>, h: nat)
    requires Room(ctrl, h)
    ensures var clen := (Len(ctrl, h) - HDR) % TWO_64;
            Extract(ctrl, h) == Overrun <==>
            && clen > WORD
            && (h + 24 > |ctrl|
                || (Get8(ctrl[h + 16..h + 24]) <= clen - WORD && h + 24 + Get8(ctrl[h + 16..h + 24]) > |ctrl|))
  {
    SpaceZero();
    hide Space, Align, Len, Get8;
  }

  /** An accepted property no longer than the buffer lies inside it. */
  lemma InsideAt(ctrl: seq<byte>, h: nat)
    requires |ctrl| <= TWO_64 / 2 && Accepted(ctrl, h) && Len(ctrl, h) <= |ctrl|
    ensures h + Len(ctrl, h) <= |ctrl|
  {
    hide Align, Len;
    AlignRounds(Len(ctrl, h));
  }

  lemma TooLong(size: nat, h: nat, len: uint64)
    requires size <= TWO_64 / 2 && h + HDR <= size < len && (h + Align(len)) % TWO_64 <= size
    ensures len >= TWO_64 / 4
  {
    AlignRounds(len);
  }

  /** Such a buffer: one SP_HDR whose length is 8, which every test of nn_sendmsg accepts. */
  lemma ExtractOverruns()
    ensures var ctrl := Put8(8) + Put4(PROTO_SP) + Put4(SP_HDR);
            |ctrl| == HDR && Next(ctrl, None) == Some(0) && IsSpHdr(ctrl, 0) && Extract(ctrl, 0) == Overrun
  {
    var ctrl := Put8(8) + Put4(PROTO_SP) + Put4(SP_HDR);
    assert ctrl[0..8] == Put8(8) && ctrl[8..12] == Put4(PROTO_SP) && ctrl[12..16] == Put4(SP_HDR);
    ShortHeader(ctrl);
    hide Put8, Put4, Len, Next, IsSpHdr, Extract;
    OverrunAt(ctrl, 0);
    Clen(8);
  }

  lemma ShortHeader(ctrl: seq<byte>)
    requires |ctrl| == HDR && ctrl[0..8] == Put8(8) && ctrl[8..12] == Put4(PROTO_SP) && ctrl[12..16] == Put4(SP_HDR)
    ensures Next(ctrl, None) == Some(0) && IsSpHdr(ctrl, 0) && Len(ctrl, 0) == 8
  {
    hide Put8, Put4, Get8, Get4, Align, Space;
    AlignWord();
    GetPutLittle(8, PROTO_SP);
    SpaceZero();
  }

  lemma AlignWord()
    ensures Align(8) == 8
  {
  }

  /** msg.sphdr of the message that nn_sendmsg builds; it starts out empty. */
  function HeaderOf(f: Found): seq<byte> { if f.Sphdr? then f.bytes else [] }

  lemma ControlHead(buf: seq<byte>, m: Msg)
    requires InMemory(m) && SpTotal(|m.sphdr|) <= |buf|
    ensures var c := ControlOf(buf, m);
            && 24 + |m.sphdr| <= |c|
            && c[0..8] == Put8(SpTotal(|m.sphdr|)) && c[8..12] == Put4(PROTO_SP) && c[12..16] == Put4(SP_HDR)
            && c[16..24] == Put8(|m.sphdr|) && c[24..24 + |m.sphdr|] == m.sphdr
  {
    SpTotalIs(|m.sphdr|);
    var c := ControlOf(buf, m);
    var h := Head(m);
    assert |h| == 24 + |m.sphdr| && c[..|h|] == h;
    assert c[0..8] == h[0..8] && c[8..12] == h[8..12] && c[12..16] == h[12..16] && c[16..24] == h[16..24];
    assert c[24..|h|] == h[24..|h|];
  }

  /** After the SP header and its padding come as many bytes of the ancillary headers as there is
      room for; nothing else in the buffer changes, and nothing at all if it is too small. */
  lemma ControlBody(buf: seq<byte>, m: Msg)
    requires InMemory(m)
    ensures var c, total := ControlOf(buf, m), SpTotal(|m.sphdr|);
            if |buf| < total then c == buf
            else
              && (forall i :: 0 <= i < |m.hdrs| && total + i < |buf| ==> c[total + i] == m.hdrs[i])
              && (forall i :: 24 + |m.sphdr| <= i < |buf| && !(total <= i < total + |m.hdrs|) ==> c[i] == buf[i])
  {
    SpTotalIs(|m.sphdr|);
    if |buf| >= SpTotal(|m.sphdr|) { BodyAt(buf, m); }
  }

  lemma BodyAt(buf: seq<byte>, m: Msg)
    requires InMemory(m) && 24 + |m.sphdr| <= SpTotal(|m.sphdr|) <= |buf|
    ensures var c, total := ControlOf(buf, m), SpTotal(|m.sphdr|);
            && (forall i :: 0 <= i < |m.hdrs| && total + i < |buf| ==> c[total + i] == m.hdrs[i])
            && (forall i :: 24 + |m.sphdr| <= i < |buf| && !(total <= i < total + |m.hdrs|) ==> c[i] == buf[i])
  {
    BigEnough(buf, m);
    assert |Head(m)| == 24 + |m.sphdr|;
    hide ControlOf, SpTotal, Head;
  }

  /** Receiving into any control buffer that has room for the SP header, and sending it on:
      the first property is the SP header, it passes every test, and its bytes come back,
      whatever their number, zero included, and whatever else is in the buffer. */
  lemma RecvThenSend(buf: seq<byte>, m: Msg)
    requires InMemory(m) && SpTotal(|m.sphdr|) <= |buf| <= TWO_64 / 2
    ensures FirstSpHdr(ControlOf(buf, m), Some(0), 0)
    ensures Extract(ControlOf(buf, m), 0) == if m.sphdr == [] then Nothing else Sphdr(m.sphdr)
  {
    SpTotalIs(|m.sphdr|);
    ControlHead(buf, m);
    FirstIsSpHdr(ControlOf(buf, m), |m.sphdr|);
    ExtractFirst(ControlOf(buf, m), m.sphdr);
  }

  lemma FirstIsSpHdr(c: seq<byte>, n: uint64)
    requires n <= LIMIT && SpTotal(n) <= |c| <= TWO_64 / 2 && 24 <= |c|
    requires c[0..8] == Put8(SpTotal(n)) && c[8..12] == Put4(PROTO_SP) && c[12..16] == Put4(SP_HDR)
    ensures FirstSpHdr(c, Some(0), 0)
  {
    hide Put8, Get8, Put4, Get4, Align, SpTotal, Space;
    SpTotalIs(n);
    SpaceZero();
    GetPutLittle(SpTotal(n), PROTO_SP);
    assert Len(c, 0) == SpTotal(n);
    assert Next(c, None) == Some(0);
  }

  lemma ExtractFirst(c: seq<byte>, sphdr: seq<byte>)
    requires |sphdr| <= LIMIT && 24 + |sphdr| <= |c|
    requires c[0..8] == Put8(SpTotal(|sphdr|)) && c[16..24] == Put8(|sphdr|) && c[24..24 + |sphdr|] == sphdr
    ensures Extract(c, 0) == if sphdr == [] then Nothing else Sphdr(sphdr)
  {
    hide Put8, Get8, Put4, Get4, Align, SpTotal, Space;
    SpTotalIs(|sphdr|);
    SpaceZero();
    GetPutLittle(SpTotal(|sphdr|), 0);
    GetPutLittle(|sphdr|, 0);
    AlignRounds(|sphdr| + WORD);
    assert Len(c, 0) == SpTotal(|sphdr|);
    assert (SpTotal(|sphdr|) - HDR) % TWO_64 == Align(|sphdr| + WORD);
  }

  /** One hop through a device whose fresh control chunk held `junk`. */
  function Hop(m: Msg, junk: seq<byte>): Msg
    requires InMemory(m)
  {
    Msg(HeaderOf(Extract1(ControlOf(junk, m))), ControlOf(junk, m), m.body)
  }

  function Extract1(ctrl: seq<byte>): Found { if Room(ctrl, 0) then Extract(ctrl, 0) else Nothing }

  predicate FreshControl(m: Msg, junk: seq<byte>) { |m.sphdr| <= LIMIT && |junk| == SpTotal(|m.sphdr|) + |m.hdrs| }

  predicate Hops(m: Msg, junks: seq<seq<byte>>)
    decreases |junks|
  {
    junks == [] || (InMemory(m) && FreshControl(m, junks[0]) && Hops(Hop(m, junks[0]), junks[1..]))
  }

  function AfterHops(m: Msg, junks: seq<seq<byte>>): Msg
    requires Hops(m, junks)
    decreases |junks|
  {
    if junks == [] then m else AfterHops(Hop(m, junks[0]), junks[1..])
  }

  lemma HopKeeps(m: Msg, junk: seq<byte>)
    requires InMemory(m) && FreshControl(m, junk)
    ensures var h := Hop(m, junk);
            && h.sphdr == m.sphdr && h.body == m.body
            && |h.hdrs| == SpTotal(|m.sphdr|) + |m.hdrs| && h.hdrs[SpTotal(|m.sphdr|)..] == m.hdrs
  {
    hide Extract, FirstSpHdr;
    SpTotalIs(|m.sphdr|);
    RecvThenSend(junk, m);
    hide SpTotal;
    assert Room(ControlOf(junk, m), 0);
    assert m.hdrs[..|m.hdrs|] == m.hdrs && junk[|junk|..] == [];
  }

  /** Through any number of devices: the protocol header and the body are those that were
      sent, and the ancillary headers sent are still the last ones. */
  lemma {:induction false} ManyHops(m: Msg, junks: seq<seq<byte>>)
    requires Hops(m, junks)
    ensures var r := AfterHops(m, junks);
            && r.sphdr == m.sphdr && r.body == m.body
            && |r.hdrs| >= |m.hdrs|
            && r.hdrs[|r.hdrs| - |m.hdrs|..] == m.hdrs
    decreases |junks|
  {
    hide Hop, SpTotal;
    if junks == [] {
    } else {
      HopKeeps(m, junks[0]);
      var h := Hop(m, junks[0]);
      ManyHops(h, junks[1..]);
      var r := AfterHops(m, junks);
      assert r.hdrs[|r.hdrs| - |m.hdrs|..] == r.hdrs[|r.hdrs| - |h.hdrs|..][|h.hdrs| - |m.hdrs|..];
    }
  }

  /** nn_device_mvmsg between a receive that gave `m` and a send: the control chunk is
      allocated by nn_recvmsg and handed on; the body travels as a chunk. */
  method MvMsg(m: Msg) returns (sent: Msg, ghost junk: seq<byte>)
    requires InMemory(m)
    ensures FreshControl(m, junk) && sent == Hop(m, junk)
    ensures sent.sphdr == m.sphdr && sent.body == m.body
    ensures |sent.hdrs| == SpTotal(|m.sphdr|) + |m.hdrs| && sent.hdrs[SpTotal(|m.sphdr|)..] == m.hdrs
  {
    hide FirstSpHdr, Extract, Head, ControlOf, Align;
    SpTotalIs(|m.sphdr|);
    hide SpTotal;
    var ctrl := new byte[SpTotal(|m.sphdr|) + |m.hdrs|];
    junk := ctrl[..];
    FillControl(ctrl, m);
    var control := ctrl[..];
    RecvThenSend(junk, m);
    var done, at, k := Search(control, |control|);
    UniqueFirst(control, done, at, k);
    HopKeeps(m, junk);
    sent := Msg(HeaderOf(if at.Some? then Extract(control, at.value) else Nothing), control, m.body);
  }

  /** The search of a buffer that starts with the SP header finds just that. */
  lemma UniqueFirst(ctrl: seq<byte>, done: bool, at: Option<nat>, k: nat)
    requires 0 < |ctrl| <= TWO_64 / 2 && FirstSpHdr(ctrl, Some(0), 0)
    requires done ==> FirstSpHdr(ctrl, at, k)
    requires forall j :: 0 <= j < |ctrl| && Walk(ctrl, j).Some? && IsSpHdr(ctrl, Walk(ctrl, j).value) ==> done
    ensures at == Some(0)
  {
    hide IsSpHdr, Walk;
    assert Walk(ctrl, 0).Some?;
  }
}
