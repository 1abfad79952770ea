/** Ancillary data: the NN_CMSG arithmetic (nn.h) and the walk over a control buffer
    (nn_cmsg_nxthdr_ and the search of nn_sendmsg, core/global.c).  A size_t is 64 bits wide and
    stored little-endian; offsets into the buffer stand for pointers. */
module Cmsg {
  import opened Util
  import opened Wire

  const HDR := 16
  const WORD := 8
  const PROTO_SP := 1
  const SP_HDR := 1

  /** NN_CMSG_ALIGN_: the mask clears the low three bits of a sum that may wrap. */
  function Align(len: uint64): uint64 { (len + 7) % TWO_64 / 8 * 8 }

  /** NN_CMSG_SPACE. */
  function Space(len: uint64): uint64 { (Align(len) + HDR) % TWO_64 }

  lemma SpaceZero()
    ensures Space(0) == HDR
  {
  }

  /** Rounding up to whole words, unless the sum wraps: then the result is 0. */
  lemma AlignRounds(len: uint64)
    ensures Align(len) % 8 == 0
    ensures len <= TWO_64 - 8 ==> len <= Align(len) < len + 8
    ensures len > TWO_64 - 8 ==> Align(len) == 0
  {
    assert len > TWO_64 - 8 ==> (len + 7) % TWO_64 == len + 7 - TWO_64;
  }

  function Reversed(b: seq<byte>): (r: seq<byte>)
    ensures |r| == |b| && forall i :: 0 <= i < |b| ==> r[i] == b[|b| - 1 - i]
  {
    if b == [] then [] else Reversed(b[1..]) + [b[0]]
  }

  function Put8(v: uint64): (r: seq<byte>) ensures |r| == 8 { Reversed(PutLL(v)) }
  function Put4(v: uint32): (r: seq<byte>) ensures |r| == 4 { Reversed(PutL(v)) }
  function Get8(b: seq<byte>): uint64 requires |b| == 8 { GetLL(Reversed(b)) }
  function Get4(b: seq<byte>): uint32 requires |b| == 4 { GetL(Reversed(b)) }

  lemma GetPutLittle(v: uint64, w: uint32)
    ensures Get8(Put8(v)) == v && Get4(Put4(w)) == w
  {
    GetPut(0, w, v);
    assert Reversed(Put8(v)) == PutLL(v) && Reversed(Put4(w)) == PutL(w);
  }

  /** There is room for a struct nn_cmsghdr at offset h. */
  predicate Room(ctrl: seq<byte>, h: nat) { h + HDR <= |ctrl| }

  function Len(ctrl: seq<byte>, h: nat): uint64
    requires Room(ctrl, h)
  {
    Get8(ctrl[h..h + 8])
  }

  predicate IsSpHdr(ctrl: seq<byte>, h: nat)
    requires Room(ctrl, h)
  {
    Get4(ctrl[h + 8..h + 12]) == PROTO_SP && Get4(ctrl[h + 12..h + 16]) == SP_HDR
  }

  /** The last test of nn_cmsg_nxthdr_. */
  predicate Accepted(ctrl: seq<byte>, h: nat) {
    Room(ctrl, h) && (h + Align(Len(ctrl, h))) % TWO_64 <= |ctrl|
  }

  /** nn_cmsg_nxthdr_: the header after the one at `cur`, or the first.  A control buffer is
      an object in memory, so its size is at most 2^63. */
  function Next(ctrl: seq<byte>, cur: Option<nat>): (r: Option<nat>)
    requires |ctrl| <= TWO_64 / 2 && (cur.Some? ==> Room(ctrl, cur.value))
    ensures r.Some? ==> Accepted(ctrl, r.value)
  {
    if |ctrl| < Space(0) then None
    else
      var headsz := if cur.None? then 0 else (cur.value + Align(Len(ctrl, cur.value))) % TWO_64;
      if (headsz + Space(0)) % TWO_64 > |ctrl| then None
      else if !Room(ctrl, headsz) then None
      else if (headsz + Align(Len(ctrl, headsz))) % TWO_64 > |ctrl| then None
      else Some(headsz)
  }

  /** The C test (headsz + NN_CMSG_SPACE (0) > sz) does not wrap on the walk: it is Room. */
  lemma NextStaysInside(ctrl: seq<byte>, cur: Option<nat>)
    requires |ctrl| <= TWO_64 / 2 && (cur.Some? ==> Accepted(ctrl, cur.value))
    ensures |ctrl| >= HDR ==>
              var headsz := if cur.None? then 0 else (cur.value + Align(Len(ctrl, cur.value))) % TWO_64;
              ((headsz + Space(0)) % TWO_64 <= |ctrl| <==> Room(ctrl, headsz))
  {
    SpaceZero();
    hide Align, Len, Space;
  }

  /** The walk moves forward exactly when the header's length is positive and no greater than
      the buffer: a zero length, or one so large that rounding or adding wraps, does not. */
  lemma AdvancesIff(ctrl: seq<byte>, h: nat)
    requires |ctrl| <= TWO_64 / 2 && Accepted(ctrl, h) && Next(ctrl, Some(h)).Some?
    ensures Next(ctrl, Some(h)).value > h <==> 0 < Len(ctrl, h) <= |ctrl|
  {
    hide Align, Len;
    AlignRounds(Len(ctrl, h));
    var a := Align(Len(ctrl, h));
    assert h + a < 2 * TWO_64;
    assert (h + a) % TWO_64 == if h + a < TWO_64 then h + a else h + a - TWO_64;
  }

  /** A header whose length is 0, or within 7 of 2^64, is its own successor for ever. */
  lemma StaysPut(ctrl: seq<byte>, h: nat)
    requires |ctrl| <= TWO_64 / 2 && Accepted(ctrl, h)
    requires Len(ctrl, h) == 0 || Len(ctrl, h) > TWO_64 - 8
    ensures Next(ctrl, Some(h)) == Some(h)
  {
    AlignRounds(Len(ctrl, h));
    assert h % TWO_64 == h;
  }

  /** The header reached after k steps of the walk. */
  function Walk(ctrl: seq<byte>, k: nat): (r: Option<nat>)
    requires |ctrl| <= TWO_64 / 2
    ensures r.Some? ==> Accepted(ctrl, r.value)
  {
    if k == 0 then Next(ctrl, None)
    else
      var h := Walk(ctrl, k - 1);
      if h.None? then None else Next(ctrl, h)
  }

  /** A positive length alone does not end the walk: a buffer of one header whose length is
      2^64 - 1 is walked round and round. */
  lemma {:induction false} WalkStalls(level: uint32, kind: uint32, k: nat)
    ensures var ctrl := Put8(TWO_64 - 1) + Put4(level) + Put4(kind);
            |ctrl| == HDR && Len(ctrl, 0) > 0 && Walk(ctrl, k) == Some(0)
  {
    var ctrl := Put8(TWO_64 - 1) + Put4(level) + Put4(kind);
    StallingHeader(ctrl);
    hide Put8, Put4, Len, Align, Next;
    if k > 0 {
      WalkStalls(level, kind, k - 1);
      StaysPut(ctrl, 0);
    }
  }

  lemma StallingHeader(ctrl: seq<byte>)
    requires |ctrl| == HDR && ctrl[0..8] == Put8(TWO_64 - 1)
    ensures Len(ctrl, 0) == TWO_64 - 1 && Accepted(ctrl, 0) && Next(ctrl, None) == Some(0)
  {
    hide Put8, Get8, Align, Space;
    GetPutLittle(TWO_64 - 1, 0);
    SpaceZero();
    AlignRounds(TWO_64 - 1);
  }

  ghost predicate Forward(ctrl: seq<byte>)
    requires |ctrl| <= TWO_64 / 2
  {
    forall k :: Walk(ctrl, k).Some? ==> 0 < Len(ctrl, Walk(ctrl, k).value) <= |ctrl|
  }

  /** When every length met is positive and fits, the walk ends within |ctrl| / 8 steps. */
  lemma {:induction false} ForwardWalk(ctrl: seq<byte>, k: nat)
    requires |ctrl| <= TWO_64 / 2 && Forward(ctrl)
    ensures Walk(ctrl, k).Some? ==> Walk(ctrl, k).value >= 8 * k
  {
    if k > 0 {
      ForwardWalk(ctrl, k - 1);
      var h := Walk(ctrl, k - 1);
      if h.Some? { Stride(ctrl, h.value); }
    }
  }

  lemma WalkIsShort(ctrl: seq<byte>, k: nat)
    requires |ctrl| <= TWO_64 / 2 && Walk(ctrl, k).Some?
    ensures Forward(ctrl) ==> 8 * k <= |ctrl|
  {
    if Forward(ctrl) { ForwardWalk(ctrl, k); }
  }

  lemma Stride(ctrl: seq<byte>, h: nat)
    requires |ctrl| <= TWO_64 / 2 && Accepted(ctrl, h) && 0 < Len(ctrl, h) <= |ctrl|
    ensures Next(ctrl, Some(h)).Some? ==> Next(ctrl, Some(h)).value >= h + 8
  {
    hide Align, Len;
    AlignRounds(Len(ctrl, h));
    var a := Align(Len(ctrl, h));
    assert h + a < TWO_64;
  }

  /** The first SP_HDR on the walk, if there is one. */
  ghost predicate FirstSpHdr(ctrl: seq<byte>, at: Option<nat>, k: nat)
    requires |ctrl| <= TWO_64 / 2
  {
    && Walk(ctrl, k) == at && (at.Some? ==> IsSpHdr(ctrl, at.value))
    && forall j :: 0 <= j < k ==> Walk(ctrl, j).Some? && !IsSpHdr(ctrl, Walk(ctrl, j).value)
  }

  /** No header is met twice. */
  ghost predicate NoRepeat(ctrl: seq<byte>)
    requires |ctrl| <= TWO_64 / 2
  {
    forall i, j :: 0 <= i < j && Walk(ctrl, j).Some? ==> Walk(ctrl, i) != Walk(ctrl, j)
  }

  lemma WalkStep(ctrl: seq<byte>, k: nat)
    requires |ctrl| <= TWO_64 / 2
    ensures Walk(ctrl, k + 1) == if Walk(ctrl, k).None? then None else Next(ctrl, Walk(ctrl, k))
  {
  }

  lemma {:induction false} WalkOn(ctrl: seq<byte>, j: nat, k: nat)
    requires |ctrl| <= TWO_64 / 2 && j <= k && Walk(ctrl, j).None?
    ensures Walk(ctrl, k).None?
  {
    hide Walk, Next, Accepted;
    if j == k {
    } else {
      WalkOn(ctrl, j, k - 1);
      WalkStep(ctrl, k - 1);
    }
  }

  /** From two equal headers the walk goes the same way. */
  lemma {:induction false} Shifted(ctrl: seq<byte>, i: nat, j: nat, m: nat)
    requires |ctrl| <= TWO_64 / 2 && Walk(ctrl, i) == Walk(ctrl, j)
    ensures Walk(ctrl, i + m) == Walk(ctrl, j + m)
  {
    hide Walk, Next, Accepted;
    if m == 0 {
    } else {
      Shifted(ctrl, i, j, m - 1);
      WalkStep(ctrl, i + m - 1);
      WalkStep(ctrl, j + m - 1);
    }
  }

  /** A walk that comes back to a header never ends. */
  lemma RepeatNeverEnds(ctrl: seq<byte>, i: nat, j: nat, k: nat)
    requires |ctrl| <= TWO_64 / 2 && i < j && Walk(ctrl, j).Some? && Walk(ctrl, i) == Walk(ctrl, j)
    ensures Walk(ctrl, k).Some?
    decreases k
  {
    hide Walk;
    if k <= j {
      if Walk(ctrl, k).None? { WalkOn(ctrl, k, j); }
    } else {
      Shifted(ctrl, i, j, k - j);
      RepeatNeverEnds(ctrl, i, j, i + (k - j));
    }
  }

  /** The offsets of the first k headers. */
  ghost function Met(ctrl: seq<byte>, k: nat): seq<nat>
    requires |ctrl| <= TWO_64 / 2 && forall j :: 0 <= j < k ==> Walk(ctrl, j).Some?
  {
    seq(k, j requires 0 <= j < k => Walk(ctrl, j).value)
  }

  /** Headers met without repetition are at most as many as the buffer has bytes. */
  lemma FewHeaders(ctrl: seq<byte>, k: nat)
    requires |ctrl| <= TWO_64 / 2 && forall j :: 0 <= j < k ==> Walk(ctrl, j).Some?
    requires forall i, j :: 0 <= i < j < k ==> Walk(ctrl, i) != Walk(ctrl, j)
    ensures k <= |ctrl|
  {
    hide Walk;
    FewDistinct(Met(ctrl, k), |ctrl|);
  }

  ghost predicate Ends(ctrl: seq<byte>)
    requires |ctrl| <= TWO_64 / 2
  {
    exists k: nat :: Walk(ctrl, k).None?
  }

  /** Exactly when the walk ends: when no header is met twice.  It has then ended after as many
      steps as the buffer has bytes, so that many steps decide it. */
  lemma WalkEndsIff(ctrl: seq<byte>)
    requires |ctrl| <= TWO_64 / 2
    ensures Ends(ctrl) <==> NoRepeat(ctrl)
    ensures Ends(ctrl) <==> Walk(ctrl, |ctrl|).None?
  {
    if NoRepeat(ctrl) {
      EndsInTime(ctrl);
    } else {
      var i: nat, j: nat :| i < j && Walk(ctrl, j).Some? && Walk(ctrl, i) == Walk(ctrl, j);
      hide Walk;
      forall k: nat ensures Walk(ctrl, k).Some? { RepeatNeverEnds(ctrl, i, j, k); }
    }
  }

  lemma EndsInTime(ctrl: seq<byte>)
    requires |ctrl| <= TWO_64 / 2 && NoRepeat(ctrl)
    ensures Walk(ctrl, |ctrl|).None? && Ends(ctrl)
  {
    hide Walk;
    var n := |ctrl|;
    if Walk(ctrl, n).Some? {
      forall j | 0 <= j <= n ensures Walk(ctrl, j).Some? { if Walk(ctrl, j).None? { WalkOn(ctrl, j, n); } }
      forall i, j | 0 <= i < j < n + 1 ensures Walk(ctrl, i) != Walk(ctrl, j) { assert Walk(ctrl, j).Some?; }
      FewHeaders(ctrl, n + 1);
    }
    assert Walk(ctrl, n).None?;
  }

  /** The C loop ends after k turns, at an SP_HDR or at the end of the walk. */
  ghost predicate Stops(ctrl: seq<byte>, k: nat)
    requires |ctrl| <= TWO_64 / 2
  {
    Walk(ctrl, k).None? || IsSpHdr(ctrl, Walk(ctrl, k).value)
  }

  /** If the loop ends at all, it ends within as many turns as the buffer has bytes. */
  lemma StopsSoon(ctrl: seq<byte>, k: nat)
    requires |ctrl| <= TWO_64 / 2 && Stops(ctrl, k) && forall j :: 0 <= j < k ==> !Stops(ctrl, j)
    ensures k <= |ctrl| && (Walk(ctrl, k).Some? ==> k < |ctrl|)
  {
    hide Walk, IsSpHdr, Accepted, Room;
    var n := if Walk(ctrl, k).Some? then k + 1 else k;
    forall j | 0 <= j < n ensures Walk(ctrl, j).Some? { if j < k { assert !Stops(ctrl, j); } }
    forall i, j | 0 <= i < j < n ensures Walk(ctrl, i) != Walk(ctrl, j) {
      if Walk(ctrl, i) == Walk(ctrl, j) {
        assert !Stops(ctrl, i + (k - j));
        Shifted(ctrl, i, j, k - j);
      }
    }
    FewHeaders(ctrl, n);
  }

  /** The search loop of nn_sendmsg, cut off after `turns` turns. */
  method Search(ctrl: seq<byte>, turns: nat) returns (done: bool, at: Option<nat>, k: nat)
    requires |ctrl| <= TWO_64 / 2
    ensures done ==> FirstSpHdr(ctrl, at, k)
    ensures Forward(ctrl) && 8 * turns > |ctrl| ==> done
    ensures turns >= |ctrl| ==> (done <==> exists j: nat :: Stops(ctrl, j))
    ensures forall j :: 0 <= j < turns && Walk(ctrl, j).Some? && IsSpHdr(ctrl, Walk(ctrl, j).value) ==> done
  {
    hide IsSpHdr, Len, Align, Next;
    at := Next(ctrl, None);
    k := 0;
    while at.Some? && k < turns
      invariant 0 <= k <= turns && Walk(ctrl, k) == at
      invariant forall j :: 0 <= j < k ==> Walk(ctrl, j).Some? && !IsSpHdr(ctrl, Walk(ctrl, j).value)
      decreases turns - k
    {
      if IsSpHdr(ctrl, at.value) {
        assert Stops(ctrl, k);
        return true, at, k;
      }
      at := Next(ctrl, at);
      k := k + 1;
    }
    if at.Some? {
      WalkIsShort(ctrl, k);
      CutOff(ctrl, k);
    }
    done := at.None?;
    assert done ==> Stops(ctrl, k);
  }

  /** A loop still running after as many turns as the buffer has bytes runs for ever. */
  lemma CutOff(ctrl: seq<byte>, k: nat)
    requires |ctrl| <= TWO_64 / 2 && Walk(ctrl, k).Some? && forall j :: 0 <= j < k ==> !Stops(ctrl, j)
    ensures k >= |ctrl| ==> forall j: nat :: !Stops(ctrl, j)
  {
    hide Walk, IsSpHdr, Accepted, Room;
    if k >= |ctrl| && exists j: nat :: Stops(ctrl, j) {
      var j: nat :| Stops(ctrl, j);
      var first := FirstStop(ctrl, j);
      StopsSoon(ctrl, first);
    }
  }

  lemma {:induction false} FirstStop(ctrl: seq<byte>, k: nat) returns (first: nat)
    requires |ctrl| <= TWO_64 / 2 && Stops(ctrl, k)
    ensures first <= k && Stops(ctrl, first) && forall j :: 0 <= j < first ==> !Stops(ctrl, j)
  {
    if forall j :: 0 <= j < k ==> !Stops(ctrl, j) {
      first := k;
    } else {
      var j :| 0 <= j < k && Stops(ctrl, j);
      first := FirstStop(ctrl, j);
    }
  }
}
