/** What main's loop receives into: a buffer of 4000 bytes that nn_recv fills from its start and
    that is never cleared, read by the handlers through the structs of requests.h, the longest
    of which is longer than the buffer (main.c:43, 61-68).  What lies in memory after the buffer
    is a parameter. */
module Incoming {
  import opened Getd
  import opened Util
  import opened Wire
  import Cmsg

  /** What a struct can cover beyond the buffer. */
  type Beyond = s: seq<byte> | |s| == SIZEOF_TYPE3 - BUFFER witness seq(SIZEOF_TYPE3 - BUFFER, i => 0)

  type Buffer = s: seq<byte> | |s| == BUFFER witness seq(BUFFER, i => 0)

  /** One turn's circumstances: the message, if nn_recv succeeds, and what the handlers will draw
      and open. */
  datatype Arrival = Arrival(message: Option<seq<byte>>, beyond: Beyond, drawn: Drawn, file: Opened)

  /** nn_recv into the buffer: the message, cut to the buffer, over what was there before. */
  function Received(buffer: Buffer, message: Option<seq<byte>>): Buffer {
    if message.None? then buffer
    else
      var n := Min(|message.value|, BUFFER);
      message.value[..n] + buffer[n..]
  }

  /** The structs of requests.h laid over the buffer and what follows it. */
  function Parse(buffer: Buffer, a: Arrival): Request {
    var mem := buffer + a.beyond;
    match mem[0]
    case 0 => Type0(Cmsg.Get4(mem[4..8]), Cmsg.Get4(mem[8..12]), mem[12..48], a.drawn)
    case 3 => Type3(Cmsg.Get4(mem[4..8]), Cmsg.Get4(mem[8..12]), Cmsg.Get4(mem[12..16]), mem[16..148],
        mem[PATH_AT..PATH_AT + 4097], a.file)
    case 6 => Type6(Cmsg.Get4(mem[4..8]), Cmsg.Get4(mem[8..12]), mem[12..144])
    case t => Other(t)
  }

  /** The requests that a sequence of arrivals amounts to. */
  function Requests(buffer: Buffer, arrivals: seq<Arrival>): (r: seq<Request>)
    ensures |r| == |arrivals|
    decreases |arrivals|
  {
    if arrivals == [] then []
    else
      var b := Received(buffer, arrivals[0].message);
      [Parse(b, arrivals[0])] + Requests(b, arrivals[1..])
  }

  function BufferAfter(buffer: Buffer, arrivals: seq<Arrival>): Buffer
    decreases |arrivals|
  {
    if arrivals == [] then buffer else BufferAfter(Received(buffer, arrivals[0].message), arrivals[1..])
  }

  lemma NothingAfter(buffer: Buffer, arrivals: seq<Arrival>)
    ensures BufferAfter(buffer, arrivals[..0]) == buffer
  {
  }

  lemma {:induction false} RequestAt(buffer: Buffer, arrivals: seq<Arrival>, i: nat)
    requires i < |arrivals|
    ensures var b := Received(BufferAfter(buffer, arrivals[..i]), arrivals[i].message);
            Requests(buffer, arrivals)[i] == Parse(b, arrivals[i]) && BufferAfter(buffer, arrivals[..i + 1]) == b
    decreases i
  {
    var b := Received(buffer, arrivals[0].message);
    if i == 0 {
      assert arrivals[..1][1..] == [];
    } else {
      RequestAt(b, arrivals[1..], i - 1);
      assert arrivals[1..][..i - 1] == arrivals[..i][1..] && arrivals[1..][..i] == arrivals[..i + 1][1..];
    }
  }

  /** The same turn with other bytes after the buffer. */
  function Instead(a: Arrival, beyond: Beyond): Arrival { a.(beyond := beyond) }

  /** Everything but the path lies inside the buffer, and 3855 bytes of that do. */
  lemma SameInside(buffer: Buffer, a: Arrival, beyond: Beyond)
    ensures var m, o := Parse(buffer, a), Parse(buffer, Instead(a, beyond));
            if m.Type3? then o.Type3? && o == m.(path := o.path) &&
                o.path[..BUFFER - PATH_AT] == m.path[..BUFFER - PATH_AT]
            else o == m
  {
    var mem, other := buffer + a.beyond, buffer + beyond;
    assert mem[..BUFFER] == other[..BUFFER] == buffer;
    assert forall i, j :: 0 <= i <= j <= BUFFER ==> mem[i..j] == mem[..BUFFER][i..j] == other[i..j];
    assert mem[0] == other[0];
    assert mem[PATH_AT..PATH_AT + 4097][..BUFFER - PATH_AT] == mem[PATH_AT..BUFFER];
    assert other[PATH_AT..PATH_AT + 4097][..BUFFER - PATH_AT] == other[PATH_AT..BUFFER];
  }

  lemma SameCount(s: seq<byte>, t: seq<byte>, n: nat)
    requires n <= |s| && n <= |t| && s[..n] == t[..n]
    ensures StrNLen(s, n) == StrNLen(t, n)
  {
    var k := StrNLen(s, n);
    assert forall i :: 0 <= i < n ==> t[i] == t[..n][i] == s[i];
  }

  lemma SameOutside(m: Request, o: Request)
    requires m.Type3? && o.Type3? && o == m.(path := o.path) && o.path[..BUFFER - PATH_AT] == m.path[..BUFFER - PATH_AT]
    ensures ReadsOutside(o) == ReadsOutside(m) && (!ReadsOutside(m) ==> Type3Ver(o) == Type3Ver(m))
  {
    hide StrNLen;
    SameCount(m.path, o.path, BUFFER - PATH_AT);
    ShorterCount(m.path, BUFFER - PATH_AT, 4096);
    ShorterCount(o.path, BUFFER - PATH_AT, 4096);
  }

  /** A request that keeps to the buffer is answered the same whatever lies after it. */
  lemma OutsideIsIgnored(buffer: Buffer, a: Arrival, beyond: Beyond, s: State)
    requires s.lastSent == 4 ==> Usable(s)
    requires var m := Parse(buffer, a); m.Type3? ==> !ReadsOutside(m)
    ensures Handle(Parse(buffer, a), s) == Handle(Parse(buffer, Instead(a, beyond)), s)
  {
    var m, o := Parse(buffer, a), Parse(buffer, Instead(a, beyond));
    SameInside(buffer, a, beyond);
    if m.Type3? {
      SameOutside(m, o);
      hide Parse, Type3Ver, ReadsOutside, StrNEq;
    }
  }

  /** Bytes that make the path end after k of them. */
  function Ending(k: nat): Beyond
    requires BUFFER - PATH_AT <= k <= 4096
  {
    seq(SIZEOF_TYPE3 - BUFFER, i => if i == k - (BUFFER - PATH_AT) then 0 else 65)
  }

  lemma CountIs(buffer: Buffer, a: Arrival, k: nat)
    requires BUFFER - PATH_AT <= k <= 4096
    requires var m := Parse(buffer, a); m.Type3? && ReadsOutside(m)
    ensures var o := Parse(buffer, Instead(a, Ending(k))); o.Type3? && StrNLen(o.path, 4096) == k
  {
    var o := Parse(buffer, Instead(a, Ending(k)));
    SameInside(buffer, a, Ending(k));
    SameOutside(Parse(buffer, a), o);
    var n := BUFFER - PATH_AT;
    assert forall i :: 0 <= i < n ==> o.path[i] != 0;
    var other := buffer + Ending(k);
    forall i | n <= i < 4097 ensures o.path[i] == Ending(k)[i - n] {
      assert o.path[i] == other[PATH_AT + i];
    }
    EndsAt(o.path, 4096, k);
  }

  lemma EndsAt(s: seq<byte>, n: nat, k: nat)
    requires k <= n <= |s| && (forall i :: 0 <= i < k ==> s[i] != 0) && (k < n ==> s[k] == 0)
    ensures StrNLen(s, n) == k
  {
  }

  /** Exactly when bytes that nobody sent decide whether a path passes type3Ver: it is looked for
      outside the buffer, and its count can be reached there. */
  lemma BeyondDecidesIff(buffer: Buffer, a: Arrival)
    requires Parse(buffer, a).Type3?
    ensures var m := Parse(buffer, a);
            (exists beyond: Beyond :: Decides(buffer, a, beyond))
            <==> ReadsOutside(m) && BUFFER - PATH_AT <= m.pathLength <= 4096
  {
    var m := Parse(buffer, a);
    if ReadsOutside(m) && BUFFER - PATH_AT <= m.pathLength <= 4096 {
      var k: nat := m.pathLength;
      var j := if k == BUFFER - PATH_AT then k + 1 else k - 1;
      CountIs(buffer, a, k);
      CountIs(buffer, a, j);
      SameInside(buffer, a, Ending(k));
      SameInside(buffer, a, Ending(j));
      hide Parse, StrNLen;
      assert Decides(buffer, a, Ending(k)) || Decides(buffer, a, Ending(j));
    } else {
      forall beyond: Beyond ensures !Decides(buffer, a, beyond) { CannotDecide(buffer, a, beyond); }
    }
  }

  predicate Decides(buffer: Buffer, a: Arrival, beyond: Beyond)
    requires Parse(buffer, a).Type3?
  {
    var o := Parse(buffer, Instead(a, beyond));
    o.Type3? && Type3Ver(o) != Type3Ver(Parse(buffer, a))
  }

  lemma CannotDecide(buffer: Buffer, a: Arrival, beyond: Beyond)
    requires var m := Parse(buffer, a);
             m.Type3? && !(ReadsOutside(m) && BUFFER - PATH_AT <= m.pathLength <= 4096)
    ensures !Decides(buffer, a, beyond)
  {
    var m, o := Parse(buffer, a), Parse(buffer, Instead(a, beyond));
    SameInside(buffer, a, beyond);
    SameOutside(m, o);
    hide Parse, StrNLen;
    ShorterCount(m.path, BUFFER - PATH_AT, 4096);
    ShorterCount(o.path, BUFFER - PATH_AT, 4096);
  }

  // ---- Where the fields lie ----

  /** The message overwrites the buffer from its start, as far as it goes; the rest stays. */
  lemma ReceivedAt(buffer: Buffer, message: seq<byte>, i: nat)
    requires i < BUFFER
    ensures Received(buffer, Some(message))[i] == if i < |message| then message[i] else buffer[i]
  {
  }

  /** The first byte of a message decides its kind, and nothing else does. */
  lemma KindIs(buffer: Buffer, a: Arrival)
    requires a.message.Some? && a.message.value != []
    ensures var kind, r := a.message.value[0], Parse(Received(buffer, a.message), a);
            && (r.Type0? <==> kind == 0) && (r.Type3? <==> kind == 3) && (r.Type6? <==> kind == 6)
            && (kind !in {0, 3, 6} ==> r == Other(kind))
  {
    hide Received;
    ReceivedAt(buffer, a.message.value, 0);
    assert (Received(buffer, a.message) + a.beyond)[0] == a.message.value[0];
  }

  /** struct _header and what follows it: the type, three bytes of padding, the length. */
  function Front(kind: byte, pad: seq<byte>, size: uint32): seq<byte> { [kind] + pad + Cmsg.Put4(size) }

  /** The requests as requests.h lays them out in memory. */
  function Laid0(pad: seq<byte>, size: uint32, n: uint32, name: Name33): seq<byte> {
    Front(0, pad, size) + Cmsg.Put4(n) + name
  }

  function Laid3(pad: seq<byte>, size: uint32, n: uint32, p: uint32, sid: seq<byte>, path: Path4097): seq<byte> {
    Front(3, pad, size) + Cmsg.Put4(n) + Cmsg.Put4(p) + sid + path
  }

  function Laid6(pad: seq<byte>, size: uint32, n: uint32, sid: Sid129): seq<byte> {
    Front(6, pad, size) + Cmsg.Put4(n) + sid
  }

  lemma FrontAt(kind: byte, pad: seq<byte>, size: uint32, n: uint32, rest: seq<byte>)
    requires |pad| == 3
    ensures var m := Front(kind, pad, size) + Cmsg.Put4(n) + rest;
            && |m| == 12 + |rest| && m[0] == kind && m[12..] == rest
            && Cmsg.Get4(m[4..8]) == size && Cmsg.Get4(m[8..12]) == n
  {
    hide Cmsg.Put4, Cmsg.Get4;
    var m := Front(kind, pad, size) + Cmsg.Put4(n) + rest;
    assert m[4..8] == Cmsg.Put4(size) && m[8..12] == Cmsg.Put4(n);
    Cmsg.GetPutLittle(0, size);
    Cmsg.GetPutLittle(0, n);
  }

  lemma InBuffer(buffer: Buffer, message: seq<byte>, beyond: Beyond, i: nat, j: nat)
    requires i <= j <= |message| <= BUFFER
    ensures (Received(buffer, Some(message)) + beyond)[i..j] == message[i..j]
  {
    assert message[..|message|] == message;
  }

  /** A type 0 request received is the request that was laid out, whatever the buffer held. */
  lemma Parse0(buffer: Buffer, a: Arrival, pad: seq<byte>, size: uint32, n: uint32, name: Name33)
    requires |pad| == 3 && a.message == Some(Laid0(pad, size, n, name))
    ensures Parse(Received(buffer, a.message), a) == Type0(size, n, name, a.drawn)
  {
    hide Cmsg.Put4, Cmsg.Get4, Received;
    var m := Laid0(pad, size, n, name);
    FrontAt(0, pad, size, n, name);
    InBuffer(buffer, m, a.beyond, 0, 48);
    InBuffer(buffer, m, a.beyond, 4, 8);
    InBuffer(buffer, m, a.beyond, 8, 12);
    InBuffer(buffer, m, a.beyond, 12, 48);
    assert (Received(buffer, a.message) + a.beyond)[0] == (Received(buffer, a.message) + a.beyond)[0..48][0];
  }

  /** And so is a type 6 request. */
  lemma Parse6(buffer: Buffer, a: Arrival, pad: seq<byte>, size: uint32, n: uint32, sid: Sid129)
    requires |pad| == 3 && a.message == Some(Laid6(pad, size, n, sid))
    ensures Parse(Received(buffer, a.message), a) == Type6(size, n, sid)
  {
    hide Cmsg.Put4, Cmsg.Get4, Received;
    var m := Laid6(pad, size, n, sid);
    FrontAt(6, pad, size, n, sid);
    InBuffer(buffer, m, a.beyond, 0, 144);
    InBuffer(buffer, m, a.beyond, 4, 8);
    InBuffer(buffer, m, a.beyond, 8, 12);
    InBuffer(buffer, m, a.beyond, 12, 144);
    assert (Received(buffer, a.message) + a.beyond)[0] == (Received(buffer, a.message) + a.beyond)[0..144][0];
  }

  lemma CutOffAt(buffer: Buffer, message: seq<byte>, beyond: Beyond)
    requires |message| == PATH_AT + 4097
    ensures var mem := Received(buffer, Some(message)) + beyond;
            && |mem| >= |message| && mem[..BUFFER] == message[..BUFFER]
            && (beyond[..|message| - BUFFER] == message[BUFFER..] ==> mem[..|message|] == message)
  {
  }

  /** Of a type 3 request everything is right but the end of the path, from its 3856th byte on,
      and that is right too exactly if it lies after the buffer anyway. */
  lemma Parse3(buffer: Buffer, a: Arrival, pad: seq<byte>, size: uint32, n: uint32, p: uint32, sid: seq<byte>,
               path: Path4097)
    requires |pad| == 3 && |sid| == 129 && a.message == Some(Laid3(pad, size, n, p, sid, path))
    ensures var r := Parse(Received(buffer, a.message), a);
            && r.Type3? && r.messageLength == size && r.sidLength == n && r.pathLength == p && r.file == a.file
            && r.sid[..129] == sid && r.path[..BUFFER - PATH_AT] == path[..BUFFER - PATH_AT]
            && (r.path == path <==> a.beyond[..PATH_AT + 4097 - BUFFER] == path[BUFFER - PATH_AT..])
  {
    hide Cmsg.Put4, Cmsg.Get4, Received, Laid3;
    var m := Laid3(pad, size, n, p, sid, path);
    Laid3At(pad, size, n, p, sid, path);
    CutOffAt(buffer, m, a.beyond);
    var mem := Received(buffer, a.message) + a.beyond;
    Prefixes(mem, m);
    PathEnd(mem, a.beyond, m, path);
  }

  lemma Laid3At(pad: seq<byte>, size: uint32, n: uint32, p: uint32, sid: seq<byte>, path: Path4097)
    requires |pad| == 3 && |sid| == 129
    ensures var m := Laid3(pad, size, n, p, sid, path);
            && |m| == PATH_AT + 4097 && m[0] == 3 && m[16..145] == sid && m[PATH_AT..] == path
            && Cmsg.Get4(m[4..8]) == size && Cmsg.Get4(m[8..12]) == n && Cmsg.Get4(m[12..16]) == p
  {
    hide Cmsg.Put4, Cmsg.Get4;
    var m, rest := Laid3(pad, size, n, p, sid, path), Cmsg.Put4(p) + sid + path;
    assert m == Front(3, pad, size) + Cmsg.Put4(n) + rest;
    FrontAt(3, pad, size, n, rest);
    Cmsg.GetPutLittle(0, p);
    assert rest[0..4] == Cmsg.Put4(p) && rest[4..133] == sid && rest[133..] == path;
    assert m[12..16] == m[12..][0..4] && m[16..145] == m[12..][4..133] && m[145..] == m[12..][133..];
  }

  lemma Prefixes(mem: seq<byte>, m: seq<byte>)
    requires |mem| == SIZEOF_TYPE3 && |m| == PATH_AT + 4097 && mem[..BUFFER] == m[..BUFFER]
    ensures mem[0] == m[0] && mem[4..8] == m[4..8] && mem[8..12] == m[8..12] && mem[12..16] == m[12..16]
    ensures mem[16..148][..129] == m[16..145] && mem[PATH_AT..BUFFER] == m[PATH_AT..BUFFER]
  {
    assert forall i :: 0 <= i < BUFFER ==> mem[i] == mem[..BUFFER][i] == m[i];
  }

  lemma PathEnd(mem: seq<byte>, beyond: Beyond, m: seq<byte>, path: Path4097)
    requires |mem| == SIZEOF_TYPE3 && |m| == PATH_AT + 4097 && m[PATH_AT..] == path && mem[BUFFER..] == beyond
    requires mem[PATH_AT..BUFFER] == m[PATH_AT..BUFFER]
    ensures var r := mem[PATH_AT..PATH_AT + 4097];
            && r[..BUFFER - PATH_AT] == path[..BUFFER - PATH_AT]
            && (r == path <==> beyond[..PATH_AT + 4097 - BUFFER] == path[BUFFER - PATH_AT..])
  {
    var r := mem[PATH_AT..PATH_AT + 4097];
    assert r[..BUFFER - PATH_AT] == mem[PATH_AT..BUFFER];
    assert m[PATH_AT..BUFFER] == m[PATH_AT..][..BUFFER - PATH_AT];
    assert r[BUFFER - PATH_AT..] == mem[BUFFER..][..PATH_AT + 4097 - BUFFER];
    assert r == r[..BUFFER - PATH_AT] + r[BUFFER - PATH_AT..];
    assert path == path[..BUFFER - PATH_AT] + path[BUFFER - PATH_AT..];
  }
}
