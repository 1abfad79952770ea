/** getd as the C code holds it: character arrays that strcpy and strncmp walk, a stdio stream,
    the reply buffer, and the handlers that update them (requestHandlers.c, requestVerify.c,
    main.c).  Every handler keeps the invariant of module Getd over the history so far. */
module Daemon {
  import opened Getd
  import opened Incoming
  import opened Util
  import opened Wire

  /** A stdio stream on a regular file. */
  class Stream {
    const contents: seq<byte>
    var pos: nat
    var eof: bool
    var open: bool

    constructor (contents: seq<byte>)
      ensures View() == File(contents, 0, false, true)
    {
      this.contents := contents;
      pos, eof, open := 0, false, true;
    }

    ghost function View(): File
      reads this
    {
      File(contents, pos, eof, open)
    }

    /** fread of n single bytes. */
    method Read(buf: array<byte>, n: nat) returns (count: nat)
      requires open && pos <= |contents| && n <= buf.Length
      modifies this`pos, this`eof, buf
      ensures count == Min(n, |contents| - old(pos)) && pos == old(pos) + count
      ensures buf[..count] == contents[old(pos)..pos]
      ensures eof == (old(eof) || count < n)
    {
      count := 0;
      while count < n && pos < |contents|
        invariant 0 <= count <= n && pos == old(pos) + count <= |contents|
        invariant buf[..count] == contents[old(pos)..pos]
        invariant eof == old(eof)
      {
        buf[count] := contents[pos];
        pos := pos + 1;
        count := count + 1;
      }
      if count < n { eof := true; }
    }

    /** getc; -1 is EOF. */
    method GetChar() returns (c: int)
      requires open && pos <= |contents|
      modifies this`pos, this`eof
      ensures if old(pos) < |contents| then c == contents[old(pos)] && pos == old(pos) + 1 && eof == old(eof)
              else c == -1 && pos == old(pos) && eof
    {
      if pos == |contents| { eof := true; return -1; }
      c := contents[pos];
      pos := pos + 1;
    }
  }

  /** strnlen, and how many bytes it looks at. */
  method StringLength(s: seq<byte>, n: nat) returns (len: nat, looked: nat)
    requires n <= |s|
    ensures len == StrNLen(s, n) && looked == if len < n then len + 1 else n
  {
    len, looked := 0, 0;
    while len < n
      invariant 0 <= len <= n && looked == len && forall i :: 0 <= i < len ==> s[i] != 0
    {
      looked := looked + 1;
      if s[len] == 0 { break; }
      len := len + 1;
    }
    LengthIs(s, n, len);
  }

  lemma LengthIs(s: seq<byte>, n: nat, len: nat)
    requires len <= n <= |s| && (forall i :: 0 <= i < len ==> s[i] != 0) && (len < n ==> s[len] == 0)
    ensures StrNLen(s, n) == len
  {
  }

  /** strncmp (a, b, n) == 0: stop at the first difference, or after a null. */
  method StringsEqual(a: seq<byte>, b: seq<byte>, n: nat) returns (equal: bool)
    requires n <= |a| && n <= |b|
    ensures equal == StrNEq(a, b, n)
  {
    var i := 0;
    while i < n
      invariant 0 <= i <= n && a[..i] == b[..i] && forall j :: 0 <= j < i ==> a[j] != 0
    {
      if a[i] != b[i] {
        DiffersAt(a, b, n, i);
        return false;
      }
      if a[i] == 0 {
        LengthIs(a, n, i);
        return true;
      }
      i := i + 1;
    }
    LengthIs(a, n, n);
    equal := true;
  }

  lemma DiffersAt(a: seq<byte>, b: seq<byte>, n: nat, i: nat)
    requires i < n <= |a| && n <= |b| && a[i] != b[i] && forall j :: 0 <= j < i ==> a[j] != 0
    ensures !StrNEq(a, b, n)
  {
    var k := StrNLen(a, n);
    if a[i] == 0 {
      LengthIs(a, n, i);
    } else if i < k {
      assert a[..k][i] == a[i];
    }
  }

  /** strcpy into an array: everything up to the null, if that is inside it. */
  method StringCopy(dst: array<byte>, src: seq<byte>) returns (overrun: bool)
    requires dst.Length <= |src|
    modifies dst
    ensures overrun == (StrNLen(src, dst.Length) == dst.Length)
    ensures var k := StrNLen(src, dst.Length); dst[..k] == src[..k] && (!overrun ==> dst[k] == 0)
    ensures var k := StrNLen(src, dst.Length); !overrun ==> dst[k + 1..] == old(dst[k + 1..])
  {
    var i := 0;
    while i < dst.Length
      invariant 0 <= i <= dst.Length && dst[..i] == src[..i] && dst[i..] == old(dst[i..])
      invariant forall j :: 0 <= j < i ==> src[j] != 0
    {
      dst[i] := src[i];
      if src[i] == 0 {
        LengthIs(src, dst.Length, i);
        return false;
      }
      i := i + 1;
    }
    LengthIs(src, dst.Length, dst.Length);
    return true;
  }

  class Server {
    var lastSent: byte
    var lastRecieved: byte
    const sessionId: array<byte>
    const userName: array<byte>
    var sendFile: Stream?
    /** contentBuffer of the reply being built. */
    const content: array<byte>
    /** What messages are received into. */
    const buffer: array<byte>
    var overrun: bool
    var outside: bool
    /** What has happened so far. */
    ghost var log: seq<Event>

    ghost function View(): State
      requires sessionId.Length == 129 && userName.Length == 33
      reads this, sessionId, userName, sendFile
    {
      State(lastSent, lastRecieved, sessionId[..], userName[..StrNLen(userName[..], 33)],
            if sendFile == null then None else Some(sendFile.View()), overrun, outside)
    }

    /** The arrays are as long as in requests.h and apart from each other. */
    ghost predicate Shaped()
    {
      && sessionId.Length == 129 && userName.Length == 33 && content.Length == PIECE && buffer.Length == BUFFER
      && sessionId != userName && sessionId != content && userName != content
      && buffer != sessionId && buffer != userName && buffer != content
    }

    /** What every turn keeps. */
    ghost predicate Valid()
      reads this, sessionId, userName, sendFile
    {
      Shaped() && Getd.Invariant(World(View(), log))
    }

    /** What main sets up; the session id, the user name and the buffer are whatever memory holds. */
    constructor ()
      ensures Valid() && Start(View()) && log == []
      ensures fresh(sessionId) && fresh(userName) && fresh(content) && fresh(buffer)
    {
      lastSent, lastRecieved, sendFile, overrun, outside, log := 5, 6, null, false, false, [];
      sessionId, userName, content, buffer := new byte[129], new byte[33], new byte[PIECE], new byte[BUFFER];
    }

    /** MessegeType4Builder: fread into the reply, and getc after a short piece. */
    method BuildType4() returns (r: Reply)
      requires Shaped() && sendFile != null && sendFile.open && sendFile.pos <= |sendFile.contents|
      modifies this`lastSent, sendFile, content
      ensures sendFile.pos == Min(old(sendFile.pos) + PIECE, |sendFile.contents|)
      ensures r == Type4(sendFile.contents[old(sendFile.pos)..sendFile.pos]) && lastSent == 4
      ensures sendFile.eof == (old(sendFile.eof) || sendFile.pos < old(sendFile.pos) + PIECE) && sendFile.open
    {
      lastSent := 4;
      var contentLength := sendFile.Read(content, PIECE);
      if contentLength != PIECE { var c := sendFile.GetChar(); }
      r := Type4(content[..contentLength]);
    }

    /** type0Ver. */
    method Type0Verify(m: Request) returns (retval: nat)
      requires m.Type0?
      ensures retval == Type0Ver(m)
    {
      retval := 0;
      var reallen, looked := StringLength(m.name, 32);
      if reallen != m.dnLength { retval := retval + TP0_LENMATCH; }
      if m.dnLength > 32 { retval := retval + TP0_DNLEN33P; }
      if m.messageLength != SIZEOF_TYPE0 { retval := retval + TP0_MESSLEN; }
    }

    /** type3Ver; `past` says that it has looked past the end of the buffer. */
    method Type3Verify(m: Request) returns (retval: nat, past: bool)
      requires m.Type3?
      ensures retval == Type3Ver(m) && past == ReadsOutside(m)
    {
      if m.messageLength != SIZEOF_TYPE3 { return 1, false; }
      var sidLength, looked := StringLength(m.sid, 128);
      if sidLength != m.sidLength { return 1, false; }
      var pathLength;
      pathLength, looked := StringLength(m.path, 4096);
      ShorterCount(m.path, BUFFER - PATH_AT, 4096);
      past := PATH_AT + looked > BUFFER;
      retval := if pathLength != m.pathLength then 1 else 0;
    }

    /** type6Ver, with its counting loop. */
    method Type6Verify(m: Request) returns (retval: nat)
      requires m.Type6? && Shaped()
      ensures retval == Type6Ver(m, View())
    {
      retval := 0;
      var endIndex := 0;
      var len, looked := StringLength(m.sid, 128);
      if len != m.sidLength { retval := retval + TP0_DNLEN33P; }
      var same := StringsEqual(sessionId[..], m.sid, if m.sidLength < 129 then m.sidLength else 129);
      if !same { retval := retval + SID_MISMATCH; }
      while m.sid[endIndex] != 0 && endIndex < 129
        invariant 0 <= endIndex <= 129 && forall i :: 0 <= i < endIndex ==> m.sid[i] != 0
        decreases 129 - endIndex
      {
        endIndex := endIndex + 1;
      }
      LengthIs(m.sid, 129, endIndex);
      if m.sidLength != endIndex { retval := retval + TP0_LENMATCH; }
      if m.sidLength > 128 { retval := retval + TP0_DNLEN33P; }
      if endIndex == 129 { retval := retval + TP0_NONULL; }
      if m.messageLength != SIZEOF_TYPE6 { retval := retval + TP0_MESSLEN; }
    }

    /** The loop that fills in a new session id from its end, and the null after it. */
    method DrawSessionId(drawn: Drawn)
      requires Shaped()
      modifies sessionId
      ensures sessionId[..] == drawn + [0]
    {
      var sessionIdLength := 127;
      while sessionIdLength >= 0
        invariant -1 <= sessionIdLength <= 127
        invariant forall i :: sessionIdLength < i < 128 ==> sessionId[i] == drawn[i]
      {
        sessionId[sessionIdLength] := drawn[sessionIdLength];
        sessionIdLength := sessionIdLength - 1;
      }
      sessionId[128] := 0;
    }

    /** MessageType0Handler, MessageType1Builder included. */
    method Handle0(m: Request) returns (r: Reply)
      requires m.Type0? && Shaped()
      modifies this`lastSent, this`overrun, sessionId, userName
      ensures (View(), r) == Type0Handler(m, old(View()))
    {
      var ver := Type0Verify(m);
      if lastSent != 5 && lastSent != 2 { return Type2("1 session at a time"); }
      if ver != 0 { lastSent := 2; return Type2("Corrupt Type 0 Message"); }
      var past := StringCopy(userName, m.name[..33]);
      NameStored(userName[..], m.name);
      overrun := overrun || past;
      DrawSessionId(m.drawn);
      lastSent := 1;
      return Type1;
    }

    /** MessageType3Handler. */
    method Handle3(m: Request) returns (r: Reply)
      requires m.Type3? && Shaped()
      modifies this`lastSent, this`sendFile, this`outside, content
      ensures (View(), r) == Type3Handler(m, old(View()))
      ensures sendFile == old(sendFile) || sendFile == null || fresh(sendFile)
    {
      hide Type3Ver, ReadsOutside, StrNEq;
      var ver, past := Type3Verify(m);
      outside := outside || past;
      if ver != 0 { lastSent := 2; return Type2("Corrupt Type 3 Message"); }
      var same := StringsEqual(m.sid, sessionId[..], 128);
      if !same { lastSent := 2; return Type2("One session at a time"); }
      if lastSent != 1 { lastSent := 2; return Type2("Invalid State"); }
      match m.file {
        case Failed =>
          sendFile, lastSent := null, 2;
          return Type2("Error Opening File");
        case NotRegular(contents) =>
          sendFile := new Stream(contents);
          lastSent := 2;
          return Type2("Invalid File Type");
        case Regular(contents) =>
          sendFile := new Stream(contents);
          r := BuildType4();
      }
    }

    /** MessageType6Handler. */
    method Handle6(m: Request) returns (r: Reply)
      requires m.Type6? && Shaped() && (lastSent == 4 ==> Usable(View()))
      modifies this`lastSent, this`lastRecieved, sendFile, content
      ensures (View(), r) == Type6Handler(m, old(View()))
    {
      hide Type6Ver, StrNEq, StrNLen;
      var same := StringsEqual(sessionId[..], m.sid, 129);
      if !same { return Type2("One session at a time"); }
      lastRecieved := 6;
      assert |sessionId[..]| == 129;
      var ver := Type6Verify(m);
      if ver != 0 { lastSent := 2; return Type2("Corrupt Type 6 Messege"); }
      if lastSent == 4 {
        if sendFile.eof {
          sendFile.open := false;
          lastSent := 5;
          return Type5;
        }
        r := BuildType4();
      } else if lastSent != 5 {
        lastSent := 2;
        return Type2("Invalid State");
      } else {
        return Silence;
      }
    }

    /** The switch of main's loop. */
    method Dispatch(m: Request) returns (r: Reply)
      requires Shaped() && (lastSent == 4 ==> Usable(View()))
      modifies this, sessionId, userName, content, sendFile
      ensures (View(), r) == Handle(m, old(View())) && log == old(log)
      ensures sendFile == old(sendFile) || sendFile == null || fresh(sendFile)
    {
      hide Type0Handler, Type3Handler, Type6Handler, StrNLen;
      match m {
        case Type0(_, _, _, _) => r := Handle0(m);
        case Type3(_, _, _, _, _, _) => r := Handle3(m);
        case Type6(_, _, _) => r := Handle6(m);
        case Other(_) => r := Type2("Invalid Message Type");
      }
    }

    /** One turn of main's loop: whatever the request, the stream is used only while it is open,
        the history keeps telling the truth, and the state is that of the specification. */
    method Turn(m: Request) returns (r: Reply)
      requires Valid()
      modifies this, sessionId, userName, content, sendFile
      ensures Valid() && World(View(), log) == Step(old(World(View(), log)), m) && r == Handle(m, old(View())).1
      ensures sendFile == old(sendFile) || sendFile == null || fresh(sendFile)
    {
      ghost var w := World(View(), log);
      InStepUsable(w);
      Getd.StepKeeps(w, m);
      hide Getd.Invariant, Handle, StrNLen;
      r := Dispatch(m);
      ghost var noted := if m.Type3? && r.Type4? then [Accepted(m.file.contents)] else [];
      log := log + noted + [Sent(r)];
      assert World(View(), log) == Step(w, m);
    }

    /** nn_recv: the message over the start of the buffer, as far as that goes. */
    method Receive(message: Option<seq<byte>>)
      requires Shaped()
      modifies buffer
      ensures buffer[..] == Received(old(buffer[..]), message)
      ensures forall i :: 0 <= i < BUFFER ==>
                buffer[i] == if message.Some? && i < |message.value| then message.value[i] else old(buffer[i])
    {
      if message.None? { return; }
      var i := 0;
      while i < |message.value| && i < BUFFER
        invariant 0 <= i <= Min(|message.value|, BUFFER)
        invariant forall k :: 0 <= k < BUFFER ==> buffer[k] == if k < i then message.value[k] else old(buffer[k])
      {
        buffer[i] := message.value[i];
        i := i + 1;
      }
      assert buffer[..] == message.value[..i] + old(buffer[..])[i..];
    }

    /** One turn of main's loop, from the receipt of a message. */
    method Listen(a: Arrival) returns (r: Reply)
      requires Valid()
      modifies this, sessionId, userName, content, buffer, sendFile
      ensures var b := Received(old(buffer[..]), a.message);
              Valid() && buffer[..] == b && World(View(), log) == Step(old(World(View(), log)), Parse(b, a))
      ensures sendFile == old(sendFile) || sendFile == null || fresh(sendFile)
    {
      hide Getd.Invariant, Handle, Step, StrNLen, Received, Parse;
      ghost var w := World(View(), log);
      InStepUsable(w);
      Receive(a.message);
      assert World(View(), log) == w;
      r := Turn(Parse(buffer[..], a));
    }

    /** main's loop, over whatever arrives. */
    method Serve(arrivals: seq<Arrival>)
      requires Valid()
      modifies this, sessionId, userName, content, buffer, sendFile
      ensures Valid() && Getd.ValidRun(old(World(View(), log)), Requests(old(buffer[..]), arrivals))
      ensures World(View(), log) == Getd.Run(old(World(View(), log)), Requests(old(buffer[..]), arrivals))
    {
      hide Getd.Invariant, Getd.ValidRun, Getd.Run, Followed, Step, Handle, View;
      hide Requests, BufferAfter, Received, Parse;
      ghost var was, b := World(View(), log), buffer[..];
      ghost var requests := Requests(b, arrivals);
      NothingFollowed(was, requests);
      NothingAfter(b, arrivals);
      var i := 0;
      while i < |arrivals|
        invariant 0 <= i <= |arrivals| && Valid() && Followed(was, requests, i, World(View(), log))
        invariant buffer[..] == BufferAfter(b, arrivals[..i])
        invariant sendFile == old(sendFile) || sendFile == null || fresh(sendFile)
      {
        FollowedOn(was, requests, i, World(View(), log));
        RequestAt(b, arrivals, i);
        var r := Listen(arrivals[i]);
        i := i + 1;
      }
      AllFollowed(was, requests, World(View(), log));
    }
  }

  /** The run over the first i requests ends in w'. */
  ghost predicate Followed(w: World, requests: seq<Request>, i: nat, w': World) {
    && i <= |requests| && Getd.Invariant(w)
    && Getd.ValidRun(w, requests[..i]) && w' == Getd.Run(w, requests[..i])
  }

  lemma NothingFollowed(w: World, requests: seq<Request>)
    requires Getd.Invariant(w)
    ensures Followed(w, requests, 0, w)
  {
  }

  lemma FollowedOn(w: World, requests: seq<Request>, i: nat, v: World)
    requires i < |requests| && Followed(w, requests, i, v)
    ensures v.s.lastSent == 4 ==> Usable(v.s)
    ensures Followed(w, requests, i + 1, Step(v, requests[i]))
  {
    hide Getd.Invariant, Step, Usable, Getd.Run, Getd.ValidRun;
    RunOneMore(w, requests[..i], requests[i]);
    assert requests[..i + 1] == requests[..i] + [requests[i]];
  }

  lemma AllFollowed(w: World, requests: seq<Request>, v: World)
    requires Followed(w, requests, |requests|, v)
    ensures Getd.ValidRun(w, requests) && v == Getd.Run(w, requests)
  {
    assert requests[..|requests|] == requests;
  }

  lemma NameStored(stored: seq<byte>, name: Name33)
    requires |stored| == 33
    requires var k := StrNLen(name[..33], 33); stored[..k] == name[..33][..k] && (k < 33 ==> stored[k] == 0)
    ensures StrNLen(name[..33], 33) == StrNLen(name, 33)
    ensures stored[..StrNLen(stored, 33)] == name[..StrNLen(name, 33)]
  {
    var k := StrNLen(name[..33], 33);
    LengthIs(name, 33, k);
    assert forall i :: 0 <= i < k ==> stored[i] == stored[..k][i];
    LengthIs(stored, 33, k);
  }

  lemma {:induction false} RunOneMore(w: World, requests: seq<Request>, m: Request)
    requires Getd.Invariant(w)
    ensures Getd.ValidRun(w, requests + [m]) && Getd.ValidRun(w, requests)
    ensures (Getd.Run(w, requests).s.lastSent == 4 ==> Usable(Getd.Run(w, requests).s))
    ensures Getd.Run(w, requests + [m]) == Step(Getd.Run(w, requests), m)
    decreases |requests|
  {
    Getd.RunKeeps(w, requests + [m]);
    Getd.RunKeeps(w, requests);
    InStepUsable(Getd.Run(w, requests));
    if requests == [] {
      assert [] + [m] == [m] && [m][1..] == [];
    } else {
      Getd.StepKeeps(w, requests[0]);
      RunOneMore(Step(w, requests[0]), requests[1..], m);
      assert (requests + [m])[1..] == requests[1..] + [m];
    }
  }
}
