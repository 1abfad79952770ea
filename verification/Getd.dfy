/** The getd transfer protocol (main.c, requestHandlers.c, requestVerify.c, requests.h).

    A request is the fields its handler reads; the session id drawn for a type 0 request and
    what opening the path of a type 3 request gives are parameters.  The file is a byte
    sequence with a position and an end-of-file flag. */
module Getd {
  import opened Util
  import opened Wire

  const PIECE := 4096
  /** main's receive buffer, and where the path of a type 3 request starts in it. */
  const BUFFER := 4000
  const PATH_AT := 145
  const SIZEOF_TYPE0 := 48
  const SIZEOF_TYPE3 := 4244
  const SIZEOF_TYPE6 := 144

  const TP0_LENMATCH := 1
  const TP0_DNLEN33P := 2
  const TP0_NONULL := 4
  const TP0_MESSLEN := 8
  const SID_MISMATCH := 16

  /** A char array as it lies in memory: the padding of its struct comes after it. */
  type Name33 = s: seq<byte> | |s| == 36 witness seq(36, i => 0)
  type Sid129 = s: seq<byte> | |s| == 132 witness seq(132, i => 0)
  type Path4097 = s: seq<byte> | |s| == 4097 witness seq(4097, i => 0)

  /** The session id of the state, and the 128 characters drawn for a new one. */
  type SessionId = s: seq<byte> | |s| == 129 witness seq(129, i => 0)
  type Drawn = s: seq<byte> | |s| == 128 witness seq(128, i => 0)

  /** strnlen: the first null among the first n bytes, else n. */
  function StrNLen(s: seq<byte>, n: nat): (r: nat)
    requires n <= |s|
    ensures r <= n && (r < n ==> s[r] == 0) && forall i :: 0 <= i < r ==> s[i] != 0
  {
    if n == 0 then 0
    else
      var k := StrNLen(s, n - 1);
      if k < n - 1 || s[n - 1] == 0 then k else n
  }

  /** strncmp (a, b, n) == 0: the same bytes up to the first null, or n of them. */
  predicate StrNEq(a: seq<byte>, b: seq<byte>, n: nat)
    requires n <= |a| && n <= |b|
  {
    var k := StrNLen(a, n);
    a[..k] == b[..k] && (k < n ==> b[k] == 0)
  }

  /** What opening a path gives: no stream, a stream on something else, or a regular file. */
  datatype Opened = Failed | NotRegular(contents: seq<byte>) | Regular(contents: seq<byte>)

  datatype Request =
    | Type0(messageLength: uint32, dnLength: uint32, name: Name33, drawn: Drawn)
    | Type3(messageLength: uint32, sidLength: uint32, pathLength: uint32, sid: Sid129, path: Path4097, file: Opened)
    | Type6(messageLength: uint32, sidLength: uint32, sid: Sid129)
    | Other(messageType: byte)

  datatype Reply = Silence | Type1 | Type2(text: string) | Type4(content: seq<byte>) | Type5

  datatype File = File(contents: seq<byte>, pos: nat, eof: bool, open: bool)

  /** State of requests.h, with the static sendFile.  The user name is the string stored in its
      33 bytes; overrun says that a copy has gone past them, after which nothing is promised;
      outside says that a path was looked for past the end of main's receive buffer. */
  datatype State = State(
    lastSent: byte,
    lastRecieved: byte,
    sid: SessionId,
    userName: seq<byte>,
    file: Option<File>,
    overrun: bool,
    outside: bool)

  /** What main sets up; the session id is whatever memory holds. */
  predicate Start(s: State) { s.lastSent == 5 && s.lastRecieved == 6 && s.file == None && !s.overrun && !s.outside }

  /** type0Ver, type3Ver and type6Ver: 0 means well formed. */
  function Type0Ver(m: Request): nat
    requires m.Type0?
  {
    (if StrNLen(m.name, 32) != m.dnLength then TP0_LENMATCH else 0)
    + (if m.dnLength > 32 then TP0_DNLEN33P else 0)
    + (if m.messageLength != SIZEOF_TYPE0 then TP0_MESSLEN else 0)
  }

  function Type3Ver(m: Request): nat
    requires m.Type3?
  {
    if m.messageLength != SIZEOF_TYPE3 then 1
    else if StrNLen(m.sid, 128) != m.sidLength then 1
    else if StrNLen(m.path, 4096) != m.pathLength then 1
    else 0
  }

  /** type3Ver looks for the end of the path, and does not find it inside the buffer. */
  predicate ReadsOutside(m: Request)
    requires m.Type3?
  {
    && m.messageLength == SIZEOF_TYPE3 && StrNLen(m.sid, 128) == m.sidLength
    && StrNLen(m.path, BUFFER - PATH_AT) == BUFFER - PATH_AT
  }

  /** Whether strncmp over sidLength bytes finds the ids different: the stored id ends at its
      byte 128 at the latest, so the comparison never passes that. */
  predicate SidDiffers(s: State, sid: Sid129, n: uint32) { !StrNEq(s.sid, sid, if n < 129 then n else 129) }

  function Type6Ver(m: Request, s: State): nat
    requires m.Type6?
  {
    var endIndex := StrNLen(m.sid, 129);
    (if StrNLen(m.sid, 128) != m.sidLength then TP0_DNLEN33P else 0)
    + (if SidDiffers(s, m.sid, m.sidLength) then SID_MISMATCH else 0)
    + (if m.sidLength != endIndex then TP0_LENMATCH else 0)
    + (if m.sidLength > 128 then TP0_DNLEN33P else 0)
    + (if endIndex == 129 then TP0_NONULL else 0)
    + (if m.messageLength != SIZEOF_TYPE6 then TP0_MESSLEN else 0)
  }

  /** fread of a piece, and the getc that follows a short one. */
  function Content(f: File): seq<byte>
    requires f.pos <= |f.contents|
  {
    f.contents[f.pos..Min(f.pos + PIECE, |f.contents|)]
  }

  function AfterPiece(f: File): File
    requires f.pos <= |f.contents|
  {
    f.(pos := f.pos + |Content(f)|, eof := f.eof || |Content(f)| < PIECE)
  }

  function Error(s: State, text: string): (State, Reply) { (s.(lastSent := 2), Type2(text)) }

  function Type4Builder(s: State, f: File): (State, Reply)
    requires f.pos <= |f.contents|
  {
    (s.(lastSent := 4, file := Some(AfterPiece(f))), Type4(Content(f)))
  }

  /** The strcpy of a name that has no null in its first 33 bytes leaves userName. */
  predicate NameOverruns(m: Request)
    requires m.Type0?
  {
    StrNLen(m.name, 33) == 33
  }

  function Type0Handler(m: Request, s: State): (State, Reply)
    requires m.Type0?
  {
    if s.lastSent != 5 && s.lastSent != 2 then (s, Type2("1 session at a time"))
    else if Type0Ver(m) != 0 then Error(s, "Corrupt Type 0 Message")
    else
      var name := m.name[..StrNLen(m.name, 33)];
      (s.(lastSent := 1, sid := m.drawn + [0], userName := name, overrun := s.overrun || NameOverruns(m)), Type1)
  }

  function Type3Handler(m: Request, was: State): (State, Reply)
    requires m.Type3?
  {
    var s := was.(outside := was.outside || ReadsOutside(m));
    if Type3Ver(m) != 0 then Error(s, "Corrupt Type 3 Message")
    else if !StrNEq(m.sid, s.sid, 128) then Error(s, "One session at a time")
    else if s.lastSent != 1 then Error(s, "Invalid State")
    else match m.file
      case Failed => Error(s.(file := None), "Error Opening File")
      case NotRegular(contents) => Error(s.(file := Some(File(contents, 0, false, true))), "Invalid File Type")
      case Regular(contents) => Type4Builder(s, File(contents, 0, false, true))
  }

  /** The stream is open and inside its file, as feof, fread and fclose need it. */
  predicate Usable(s: State) { s.file.Some? && s.file.value.open && s.file.value.pos <= |s.file.value.contents| }

  function Type6Handler(m: Request, s: State): (State, Reply)
    requires m.Type6? && (s.lastSent == 4 ==> Usable(s))
  {
    if !StrNEq(s.sid, m.sid, 129) then (s, Type2("One session at a time"))
    else
      var t := s.(lastRecieved := 6);
      if Type6Ver(m, t) != 0 then Error(t, "Corrupt Type 6 Messege")
      else if t.lastSent == 4 then
        var f := t.file.value;
        if f.eof then (t.(lastSent := 5, file := Some(f.(open := false))), Type5) else Type4Builder(t, f)
      else if t.lastSent != 5 then Error(t, "Invalid State")
      else (t, Silence)
  }

  /** One turn of main's loop. */
  function Handle(m: Request, s: State): (State, Reply)
    requires s.lastSent == 4 ==> Usable(s)
  {
    match m
    case Type0(_, _, _, _) => Type0Handler(m, s)
    case Type3(_, _, _, _, _, _) => Type3Handler(m, s)
    case Type6(_, _, _) => Type6Handler(m, s)
    case Other(_) => (s, Type2("Invalid Message Type"))
  }

  /** What happened: a file accepted for transfer, and the replies. */
  datatype Event = Accepted(contents: seq<byte>) | Sent(reply: Reply)

  /** Run and its history: an accepted type 3 request is noted before its reply. */
  datatype World = World(s: State, log: seq<Event>)

  function Step(w: World, m: Request): World
    requires w.s.lastSent == 4 ==> Usable(w.s)
  {
    var (s, r) := Handle(m, w.s);
    World(s, w.log + (if m.Type3? && r.Type4? then [Accepted(m.file.contents)] else []) + [Sent(r)])
  }

  /** The last file accepted, the bytes sent for it, and in how many type 4 replies. */
  datatype Transfer = Transfer(contents: seq<byte>, stream: seq<byte>, pieces: nat)

  function Scan(log: seq<Event>): Option<Transfer> {
    if log == [] then None
    else match log[|log| - 1]
      case Accepted(contents) => Some(Transfer(contents, [], 0))
      case Sent(Type4(piece)) =>
        var t := Scan(log[..|log| - 1]);
        if t.None? then None else Some(t.value.(stream := t.value.stream + piece, pieces := t.value.pieces + 1))
      case _ => Scan(log[..|log| - 1])
  }

  lemma ScanStep(log: seq<Event>, e: Event)
    ensures Scan(log + [e]) ==
            match e
            case Accepted(contents) => Some(Transfer(contents, [], 0))
            case Sent(Type4(piece)) =>
              var t := Scan(log);
              if t.None? then None else Some(t.value.(stream := t.value.stream + piece, pieces := t.value.pieces + 1))
            case _ => Scan(log)
  {
    assert (log + [e])[..|log|] == log;
  }

  /** How far the file of the transfer has been read. */
  ghost predicate InStep(f: File, t: Transfer) {
    && f.open && f.contents == t.contents && f.pos <= |f.contents| && t.stream == f.contents[..f.pos]
    && (if f.eof then f.pos == |f.contents| && t.pieces == |f.contents| / PIECE + 1
        else f.pos == PIECE * t.pieces)
  }

  ghost predicate Invariant(w: World) {
    && (Scan(w.log).Some? ==> Scan(w.log).value.stream <= Scan(w.log).value.contents)
    && (w.s.lastSent == 4 ==> w.s.file.Some? && Scan(w.log).Some? && InStep(w.s.file.value, Scan(w.log).value))
    && w.s.lastSent in {1, 2, 4, 5}
    && EndsWhole(w.log)
  }

  /** The whole file has been sent, in |file| / 4096 + 1 pieces. */
  ghost predicate Whole(t: Option<Transfer>) {
    t.Some? && t.value.stream == t.value.contents && t.value.pieces == |t.value.contents| / PIECE + 1
  }

  /** Every type 5 reply so far came when the whole file had been sent. */
  ghost predicate EndsWhole(log: seq<Event>) {
    forall i :: 0 <= i < |log| && log[i] == Sent(Type5) ==> Whole(Scan(log[..i]))
  }

  lemma EndsWholeStep(log: seq<Event>, e: Event)
    requires EndsWhole(log) && (e == Sent(Type5) ==> Whole(Scan(log)))
    ensures EndsWhole(log + [e])
  {
    forall i | 0 <= i < |log + [e]| && (log + [e])[i] == Sent(Type5) ensures Whole(Scan((log + [e])[..i])) {
      assert (log + [e])[..i] == if i < |log| then log[..i] else log;
    }
  }

  /** One more piece keeps the transfer in step; the short one, possibly empty, is the last. */
  lemma PieceInStep(f: File, t: Transfer)
    requires InStep(f, t) && !f.eof
    ensures InStep(AfterPiece(f), t.(stream := t.stream + Content(f), pieces := t.pieces + 1))
    ensures t.stream + Content(f) <= t.contents
  {
    assert t.stream + Content(f) == f.contents[..f.pos + |Content(f)|];
    if |Content(f)| < PIECE { LastPiece(|f.contents|, t.pieces); }
  }

  lemma LastPiece(size: nat, pieces: nat)
    requires PIECE * pieces <= size < PIECE * pieces + PIECE
    ensures size / PIECE == pieces
  {
  }

  lemma StepKeeps(w: World, m: Request)
    requires Invariant(w)
    ensures Invariant(Step(w, m))
  {
    hide Type0Ver, Type3Ver, Type6Ver, StrNEq, Scan, InStep, Content, AfterPiece, EndsWhole, Whole;
    InStepUsable(w);
    var r := Handle(m, w.s).1;
    if m.Type3? && r.Type4? {
      var c := m.file.contents;
      var f := File(c, 0, false, true);
      var log := w.log + [Accepted(c)];
      ScanStep(w.log, Accepted(c));
      ScanStep(log, Sent(r));
      EndsWholeStep(w.log, Accepted(c));
      EndsWholeStep(log, Sent(r));
      FirstInStep(c);
      PieceInStep(f, Transfer(c, [], 0));
    } else {
      ScanStep(w.log, Sent(r));
      assert w.log + [] + [Sent(r)] == w.log + [Sent(r)];
      if r.Type4? { PieceInStep(w.s.file.value, Scan(w.log).value); }
      if r.Type5? { EofIsWhole(w.s.file.value, Scan(w.log).value); }
      EndsWholeStep(w.log, Sent(r));
    }
  }

  lemma EofIsWhole(f: File, t: Transfer)
    requires InStep(f, t) && f.eof
    ensures Whole(Some(t))
  {
  }

  lemma FirstInStep(c: seq<byte>)
    ensures InStep(File(c, 0, false, true), Transfer(c, [], 0))
  {
  }

  lemma InStepUsable(w: World)
    requires Invariant(w)
    ensures w.s.lastSent == 4 ==> Usable(w.s)
  {
  }

  /** The daemon never reads or closes a stream that is not open. */
  predicate ValidRun(w: World, requests: seq<Request>)
    decreases |requests|
  {
    requests == []
    || ((w.s.lastSent == 4 ==> Usable(w.s)) && ValidRun(Step(w, requests[0]), requests[1..]))
  }

  function Run(w: World, requests: seq<Request>): World
    requires ValidRun(w, requests)
    decreases |requests|
  {
    if requests == [] then w else Run(Step(w, requests[0]), requests[1..])
  }

  lemma {:induction false} RunKeeps(w: World, requests: seq<Request>)
    requires Invariant(w)
    ensures ValidRun(w, requests) && Invariant(Run(w, requests))
    decreases |requests|
  {
    InStepUsable(w);
    if requests == [] {
    } else {
      StepKeeps(w, requests[0]);
      RunKeeps(Step(w, requests[0]), requests[1..]);
    }
  }

  /** Some request is accepted whose name is copied past the end of userName. */
  predicate SomeOverrun(w: World, requests: seq<Request>)
    requires ValidRun(w, requests)
    decreases |requests|
  {
    requests != []
    && ((requests[0].Type0? && Handle(requests[0], w.s).1 == Type1 && NameOverruns(requests[0]))
        || SomeOverrun(Step(w, requests[0]), requests[1..]))
  }

  /** Exactly when a run overruns its state. */
  lemma {:induction false} OverrunsIff(w: World, requests: seq<Request>)
    requires ValidRun(w, requests)
    ensures Run(w, requests).s.overrun <==> w.s.overrun || SomeOverrun(w, requests)
    decreases |requests|
  {
    hide Type0Ver, Type3Ver, Type6Ver, StrNEq, NameOverruns, Content;
    if requests == [] {
    } else {
      OverrunsIff(Step(w, requests[0]), requests[1..]);
    }
  }

  /** What a caller can check beforehand: of the names that pass type0Ver just those of full
      length without a null in byte 32 overrun. */
  lemma FitsIff(m: Request)
    requires m.Type0? && Type0Ver(m) == 0
    ensures !NameOverruns(m) <==> m.dnLength < 32 || m.name[32] == 0
  {
    assert StrNLen(m.name, 33) == if StrNLen(m.name, 32) < 32 || m.name[32] == 0 then StrNLen(m.name, 32) else 33;
  }

  /** And such a name passes: 36 letters A with a length of 32. */
  lemma NameCanOverrun(drawn: Drawn)
    ensures var m := Type0(SIZEOF_TYPE0, 32, seq(36, i => 65), drawn); Type0Ver(m) == 0 && NameOverruns(m)
  {
    NoNulls(seq(36, i => 65), 32);
    NoNulls(seq(36, i => 65), 33);
  }

  lemma NoNulls(s: seq<byte>, n: nat)
    requires n <= |s| && forall i :: 0 <= i < n ==> s[i] != 0
    ensures StrNLen(s, n) == n
  {
  }

  /** Some type 3 request is looked at past the end of the buffer. */
  predicate SomeOutside(requests: seq<Request>) { exists m: Request :: m in requests && m.Type3? && ReadsOutside(m) }

  /** Exactly when a run looks at memory that nn_recv does not fill. */
  lemma {:induction false} OutsideIff(w: World, requests: seq<Request>)
    requires ValidRun(w, requests)
    ensures Run(w, requests).s.outside <==> w.s.outside || SomeOutside(requests)
    decreases |requests|
  {
    hide Type0Ver, Type3Ver, Type6Ver, StrNEq, ReadsOutside, Content;
    if requests == [] {
    } else {
      assert requests == [requests[0]] + requests[1..];
      OutsideIff(Step(w, requests[0]), requests[1..]);
    }
  }

  /** What a caller can check beforehand: of the paths that pass type3Ver just those counted
      as 3855 bytes or more. */
  lemma ReachesIff(m: Request)
    requires m.Type3? && Type3Ver(m) == 0
    ensures ReadsOutside(m) <==> m.pathLength >= BUFFER - PATH_AT
  {
    ShorterCount(m.path, BUFFER - PATH_AT, 4096);
  }

  lemma {:induction false} ShorterCount(s: seq<byte>, n: nat, m: nat)
    requires n <= m <= |s|
    ensures StrNLen(s, n) == if StrNLen(s, m) < n then StrNLen(s, m) else n
  {
    if n == m {
    } else {
      ShorterCount(s, n, m - 1);
    }
  }

  /** And such a path passes: 4096 letters A, counted. */
  lemma PathCanReach(sid: Sid129, file: Opened)
    ensures var m := Type3(SIZEOF_TYPE3, StrNLen(sid, 128), 4096, sid, seq(4097, i => 65), file);
            Type3Ver(m) == 0 && ReadsOutside(m)
  {
    NoNulls(seq(4097, i => 65), 4096);
    NoNulls(seq(4097, i => 65), BUFFER - PATH_AT);
  }

  /** For any requests whatever, in any order, that do not overrun the state: the stream is open
      whenever it is used; what has been sent of the last accepted file is a prefix of it; a
      type 5 reply comes only when that prefix is the whole file, after exactly
      |file| / 4096 + 1 pieces. */
  lemma TransferIsExact(s: State, requests: seq<Request>)
    requires Start(s)
    ensures ValidRun(World(s, []), requests)
    ensures var w := Run(World(s, []), requests);
            && (w.s.overrun <==> SomeOverrun(World(s, []), requests))
            && (w.s.outside <==> SomeOutside(requests))
            && (!w.s.overrun ==>
                  && (Scan(w.log).Some? ==> Scan(w.log).value.stream <= Scan(w.log).value.contents)
                  && forall i :: 0 <= i < |w.log| && w.log[i] == Sent(Type5) ==> Whole(Scan(w.log[..i])))
  {
    RunKeeps(World(s, []), requests);
    OverrunsIff(World(s, []), requests);
    OutsideIff(World(s, []), requests);
  }

  /** Names that fit, by the test above, never overrun. */
  lemma {:induction false} FittingNames(w: World, requests: seq<Request>)
    requires ValidRun(w, requests)
    requires forall m: Request :: m in requests && m.Type0? && Type0Ver(m) == 0 ==> m.dnLength < 32 || m.name[32] == 0
    ensures !SomeOverrun(w, requests)
    decreases |requests|
  {
    hide Type3Ver, Type6Ver, StrNEq, Content;
    if requests == [] {
    } else {
      var m := requests[0];
      if m.Type0? && Type0Ver(m) == 0 { FitsIff(m); }
      FittingNames(Step(w, m), requests[1..]);
    }
  }

  /** While a file is being sent, a request that is refused but leaves the session at 4 leaves
      everything as it was. */
  lemma RefusalLosesNothing(m: Request, s: State)
    requires s.lastSent == 4 && Usable(s)
    ensures var (t, r) := Handle(m, s); r.Type2? && t.lastSent == 4 ==> t == s
  {
  }

  /** An acknowledgement in order for the session. */
  predicate GoodAck(m: Request, s: State) {
    m.Type6? && StrNEq(s.sid, m.sid, 129) && Type6Ver(m, s) == 0
  }

  /** How many acknowledgements are still to come: one for each piece sent or to be sent. */
  function AcksLeft(t: Transfer): nat { Max0(|t.contents| / PIECE + 2 - t.pieces) }

  function Max0(n: int): nat { if n < 0 then 0 else n }

  /** A good acknowledgement is answered with the next piece, or at the end with type 5. */
  lemma AckStep(w: World, m: Request)
    requires Invariant(w) && w.s.lastSent == 4 && GoodAck(m, w.s)
    ensures Invariant(Step(w, m))
    ensures var w' := Step(w, m);
            var t := Scan(w.log).value;
            if w.s.file.value.eof
            then AcksLeft(t) == 1 && w'.s.lastSent == 5 && w'.log == w.log + [Sent(Type5)]
            else w'.s.lastSent == 4 && GoodAck(m, w'.s) && AcksLeft(t) >= 2
                 && Scan(w'.log).Some? && AcksLeft(Scan(w'.log).value) == AcksLeft(t) - 1
  {
    InStepUsable(w);
    StepKeeps(w, m);
    var f, t := w.s.file.value, Scan(w.log).value;
    SameVer(m, w.s, Step(w, m).s);
    assert w.log + [] == w.log;
    ScanStep(w.log, Sent(Handle(m, w.s).1));
    if !f.eof { PiecesLeft(|t.contents|, t.pieces); }
  }

  lemma PiecesLeft(size: nat, pieces: nat)
    requires PIECE * pieces <= size
    ensures pieces <= size / PIECE
  {
  }

  /** The checks of an acknowledgement look at nothing in the state but the session id. */
  lemma SameVer(m: Request, s: State, t: State)
    requires m.Type6? && t.sid == s.sid
    ensures GoodAck(m, t) == GoodAck(m, s)
  {
  }

  /** Acknowledging every piece brings the type 5 reply, after one acknowledgement a piece. */
  lemma {:induction false} AcksFinish(w: World, m: Request)
    requires Invariant(w) && w.s.lastSent == 4 && GoodAck(m, w.s)
    ensures var acks := seq(AcksLeft(Scan(w.log).value), i => m);
            ValidRun(w, acks) && Run(w, acks).s.lastSent == 5
            && Run(w, acks).log != [] && Run(w, acks).log[|Run(w, acks).log| - 1] == Sent(Type5)
    decreases AcksLeft(Scan(w.log).value)
  {
    hide GoodAck, Scan, AcksLeft, Handle, InStep;
    var n := AcksLeft(Scan(w.log).value);
    var acks := seq(n, i => m);
    RunKeeps(w, acks);
    AckStep(w, m);
    assert acks[1..] == seq(n - 1, i => m);
    if w.s.file.value.eof {
      assert acks[1..] == [];
    } else {
      AcksFinish(Step(w, m), m);
    }
  }

  /** What the additive codes amount to. */
  lemma WellFormed0(m: Request)
    requires m.Type0?
    ensures Type0Ver(m) == 0 <==> m.messageLength == SIZEOF_TYPE0 && m.dnLength == StrNLen(m.name, 32)
  {
  }

  /** An acknowledgement passes all its checks exactly when its length is right, its session
      id is null-terminated, counted and not too long, and is the session's. */
  lemma WellFormed6(m: Request, s: State)
    requires m.Type6?
    ensures GoodAck(m, s) <==>
            && m.messageLength == SIZEOF_TYPE6 && m.sidLength == StrNLen(m.sid, 129) <= 128
            && StrNEq(s.sid, m.sid, 129)
  {
    ShorterLen(m.sid);
    if StrNEq(s.sid, m.sid, 129) {
      SameLen(s.sid, m.sid, 129);
      if m.sidLength == StrNLen(m.sid, 129) && m.sidLength <= 128 { ShorterEq(s.sid, m.sid, m.sidLength); }
    }
  }

  lemma ShorterLen(s: Sid129)
    ensures StrNLen(s, 128) == if StrNLen(s, 129) <= 128 then StrNLen(s, 129) else 128
  {
  }

  /** Equal strings have equal lengths. */
  lemma SameLen(a: seq<byte>, b: seq<byte>, n: nat)
    requires n <= |a| && n <= |b| && StrNEq(a, b, n)
    ensures StrNLen(a, n) == StrNLen(b, n)
  {
    var k := StrNLen(a, n);
    assert forall i :: 0 <= i < k ==> b[i] == b[..k][i] == a[i];
    assert k < n ==> b[k] == 0;
  }

  /** Strings of one length are equal over that length as soon as they are equal. */
  lemma ShorterEq(a: seq<byte>, b: seq<byte>, n: nat)
    requires n <= 128 && |a| >= 129 && |b| >= 129
    requires StrNEq(a, b, 129) && StrNLen(b, 129) == n && StrNLen(a, 129) == n
    ensures StrNEq(a, b, n)
  {
    assert StrNLen(a, n) == n;
  }
}
