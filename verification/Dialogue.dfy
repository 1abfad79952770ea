/** When getd answers what (requestHandlers.c, requestVerify.c): each reply of a run is decided by
    the request and by what was asked and answered before it. */
module Dialogue {
  import opened Getd
  import opened Util
  import opened Wire

  /** No session, after the start or a finished transfer; none, after an error; one that has asked
      for no file yet; one whose file is being sent. */
  datatype Stage = Closed | Refused | Greeted | Sending

  /** What the exchanges so far amount to: the id drawn and the name given for the last session
      opened, the last file asked for, and in how many pieces it has been answered. */
  datatype Session = Session(stage: Stage, sid: SessionId, name: seq<byte>, file: seq<byte>, pieces: nat)

  function Before(s: State): Session { Session(Closed, s.sid, s.userName, [], 0) }

  /** The same characters up to the first null, or n of them. */
  ghost predicate SameString(a: seq<byte>, b: seq<byte>, n: nat)
    requires n <= |a| && n <= |b|
  {
    forall i :: 0 <= i < n && NoNullBefore(a, i) ==> a[i] == b[i]
  }

  ghost predicate NoNullBefore(a: seq<byte>, i: nat)
    requires i <= |a|
  {
    forall j :: 0 <= j < i ==> a[j] != 0
  }

  lemma StrNEqIs(a: seq<byte>, b: seq<byte>, n: nat)
    requires n <= |a| && n <= |b|
    ensures StrNEq(a, b, n) <==> SameString(a, b, n)
  {
    var k := StrNLen(a, n);
    if StrNEq(a, b, n) {
      forall i | 0 <= i < n && NoNullBefore(a, i) ensures a[i] == b[i] {
        assert i <= k;
        if i < k { assert a[..k][i] == b[..k][i]; }
      }
    }
    if SameString(a, b, n) {
      forall i | 0 <= i <= k && i < n ensures a[i] == b[i] { assert NoNullBefore(a, i); }
      assert a[..k] == b[..k];
    }
  }

  /** One exchange, read off the request and its reply. */
  ghost function Next(x: Session, m: Request, r: Reply): Session {
    match r
    case Type1 => if m.Type0? then Session(Greeted, m.drawn + [0], m.name[..StrNLen(m.name, 33)], [], 0) else x
    case Type4(_) =>
      if m.Type3? && m.file.Regular? then x.(stage := Sending, file := m.file.contents, pieces := 1)
      else x.(pieces := x.pieces + 1)
    case Type5 => x.(stage := Closed)
    case Silence => x
    case Type2(_) =>
      if m.Type3? || (m.Type6? && SameString(x.sid, m.sid, 129)) ||
         (m.Type0? && (x.stage == Closed || x.stage == Refused))
      then x.(stage := Refused) else x
  }

  ghost function History(x: Session, ms: seq<Request>, rs: seq<Reply>): Session
    requires |ms| == |rs|
    decreases |ms|
  {
    if ms == [] then x else Next(History(x, ms[..|ms| - 1], rs[..|ms| - 1]), ms[|ms| - 1], rs[|ms| - 1])
  }

  /** The lengths a request states are those it has. */
  predicate WellFormed(m: Request) {
    match m
    case Type0(size, n, name, _) => size == SIZEOF_TYPE0 && n == StrNLen(name, 32)
    case Type3(size, n, p, sid, path, _) => size == SIZEOF_TYPE3 && n == StrNLen(sid, 128) && p == StrNLen(path, 4096)
    case Type6(size, n, sid) => size == SIZEOF_TYPE6 && n == StrNLen(sid, 129) <= 128
    case Other(_) => false
  }

  /** The piece that comes next. */
  function PieceAt(file: seq<byte>, pieces: nat): seq<byte> {
    if PIECE * pieces <= |file| then file[PIECE * pieces..Min(PIECE * pieces + PIECE, |file|)] else []
  }

  /** A type 0 request opens a session exactly if it is well formed and none is open. */
  ghost predicate Opens(x: Session, m: Request) {
    m.Type0? && WellFormed(m) && (x.stage == Closed || x.stage == Refused)
  }

  /** A type 3 request gets its file exactly if it is well formed, comes first after the opening,
      carries the id drawn for it, and names a regular file. */
  ghost predicate Asks(x: Session, m: Request) {
    m.Type3? && WellFormed(m) && x.stage == Greeted && SameString(m.sid, x.sid, 128) && m.file.Regular?
  }

  /** A type 6 request counts exactly if it is well formed and carries that id. */
  ghost predicate Acknowledges(x: Session, m: Request) {
    m.Type6? && WellFormed(m) && SameString(x.sid, m.sid, 129)
  }

  /** All pieces of the file have been sent, the short one, possibly empty, included. */
  predicate AllSent(x: Session) { x.pieces == |x.file| / PIECE + 1 }

  /** What each reply means. */
  ghost predicate Answers(x: Session, m: Request, r: Reply) {
    && (r == Type1 <==> Opens(x, m))
    && (r.Type4? <==> Asks(x, m) || (Acknowledges(x, m) && x.stage == Sending && !AllSent(x)))
    && (r == Type5 <==> Acknowledges(x, m) && x.stage == Sending && AllSent(x))
    && (r == Silence <==> Acknowledges(x, m) && x.stage == Closed)
    && (r.Type4? ==> r.content == if m.Type3? then PieceAt(m.file.contents, 0) else PieceAt(x.file, x.pieces))
  }

  // ---- The state keeps track ----

  ghost predicate Tracks(s: State, x: Session) {
    && s.sid == x.sid && s.userName == x.name
    && s.lastSent == (match x.stage case Closed => 5 case Refused => 2 case Greeted => 1 case Sending => 4)
    && (x.stage == Sending ==>
          && s.file.Some? && s.file.value.open && s.file.value.contents == x.file && s.file.value.pos <= |x.file|
          && if s.file.value.eof then AllSent(x) else s.file.value.pos == PIECE * x.pieces && !AllSent(x))
  }

  lemma Answer0(s: State, x: Session, m: Request)
    requires Tracks(s, x) && m.Type0?
    ensures var (t, r) := Type0Handler(m, s); Answers(x, m, r) && Tracks(t, Next(x, m, r))
  {
    WellFormed0(m);
    hide Type0Ver, SameString, StrNLen;
  }

  lemma Ver3(m: Request)
    requires m.Type3?
    ensures Type3Ver(m) == 0 <==> WellFormed(m)
  {
  }

  lemma Answer3(s: State, x: Session, m: Request)
    requires Tracks(s, x) && m.Type3?
    ensures var (t, r) := Type3Handler(m, s); Answers(x, m, r) && Tracks(t, Next(x, m, r))
  {
    Ver3(m);
    StrNEqIs(m.sid, s.sid, 128);
    if m.file.Regular? { FirstPiece(m.file.contents); }
    hide Type3Ver, SameString, StrNEq, ReadsOutside, WellFormed;
  }

  /** The first piece is the last one if it is short. */
  lemma FirstPiece(c: seq<byte>)
    ensures var f := File(c, 0, false, true);
            && Content(f) == PieceAt(c, 0) && AfterPiece(f).pos <= |c|
            && if AfterPiece(f).eof then |c| / PIECE == 0 else AfterPiece(f).pos == PIECE && |c| / PIECE >= 1
  {
  }

  lemma NextPiece(f: File, pieces: nat)
    requires !f.eof && f.pos == PIECE * pieces <= |f.contents|
    ensures Content(f) == PieceAt(f.contents, pieces) && AfterPiece(f).pos <= |f.contents|
    ensures AfterPiece(f).contents == f.contents && AfterPiece(f).open == f.open
    ensures pieces <= |f.contents| / PIECE
    ensures if AfterPiece(f).eof then |f.contents| / PIECE == pieces
            else AfterPiece(f).pos == PIECE * (pieces + 1) && |f.contents| / PIECE >= pieces + 1
  {
    LastPiece0(|f.contents|, pieces);
  }

  lemma LastPiece0(size: nat, pieces: nat)
    requires PIECE * pieces <= size
    ensures pieces <= size / PIECE
    ensures size < PIECE * pieces + PIECE ==> size / PIECE == pieces
    ensures PIECE * pieces + PIECE <= size ==> size / PIECE >= pieces + 1
  {
  }

  lemma Answer6(s: State, x: Session, m: Request)
    requires Tracks(s, x) && m.Type6?
    ensures s.lastSent == 4 ==> Usable(s)
    ensures var (t, r) := Type6Handler(m, s); Answers(x, m, r) && Tracks(t, Next(x, m, r))
  {
    hide Type6Ver, SameString, StrNEq, Content, PieceAt, StrNLen, WellFormed, AfterPiece;
    Acked(s, x, m);
    SameVer6(m, s);
    if x.stage == Sending && !s.file.value.eof { NextPiece(s.file.value, x.pieces); }
  }

  lemma Acked(s: State, x: Session, m: Request)
    requires Tracks(s, x) && m.Type6?
    ensures StrNEq(s.sid, m.sid, 129) <==> SameString(x.sid, m.sid, 129)
    ensures Acknowledges(x, m) <==> StrNEq(s.sid, m.sid, 129) && Type6Ver(m, s) == 0
  {
    StrNEqIs(s.sid, m.sid, 129);
    WellFormed6(m, s);
    hide Type6Ver, SameString, StrNEq;
  }

  lemma SameVer6(m: Request, s: State)
    requires m.Type6?
    ensures Type6Ver(m, s.(lastRecieved := 6)) == Type6Ver(m, s)
  {
  }

  lemma AnswerStep(s: State, x: Session, m: Request)
    requires Tracks(s, x)
    ensures s.lastSent == 4 ==> Usable(s)
    ensures var (t, r) := Handle(m, s); Answers(x, m, r) && Tracks(t, Next(x, m, r))
  {
    hide Type0Handler, Type3Handler, Type6Handler;
    match m
    case Type0(_, _, _, _) => Answer0(s, x, m);
    case Type3(_, _, _, _, _, _) => Answer3(s, x, m);
    case Type6(_, _, _) => Answer6(s, x, m);
    case Other(_) =>
  }

  // ---- Over runs ----

  /** The replies of a history. */
  function Replies(log: seq<Event>): seq<Reply> {
    if log == [] then []
    else Replies(log[..|log| - 1]) + if log[|log| - 1].Sent? then [log[|log| - 1].reply] else []
  }

  lemma RepliesOne(log: seq<Event>, e: Event)
    ensures Replies(log + [e]) == Replies(log) + if e.Sent? then [e.reply] else []
  {
    assert (log + [e])[..|log|] == log;
  }

  /** The history that these exchanges leave: a file accepted is noted before the reply. */
  function Noted(ms: seq<Request>, rs: seq<Reply>): seq<Event>
    requires |ms| == |rs|
  {
    if ms == [] then []
    else
      var m, r := ms[|ms| - 1], rs[|ms| - 1];
      Noted(ms[..|ms| - 1], rs[..|ms| - 1])
      + (if m.Type3? && r.Type4? && m.file.Regular? then [Accepted(m.file.contents)] else []) + [Sent(r)]
  }

  /** The run of n requests, taken apart at its end. */
  lemma {:induction false} RunLast(w: World, ms: seq<Request>, m: Request)
    requires Invariant(w)
    ensures ValidRun(w, ms) && ValidRun(w, ms + [m])
    ensures var v := Run(w, ms); (v.s.lastSent == 4 ==> Usable(v.s)) && Run(w, ms + [m]) == Step(v, m)
    decreases |ms|
  {
    RunKeeps(w, ms + [m]);
    RunKeeps(w, ms);
    InStepUsable(Run(w, ms));
    hide Invariant, Step, Usable;
    if ms == [] {
      assert [] + [m] == [m] && [m][1..] == [];
    } else {
      StepKeeps(w, ms[0]);
      RunLast(Step(w, ms[0]), ms[1..], m);
      assert (ms + [m])[1..] == ms[1..] + [m];
    }
  }

  /** Each reply so far means what it should. */
  ghost predicate Answered(s: State, ms: seq<Request>, rs: seq<Reply>)
    requires |rs| == |ms|
  {
    forall i :: 0 <= i < |ms| ==> Answers(History(Before(s), ms[..i], rs[..i]), ms[i], rs[i])
  }

  lemma AnsweredOn(s: State, ms: seq<Request>, rs: seq<Reply>, m: Request, r: Reply)
    requires |rs| == |ms| && Answered(s, ms, rs) && Answers(History(Before(s), ms, rs), m, r)
    ensures Answered(s, ms + [m], rs + [r])
  {
    hide Answers, History;
    var ms', rs' := ms + [m], rs + [r];
    forall i | 0 <= i < |ms'| ensures Answers(History(Before(s), ms'[..i], rs'[..i]), ms'[i], rs'[i]) {
      if i < |ms| { assert ms'[..i] == ms[..i] && rs'[..i] == rs[..i]; }
      else { assert ms'[..i] == ms && rs'[..i] == rs; }
    }
  }

  /** What holds after a run. */
  ghost predicate Told(s: State, ms: seq<Request>, w: World) {
    && |Replies(w.log)| == |ms| && w.log == Noted(ms, Replies(w.log)) && Answered(s, ms, Replies(w.log))
    && Tracks(w.s, History(Before(s), ms, Replies(w.log)))
  }

  lemma {:induction false} RunTells(s: State, ms: seq<Request>)
    requires Start(s)
    ensures Invariant(World(s, [])) && ValidRun(World(s, []), ms) && Told(s, ms, Run(World(s, []), ms))
    decreases |ms|
  {
    hide Invariant, Step, Handle, Told, Start, Usable;
    StartKeeps(s);
    RunKeeps(World(s, []), ms);
    if ms == [] {
      NothingTold(s);
    } else {
      var init, m := ms[..|ms| - 1], ms[|ms| - 1];
      RunTells(s, init);
      RunLast(World(s, []), init, m);
      assert ms == init + [m];
      StepTells(s, init, m, Run(World(s, []), init));
    }
  }

  lemma StartKeeps(s: State)
    requires Start(s)
    ensures Invariant(World(s, []))
  {
  }

  lemma NothingTold(s: State)
    requires Start(s)
    ensures Told(s, [], World(s, []))
  {
  }

  lemma StepTells(s: State, ms: seq<Request>, m: Request, w: World)
    requires Told(s, ms, w) && (w.s.lastSent == 4 ==> Usable(w.s))
    ensures Told(s, ms + [m], Step(w, m))
  {
    hide Handle, Answers, Answered, Tracks, Next, Usable, History, Noted, Replies, Step;
    var rs, r := Replies(w.log), Handle(m, w.s).1;
    AnswerStep(w.s, History(Before(s), ms, rs), m);
    LogAfter(w, m);
    AnsweredOn(s, ms, rs, m, r);
    OneMore(Before(s), ms, rs, m, r);
    StateAfter(w, m);
  }

  lemma StateAfter(w: World, m: Request)
    requires w.s.lastSent == 4 ==> Usable(w.s)
    ensures Step(w, m).s == Handle(m, w.s).0
  {
    hide Handle, Usable;
  }

  lemma OneMore(x: Session, ms: seq<Request>, rs: seq<Reply>, m: Request, r: Reply)
    requires |ms| == |rs|
    ensures History(x, ms + [m], rs + [r]) == Next(History(x, ms, rs), m, r)
    ensures Noted(ms + [m], rs + [r]) ==
            Noted(ms, rs) + (if m.Type3? && r.Type4? && m.file.Regular? then [Accepted(m.file.contents)] else [])
            + [Sent(r)]
  {
    hide Next;
    assert (ms + [m])[..|ms|] == ms && (rs + [r])[..|ms|] == rs;
  }

  lemma LogAfter(w: World, m: Request)
    requires w.s.lastSent == 4 ==> Usable(w.s)
    ensures var r := Handle(m, w.s).1;
            && Replies(Step(w, m).log) == Replies(w.log) + [r]
            && Step(w, m).log == w.log
               + (if m.Type3? && r.Type4? && m.file.Regular? then [Accepted(m.file.contents)] else []) + [Sent(r)]
  {
    FileIsRegular(m, w.s);
    hide Handle, Usable;
    var r := Handle(m, w.s).1;
    if m.Type3? && r.Type4? {
      RepliesOne(w.log, Accepted(m.file.contents));
      RepliesOne(w.log + [Accepted(m.file.contents)], Sent(r));
    } else {
      assert w.log + [] == w.log;
      RepliesOne(w.log, Sent(r));
    }
  }

  lemma FileIsRegular(m: Request, s: State)
    requires s.lastSent == 4 ==> Usable(s)
    ensures m.Type3? && Handle(m, s).1.Type4? ==> m.file.Regular?
  {
    hide Type0Handler, Type6Handler, Type3Ver, StrNEq, ReadsOutside, Content;
  }

  /** In every run, whatever is asked in whatever order, each reply means what it should: the i-th
      opens a session, starts, continues or ends a transfer, stays away, or refuses, exactly as
      the exchanges before it and the request itself say; and a file is accepted just when the
      request for it gets its first piece. */
  lemma EveryAnswer(s: State, ms: seq<Request>, i: nat)
    requires Start(s) && i < |ms|
    ensures ValidRun(World(s, []), ms)
    ensures var log := Run(World(s, []), ms).log;
            && |Replies(log)| == |ms| && log == Noted(ms, Replies(log))
            && Answers(History(Before(s), ms[..i], Replies(log)[..i]), ms[i], Replies(log)[i])
  {
    RunTells(s, ms);
    hide Answers;
  }

  /** And the state holds the id drawn and the name given for the last session opened. */
  lemma StateIsLast(s: State, ms: seq<Request>)
    requires Start(s)
    ensures ValidRun(World(s, []), ms)
    ensures var w := Run(World(s, []), ms);
            && |Replies(w.log)| == |ms|
            && var x := History(Before(s), ms, Replies(w.log)); w.s.sid == x.sid && w.s.userName == x.name
  {
    RunTells(s, ms);
  }
}
