/** How uses of options are spelled on a command line, and that nn_parse_options reads just that
    (tools/options.c:595-722). */
module Spelling {
  import opened Options
  import opened Util

  /** How a bundle of short options ends: with a flag, or with an option and its argument, in the
      same word or as the next one. */
  datatype End = Flags | Inline(c: char, i: nat, arg: string) | Apart(c: char, i: nat, arg: string)

  /** A flag of a bundle and the option it names. */
  datatype Flag = Flag(c: char, i: nat)

  /** A piece of a command line: "--word", "--word=arg", "--word arg", a bundle of short options,
      or "--" alone. */
  datatype Piece =
    | Long(word: string, i: nat)
    | LongInline(word: string, i: nat, arg: string)
    | LongApart(word: string, i: nat, arg: string)
    | Bundle(flags: seq<Flag>, end: End)
    | Dashes

  /** The long name is option i's, or abbreviates it alone. */
  ghost predicate Names(table: Table, word: string, i: nat) {
    i < |table| && '=' !in word && Resolves(table, word, Found(i))
  }

  /** The short name is that of option i, the first that has it. */
  predicate Letter(table: Table, c: char, i: nat) {
    i < |table| && table[i].shortname == Some(c) && forall j :: 0 <= j < i ==> table[j].shortname != Some(c)
  }

  predicate FlagOk(table: Table, f: Flag) { Letter(table, f.c, f.i) && !table[f.i].hasArg }

  predicate EndOk(table: Table, end: End) {
    match end
    case Flags => true
    case Inline(c, i, arg) => Letter(table, c, i) && table[i].hasArg && arg != ""
    case Apart(c, i, _) => Letter(table, c, i) && table[i].hasArg
  }

  /** An argument is given just where the option takes one; a bundle does not start with a second
      dash. */
  ghost predicate Spelled(table: Table, p: Piece) {
    match p
    case Long(word, i) => word != "" && Names(table, word, i) && !table[i].hasArg
    case LongInline(word, i, _) => Names(table, word, i) && table[i].hasArg
    case LongApart(word, i, _) => word != "" && Names(table, word, i) && table[i].hasArg
    case Bundle(flags, end) =>
      && (forall k :: 0 <= k < |flags| ==> FlagOk(table, flags[k])) && EndOk(table, end)
      && (Letters(flags, end) == "" || Letters(flags, end)[0] != '-')
    case Dashes => true
  }

  ghost predicate AllSpelled(table: Table, ps: seq<Piece>) { forall k :: 0 <= k < |ps| ==> Spelled(table, ps[k]) }

  function EndLetters(end: End): string {
    match end
    case Flags => ""
    case Inline(c, _, arg) => [c] + arg
    case Apart(c, _, _) => [c]
  }

  /** What follows the dash of a bundle. */
  function Letters(flags: seq<Flag>, end: End): string {
    if flags == [] then EndLetters(end) else [flags[0].c] + Letters(flags[1..], end)
  }

  function EndMore(end: End): seq<string> { if end.Apart? then [end.arg] else [] }

  /** The words it is written in. */
  function Words(p: Piece): (r: seq<string>)
    ensures r != []
  {
    match p
    case Long(word, _) => ["--" + word]
    case LongInline(word, _, arg) => ["--" + word + "=" + arg]
    case LongApart(word, _, arg) => ["--" + word, arg]
    case Bundle(flags, end) => ["-" + Letters(flags, end)] + EndMore(end)
    case Dashes => ["--"]
  }

  function EndUses(end: End): seq<Use> {
    match end
    case Flags => []
    case Inline(_, i, arg) => [Use(i, Some(arg))]
    case Apart(_, i, arg) => [Use(i, Some(arg))]
  }

  function FlagUses(flags: seq<Flag>): (r: seq<Use>)
    ensures |r| == |flags| && forall k :: 0 <= k < |flags| ==> r[k] == Use(flags[k].i, None)
  {
    seq(|flags|, k requires 0 <= k < |flags| => Use(flags[k].i, None))
  }

  /** The uses it stands for. */
  function Means(p: Piece): seq<Use> {
    match p
    case Long(_, i) => [Use(i, None)]
    case LongInline(_, i, arg) => [Use(i, Some(arg))]
    case LongApart(_, i, arg) => [Use(i, Some(arg))]
    case Bundle(flags, end) => FlagUses(flags) + EndUses(end)
    case Dashes => []
  }

  function Line(ps: seq<Piece>): seq<string> { if ps == [] then [] else Words(ps[0]) + Line(ps[1..]) }

  function Meaning(ps: seq<Piece>): seq<Use> { if ps == [] then [] else Means(ps[0]) + Meaning(ps[1..]) }

  // ---- What is written is read ----

  lemma {:induction false} WordIs(w: string, rest: string)
    requires '=' !in w && (rest == "" || rest[0] == '=')
    ensures Word(w + rest) == w
  {
    if w == "" {
      assert w + rest == rest;
    } else {
      WordIs(w[1..], rest);
      assert (w + rest)[1..] == w[1..] + rest && w[0] in w;
    }
  }

  lemma ShortIs(table: Table, c: char, i: nat)
    requires Letter(table, c, i)
    ensures FindShort(table, c, 0) == Some(i)
  {
    var r := FindShort(table, c, 0);
    assert r.Some? && !(r.value < i) && !(i < r.value);
  }

  /** A long piece: its word, and what follows the word. */
  lemma LongRead(table: Table, word: string, tail: string, i: nat, rest: seq<string>)
    requires Names(table, word, i) && (tail == "" || tail[0] == '=')
    ensures LongUses(table, word + tail, rest) ==
            Single(table, i, if tail == "" then None else Some(tail[1..]), rest)
  {
    WordIs(word, tail);
    assert tail != "" ==> (word + tail)[|word| + 1..] == tail[1..];
    hide Resolves, Word, Single;
  }

  lemma {:induction false} BundleRead(table: Table, flags: seq<Flag>, end: End, rest: seq<string>)
    requires (forall k :: 0 <= k < |flags| ==> FlagOk(table, flags[k])) && EndOk(table, end)
    ensures ShortUses(table, Letters(flags, end), EndMore(end) + rest) ==
            Some(Parsed(FlagUses(flags) + EndUses(end), rest))
    decreases |flags|
  {
    if flags == [] {
      EndRead(table, end, rest);
      assert FlagUses(flags) + EndUses(end) == EndUses(end);
    } else {
      var data, f := Letters(flags, end), flags[0];
      assert FlagOk(table, f);
      ShortIs(table, f.c, f.i);
      BundleRead(table, flags[1..], end, rest);
      assert data[0] == f.c && data[1..] == Letters(flags[1..], end);
      hide FindShort, Letters, EndUses, EndMore;
      FlagsFirst(flags, EndUses(end));
      OneFlag(table, data, f.i, EndMore(end) + rest);
    }
  }

  lemma OneFlag(table: Table, data: string, i: nat, rest: seq<string>)
    requires data != "" && FindShort(table, data[0], 0) == Some(i) && !table[i].hasArg
    ensures ShortUses(table, data, rest) == Prepend([Use(i, None)], ShortUses(table, data[1..], rest))
  {
  }

  lemma FlagsFirst(flags: seq<Flag>, more: seq<Use>)
    requires flags != []
    ensures FlagUses(flags) + more == [Use(flags[0].i, None)] + (FlagUses(flags[1..]) + more)
  {
  }

  lemma EndRead(table: Table, end: End, rest: seq<string>)
    requires EndOk(table, end)
    ensures ShortUses(table, EndLetters(end), EndMore(end) + rest) == Some(Parsed(EndUses(end), rest))
  {
    match end
    case Flags => assert [] + rest == rest;
    case Inline(c, i, arg) =>
      ShortIs(table, c, i);
      assert ([c] + arg)[1..] == arg && [] + rest == rest;
    case Apart(c, i, arg) =>
      ShortIs(table, c, i);
      assert ([arg] + rest)[1..] == rest;
  }

  /** Each piece, whatever comes after it. */
  lemma PieceRead(table: Table, p: Piece, rest: seq<string>)
    requires Spelled(table, p)
    ensures ArgUses(table, Words(p) + rest) == Some(Parsed(Means(p), rest))
  {
    hide ShortUses, LongUses, Letters, Resolves;
    match p
    case Long(word, i) =>
      LongRead(table, word, "", i, rest);
      assert word + "" == word && ("--" + word)[2..] == word;
      FirstWord("--" + word, [], rest);
    case LongInline(word, i, arg) =>
      LongRead(table, word, "=" + arg, i, rest);
      assert ("--" + word + "=" + arg)[2..] == word + ("=" + arg) && ("=" + arg)[1..] == arg;
      FirstWord("--" + word + "=" + arg, [], rest);
    case LongApart(word, i, arg) =>
      LongRead(table, word, "", i, [arg] + rest);
      assert word + "" == word && ("--" + word)[2..] == word && ([arg] + rest)[1..] == rest;
      FirstWord("--" + word, [arg], rest);
    case Bundle(flags, end) =>
      var data := Letters(flags, end);
      BundleRead(table, flags, end, rest);
      assert ("-" + data)[1..] == data;
      FirstWord("-" + data, EndMore(end), rest);
    case Dashes =>
      FirstWord("--", [], rest);
  }

  lemma FirstWord(w: string, more: seq<string>, rest: seq<string>)
    ensures ([w] + more + rest)[0] == w && ([w] + more + rest)[1..] == more + rest && [w] + [] == [w]
    ensures [] + rest == rest && [w, if more == [] then "" else more[0]] == [w] + [if more == [] then "" else more[0]]
  {
  }

  /** Whatever pieces are written, in whatever order: exactly their uses are read, each with the
      argument written for it. */
  lemma {:induction false} WrittenIsRead(table: Table, ps: seq<Piece>)
    requires AllSpelled(table, ps)
    ensures AllUses(table, Line(ps)) == Some(Parsed(Meaning(ps), []))
  {
    if ps == [] {
    } else {
      WrittenIsRead(table, ps[1..]);
      PieceRead(table, ps[0], Line(ps[1..]));
      AllUsesStep(table, Line(ps));
      hide Words, Means, ArgUses, Spelled;
    }
  }

  // ---- What is read was written ----

  /** The pieces of a bundle that is read. */
  lemma {:induction false} BundleSpelled(table: Table, data: string, rest: seq<string>)
    returns (flags: seq<Flag>, end: End)
    requires ShortUses(table, data, rest).Some?
    ensures (forall k :: 0 <= k < |flags| ==> FlagOk(table, flags[k])) && EndOk(table, end)
    ensures Letters(flags, end) == data && EndMore(end) + ShortUses(table, data, rest).value.rest == rest
    decreases |data|
  {
    if data == "" {
      flags, end := [], Flags;
    } else {
      var i := FindShort(table, data[0], 0).value;
      if table[i].hasArg {
        flags := [];
        if |data| > 1 {
          end := Inline(data[0], i, data[1..]);
        } else {
          end := Apart(data[0], i, rest[0]);
        }
      } else {
        var more;
        more, end := BundleSpelled(table, data[1..], rest);
        flags := [Flag(data[0], i)] + more;
        assert flags[1..] == more;
      }
    }
  }

  lemma LongSpelled(table: Table, body: string, rest: seq<string>) returns (p: Piece)
    requires body != "" && LongUses(table, body, rest).Some?
    ensures Spelled(table, p) && Words(p) + LongUses(table, body, rest).value.rest == ["--" + body] + rest
  {
    var w := Word(body);
    var i := LongOption(table, w).value;
    IsNamed(table, w, i);
    if |w| < |body| {
      p := LongInline(w, i, body[|w| + 1..]);
      assert "--" + w + "=" + body[|w| + 1..] == "--" + body;
    } else if table[i].hasArg {
      assert w == body;
      p := LongApart(w, i, rest[0]);
    } else {
      assert w == body;
      p := Long(w, i);
    }
    hide Resolves, Word;
  }

  lemma IsNamed(table: Table, w: string, i: nat)
    requires LongOption(table, w) == Some(i) && '=' !in w
    ensures Names(table, w, i)
  {
    var e := FindExact(table, w, 0);
    if e.Some? {
      assert Exact(table, w, e.value) && e.value == i;
    } else {
      assert forall j :: !Exact(table, w, j);
      var all := Matches(table, w, |table|);
      assert w != "" && exists k :: all == {k};
      assert all == {i};
    }
  }

  lemma Regroup(w: string, a: seq<string>, b: seq<string>)
    ensures [w] + a + b == [w] + (a + b)
  {
  }

  lemma PieceSpelled(table: Table, args: seq<string>) returns (p: Piece)
    requires args != [] && ArgUses(table, args).Some?
    ensures Spelled(table, p) && Words(p) + ArgUses(table, args).value.rest == args
  {
    hide ShortUses, LongUses, Letters, EndMore;
    var data, rest := args[0], args[1..];
    assert args == [data] + rest;
    if |data| == 1 || data[1] != '-' {
      var flags, end := BundleSpelled(table, data[1..], rest);
      p := Bundle(flags, end);
      assert "-" + data[1..] == data;
      Regroup(data, EndMore(end), ShortUses(table, data[1..], rest).value.rest);
    } else if |data| == 2 {
      p := Dashes;
      assert data == "--";
    } else {
      assert "--" + data[2..] == data;
      p := LongSpelled(table, data[2..], rest);
    }
  }

  lemma {:induction false} ReadIsWritten(table: Table, args: seq<string>) returns (ps: seq<Piece>)
    requires AllUses(table, args).Some?
    ensures AllSpelled(table, ps) && Line(ps) == args
    decreases |args|
  {
    if args == [] {
      ps := [];
    } else {
      AllUsesStep(table, args);
      var p := PieceSpelled(table, args);
      hide Words, Spelled, ArgUses;
      var more := ReadIsWritten(table, ArgUses(table, args).value.rest);
      ps := [p] + more;
      assert ps[1..] == more;
    }
  }

  /** Exactly the lines that can be written are read, and as what was written. */
  lemma ReadIffWritten(table: Table, args: seq<string>, uses: seq<Use>)
    ensures AllUses(table, args) == Some(Parsed(uses, [])) <==>
            exists ps :: AllSpelled(table, ps) && Line(ps) == args && Meaning(ps) == uses
  {
    if AllUses(table, args) == Some(Parsed(uses, [])) {
      var ps := ReadIsWritten(table, args);
      WrittenIsRead(table, ps);
    }
    forall ps | AllSpelled(table, ps) && Line(ps) == args && Meaning(ps) == uses
      ensures AllUses(table, args) == Some(Parsed(uses, []))
    {
      WrittenIsRead(table, ps);
    }
  }

  // ---- The options named after the program ----

  /** The program's name: what follows the last slash, or all of it. */
  lemma {:induction false} BasenameIs(path: string)
    ensures '/' !in Basename(path) && |Basename(path)| <= |path|
    ensures path[|path| - |Basename(path)|..] == Basename(path)
    ensures |Basename(path)| < |path| ==> path[|path| - |Basename(path)| - 1] == '/'
  {
    if '/' in path {
      BasenameIs(path[1..]);
      var n := |Basename(path)|;
      assert path[|path| - n..] == path[1..][|path| - 1 - n..];
    }
  }

  /** Exactly the options of that name are used, each once, in the order of the table. */
  lemma {:induction false} Arg0UsesAre(table: Table, arg0: string, from: nat)
    requires from <= |table|
    ensures var r := Arg0Uses(table, arg0, from);
            && (forall i: nat :: Use(i, None) in r <==> from <= i < |table| && table[i].arg0name == Some(arg0))
            && (forall u :: u in r ==> u.argument == None)
            && (forall j, k :: 0 <= j < k < |r| ==> r[j].opt < r[k].opt)
    decreases |table| - from
  {
    if from == |table| {
    } else {
      Arg0UsesAre(table, arg0, from + 1);
      var more := Arg0Uses(table, arg0, from + 1);
      var first := if table[from].arg0name == Some(arg0) then [Use(from, None)] else [];
      var r := Arg0Uses(table, arg0, from);
      assert r == first + more;
      forall j, k | 0 <= j < k < |r| ensures r[j].opt < r[k].opt {
        if first != [] && j == 0 {
          assert r[k] == more[k - 1] && more[k - 1] in more;
          LaterUse(more[k - 1], from, more);
        }
      }
    }
  }

  lemma LaterUse(u: Use, from: nat, more: seq<Use>)
    requires u in more && (forall v :: v in more ==> v.argument == None)
    requires forall i: nat :: Use(i, None) in more ==> from + 1 <= i
    ensures from < u.opt
  {
    assert u == Use(u.opt, None);
  }

  /** The command lines that nn_parse_options accepts, in terms of what is written on them. */
  lemma AcceptableIffWritten(table: Table, takes: Takes, required: Mask, argv: seq<string>)
    requires argv != []
    ensures Acceptable(table, takes, required, argv) <==>
            && Arg0Fits(table, Basename(argv[0]))
            && exists ps :: AllSpelled(table, ps) && Line(ps) == argv[1..]
                 && var uses := Arg0Uses(table, Basename(argv[0]), 0) + Meaning(ps);
                    NoConflict(table, takes, uses) && Satisfied(table, required, uses)
  {
    hide NoConflict, Satisfied, Arg0Fits, Arg0Uses, Basename;
    Bounded(table, takes);
    var all := AllUses(table, argv[1..]);
    if all.Some? {
      NothingLeft(table, argv[1..]);
      var ps := ReadIsWritten(table, argv[1..]);
      WrittenIsRead(table, ps);
    }
    forall ps | AllSpelled(table, ps) && Line(ps) == argv[1..] ensures all == Some(Parsed(Meaning(ps), [])) {
      WrittenIsRead(table, ps);
    }
  }

  lemma {:induction false} NothingLeft(table: Table, args: seq<string>)
    requires AllUses(table, args).Some?
    ensures AllUses(table, args).value.rest == []
    decreases |args|
  {
    if args != [] {
      AllUsesStep(table, args);
      NothingLeft(table, ArgUses(table, args).value.rest);
    }
  }

  lemma Bounded(table: Table, takes: Takes)
    ensures forall uses :: NoConflict(table, takes, uses) ==> forall u: Use :: u in uses ==> u.opt < |table|
  {
  }
}
