/** Command-line parsing (tools/options.c): abbreviated long names, bundled short names, and the
    masks that record conflicts and requirements.  A mask is the set of its bits. */
module Options {
  import opened Util

  type Mask = set<nat>

  datatype Opt = Opt(
    longname: string,
    shortname: Option<char>,
    arg0name: Option<string>,
    hasArg: bool,
    sets: Mask,
    conflicts: Mask,
    needs: Mask)

  type Table = seq<Opt>

  /** One use of an option on a command line. */
  datatype Use = Use(opt: nat, argument: Option<string>)

  // ---- Long names ----

  datatype Lookup = Found(opt: nat) | Ambiguous | Unknown

  /** The part of a long option before '=' or the end. */
  function Word(arg: string): (w: string)
    ensures w <= arg && '=' !in w && (|w| < |arg| ==> arg[|w|] == '=')
  {
    if arg == "" || arg[0] == '=' then ""
    else
      var w := Word(arg[1..]);
      assert [arg[0]] + w <= arg;
      [arg[0]] + w
  }

  predicate Exact(table: Table, w: string, i: nat) { i < |table| && table[i].longname == w }

  predicate Abbreviates(table: Table, w: string, i: nat) { i < |table| && w < table[i].longname }

  /** The options before n that w abbreviates. */
  function Matches(table: Table, w: string, n: nat): set<nat> { set i | 0 <= i < n && Abbreviates(table, w, i) }

  /** What a long name should resolve to. */
  ghost predicate Resolves(table: Table, w: string, r: Lookup) {
    if exists i :: Exact(table, w, i) then
      r.Found? && Exact(table, w, r.opt) && forall j: nat :: j < r.opt ==> !Exact(table, w, j)
    else if w == "" then r == Unknown
    else match r
      case Found(i) => Matches(table, w, |table|) == {i}
      case Ambiguous => exists i, j :: i != j && Abbreviates(table, w, i) && Abbreviates(table, w, j)
      case Unknown => Matches(table, w, |table|) == {}
  }

  /** At most one result fits. */
  lemma ResolvesOnce(table: Table, w: string, r: Lookup, q: Lookup)
    requires Resolves(table, w, r) && Resolves(table, w, q)
    ensures r == q
  {
    if !(exists i :: Exact(table, w, i)) && w != "" {
      var all := Matches(table, w, |table|);
      assert forall i :: Abbreviates(table, w, i) <==> i in all;
      if r.Found? && q.Found? { assert r.opt in all && q.opt in all; }
    } else if exists i :: Exact(table, w, i) {
      assert !(r.opt < q.opt) && !(q.opt < r.opt);
    }
  }

  /** The inner loop of nn_parse_long_option: compare one name with the word at the start of arg. */
  method Compare(name: string, arg: string) returns (fits: bool, exact: bool, prefix: nat)
    ensures fits <==> Word(arg) <= name
    ensures fits ==> prefix == |Word(arg)| && (exact <==> name == Word(arg))
  {
    var w := Word(arg);
    var a := 0;
    while true
      invariant a <= |name| && a <= |w| && name[..a] == w[..a]
      decreases |name| - a
    {
      if a == |arg| || arg[a] == '=' {
        assert a == |w|;
        return true, a == |name|, a;
      }
      assert a < |w| && w[a] == arg[a];
      if a == |name| || arg[a] != name[a] { return false, false, 0; }
      a := a + 1;
    }
  }

  /** nn_parse_long_option as far as the label finish. */
  method FindLong(table: Table, arg: string) returns (r: Lookup, longest: nat)
    ensures Resolves(table, Word(arg), r)
    ensures r.Found? ==> longest == |Word(arg)|
  {
    var w := Word(arg);
    longest := 0;
    var best: Option<nat> := None;
    var i := 0;
    while i < |table|
      invariant 0 <= i <= |table| && (forall j: nat :: j < i ==> !Exact(table, w, j))
      invariant longest == if w != "" && Matches(table, w, i) != {} then |w| else 0
      invariant best.Some? ==> w != "" && Matches(table, w, i) == {best.value}
      invariant best.None? ==> w == "" || Matches(table, w, i) == {}
                               || exists j, k :: j != k && Abbreviates(table, w, j) && Abbreviates(table, w, k)
    {
      var fits, exact, prefix := Compare(table[i].longname, arg);
      if fits && exact {
        assert Exact(table, w, i);
        return Found(i), prefix;
      }
      MatchesStep(table, w, i);
      if fits {
        if prefix == longest {
          if w != "" { Second(table, w, i); }
          best := None;
        } else if prefix > longest {
          best := Some(i);
          longest := prefix;
        }
      }
      i := i + 1;
    }
    r := if best.Some? then Found(best.value) else if longest > 0 then Ambiguous else Unknown;
  }

  lemma MatchesStep(table: Table, w: string, n: nat)
    requires n < |table|
    ensures Matches(table, w, n + 1) == Matches(table, w, n) + if w < table[n].longname then {n} else {}
  {
  }

  lemma Second(table: Table, w: string, i: nat)
    requires Abbreviates(table, w, i) && Matches(table, w, i) != {}
    ensures exists j, k :: j != k && Abbreviates(table, w, j) && Abbreviates(table, w, k)
  {
    var j :| j in Matches(table, w, i);
    assert j != i && Abbreviates(table, w, j);
  }

  // ---- What a command line says ----

  /** The first option with a short name. */
  function FindShort(table: Table, c: char, i: nat): (r: Option<nat>)
    requires i <= |table|
    ensures r.Some? ==> i <= r.value < |table| && table[r.value].shortname == Some(c)
    ensures r.Some? ==> forall j :: i <= j < r.value ==> table[j].shortname != Some(c)
    ensures r.None? ==> forall j :: i <= j < |table| ==> table[j].shortname != Some(c)
    decreases |table| - i
  {
    if i == |table| then None else if table[i].shortname == Some(c) then Some(i) else FindShort(table, c, i + 1)
  }

  /** The long name's option, as Resolves has it. */
  function FindExact(table: Table, w: string, i: nat): (r: Option<nat>)
    requires i <= |table|
    ensures r.Some? ==> Exact(table, w, r.value) && forall j: nat :: i <= j < r.value ==> !Exact(table, w, j)
    ensures r.None? ==> forall j: nat :: i <= j ==> !Exact(table, w, j)
    decreases |table| - i
  {
    if i == |table| then None else if Exact(table, w, i) then Some(i) else FindExact(table, w, i + 1)
  }

  ghost function LongOption(table: Table, w: string): (r: Option<nat>)
    ensures r.Some? ==> r.value < |table|
    ensures forall q :: Resolves(table, w, q) ==> r == if q.Found? then Some(q.opt) else None
  {
    var all := Matches(table, w, |table|);
    var e := FindExact(table, w, 0);
    if e.Some? then
      assert Exact(table, w, e.value);
      forall q | Resolves(table, w, q) ensures q == Found(e.value) { ResolvesOnce(table, w, q, Found(e.value)); }
      e
    else if w != "" && exists i :: all == {i} then
      var i :| all == {i};
      assert i in all;
      forall q | Resolves(table, w, q) ensures q == Found(i) { ResolvesOnce(table, w, q, Found(i)); }
      Some(i)
    else None
  }

  /** The uses an argument stands for, and the arguments after it. */
  datatype Parsed = Parsed(uses: seq<Use>, rest: seq<string>)

  /** What is said when these uses come first. */
  function Prepend(done: seq<Use>, more: Option<Parsed>): (r: Option<Parsed>)
    ensures r.Some? <==> more.Some?
    ensures r.Some? ==> r.value.rest == more.value.rest && r.value.uses == done + more.value.uses
  {
    if more.None? then None else Some(Parsed(done + more.value.uses, more.value.rest))
  }

  lemma PrependTwice(a: seq<Use>, b: seq<Use>, more: Option<Parsed>)
    ensures Prepend(a, Prepend(b, more)) == Prepend(a + b, more) && Prepend([], more) == more
  {
    assert more.Some? ==>
        a + (b + more.value.uses) == (a + b) + more.value.uses && [] + more.value.uses == more.value.uses;
  }

  /** One option whose argument, if it takes one, is `inline` or else the next argument. */
  function Single(table: Table, i: nat, inline: Option<string>, rest: seq<string>): (r: Option<Parsed>)
    requires i < |table|
    ensures r.Some? ==> |r.value.rest| <= |rest|
  {
    if !table[i].hasArg then (if inline.Some? then None else Some(Parsed([Use(i, None)], rest)))
    else if inline.Some? then Some(Parsed([Use(i, inline)], rest))
    else if rest == [] then None
    else Some(Parsed([Use(i, Some(rest[0]))], rest[1..]))
  }

  /** A long option, after its two dashes. */
  ghost function LongUses(table: Table, arg: string, rest: seq<string>): (r: Option<Parsed>)
    ensures r.Some? ==> |r.value.rest| <= |rest|
  {
    var w := Word(arg);
    var i := LongOption(table, w);
    if i.None? then None
    else Single(table, i.value, if |w| < |arg| then Some(arg[|w| + 1..]) else None, rest)
  }

  /** Short options, after their dash: bundled until one of them takes an argument. */
  function ShortUses(table: Table, data: string, rest: seq<string>): (r: Option<Parsed>)
    ensures r.Some? ==> |r.value.rest| <= |rest|
    decreases |data|
  {
    if data == "" then Some(Parsed([], rest))
    else
      var i := FindShort(table, data[0], 0);
      if i.None? then None
      else if table[i.value].hasArg then
        Single(table, i.value, if |data| > 1 then Some(data[1..]) else None, rest)
      else
        Prepend([Use(i.value, None)], ShortUses(table, data[1..], rest))
  }

  /** One argument: an option, a bundle, or "--", which is skipped; anything else is refused. */
  ghost function ArgUses(table: Table, args: seq<string>): (r: Option<Parsed>)
    requires args != []
    ensures r.Some? ==> |r.value.rest| < |args|
  {
    var data, rest := args[0], args[1..];
    if data == "" || data[0] != '-' then None
    else if |data| == 1 || data[1] != '-' then ShortUses(table, data[1..], rest)
    else if |data| == 2 then Some(Parsed([], rest))
    else LongUses(table, data[2..], rest)
  }

  /** All the arguments. */
  ghost function AllUses(table: Table, args: seq<string>): Option<Parsed>
    decreases |args|
  {
    if args == [] then Some(Parsed([], []))
    else
      var p := ArgUses(table, args);
      if p.None? then None else Prepend(p.value.uses, AllUses(table, p.value.rest))
  }

  lemma AllUsesStep(table: Table, args: seq<string>)
    requires args != []
    ensures var p := ArgUses(table, args);
            AllUses(table, args) == if p.None? then None else Prepend(p.value.uses, AllUses(table, p.value.rest))
  {
  }

  /** "--" is marked as the end of the options, but the loop goes on: it is merely skipped. */
  lemma DashesAreSkipped(table: Table, rest: seq<string>)
    ensures AllUses(table, ["--"] + rest) == AllUses(table, rest)
  {
    assert (["--"] + rest)[1..] == rest;
    PrependTwice([], [], AllUses(table, rest));
  }

  /** Options named after the program. */
  function Arg0Uses(table: Table, arg0: string, i: nat): (r: seq<Use>)
    requires i <= |table|
    ensures forall u :: u in r ==> u.opt < |table|
    decreases |table| - i
  {
    if i == |table| then []
    else (if table[i].arg0name == Some(arg0) then [Use(i, None)] else []) + Arg0Uses(table, arg0, i + 1)
  }

  // ---- Masks ----

  /** The bits set by the first n uses. */
  function MaskOf(table: Table, uses: seq<Use>): Mask
    requires forall u :: u in uses ==> u.opt < |table|
  {
    if uses == [] then {} else MaskOf(table, uses[..|uses| - 1]) + table[uses[|uses| - 1].opt].sets
  }

  /** The conflict test of nn_process_option. */
  predicate Clash(mask: Mask, opt: Opt) { mask * opt.conflicts != {} }

  /** Whether the value of an option is one nn_process_option accepts. */
  type Takes = Use -> bool

  /** Every use is accepted, and conflicts with nothing set before it. */
  ghost predicate NoConflict(table: Table, takes: Takes, uses: seq<Use>) {
    && (forall u :: u in uses ==> u.opt < |table| && takes(u))
    && forall k :: 0 <= k < |uses| ==> !Clash(MaskOf(table, uses[..k]), table[uses[k].opt])
  }

  lemma MaskStep(table: Table, uses: seq<Use>, u: Use)
    requires u.opt < |table| && forall v :: v in uses ==> v.opt < |table|
    ensures forall v :: v in uses + [u] ==> v.opt < |table|
    ensures MaskOf(table, uses + [u]) == MaskOf(table, uses) + table[u.opt].sets
  {
    assert (uses + [u])[..|uses|] == uses;
  }

  lemma NoConflictStep(table: Table, takes: Takes, uses: seq<Use>, u: Use)
    requires NoConflict(table, takes, uses)
    ensures NoConflict(table, takes, uses + [u]) <==>
            u.opt < |table| && takes(u) && !Clash(MaskOf(table, uses), table[u.opt])
  {
    hide MaskOf;
    var after := uses + [u];
    assert after[|uses|] == u && u in after && after[..|uses|] == uses;
    if u.opt < |table| && takes(u) && !Clash(MaskOf(table, uses), table[u.opt]) {
      forall k | 0 <= k < |after| ensures !Clash(MaskOf(table, after[..k]), table[after[k].opt]) {
        assert after[..k] == uses[..k];
        assert k < |uses| ==> after[k] == uses[k];
      }
    }
  }

  /** A line refused at some use is refused however it goes on. */
  lemma NoConflictPrefix(table: Table, takes: Takes, uses: seq<Use>, more: seq<Use>)
    requires NoConflict(table, takes, uses + more)
    ensures NoConflict(table, takes, uses)
  {
    hide MaskOf;
    var all := uses + more;
    forall k | 0 <= k < |uses|
        ensures uses[k].opt < |table| && takes(uses[k]) && !Clash(MaskOf(table, uses[..k]), table[uses[k].opt]) {
      assert all[k] == uses[k] && all[k] in all && all[..k] == uses[..k];
    }
  }

  /** Equivalently, the uses are compatible in pairs, the later with the earlier. */
  lemma Pairwise(table: Table, takes: Takes, uses: seq<Use>)
    requires forall u :: u in uses ==> u.opt < |table| && takes(u)
    ensures NoConflict(table, takes, uses) <==>
            forall k, l :: 0 <= k < l < |uses| ==> table[uses[k].opt].sets !! table[uses[l].opt].conflicts
  {
    forall l | 0 <= l < |uses|
        ensures ClearOf(table, uses, l, table[uses[l].opt].conflicts) <==>
            !Clash(MaskOf(table, uses[..l]), table[uses[l].opt]) {
      ClearIff(table, uses, l, table[uses[l].opt].conflicts);
    }
    hide MaskOf;
    assert forall l :: 0 <= l < |uses| ==> (ClearOf(table, uses, l, table[uses[l].opt].conflicts)
                                            <==> forall k :: 0 <= k < l ==>
                                                table[uses[k].opt].sets !! table[uses[l].opt].conflicts);
  }

  /** None of the first n uses sets one of the bits. */
  ghost predicate ClearOf(table: Table, uses: seq<Use>, n: nat, bits: Mask)
    requires n <= |uses| && forall u :: u in uses ==> u.opt < |table|
  {
    forall k :: 0 <= k < n ==> table[uses[k].opt].sets !! bits
  }

  lemma ClearIff(table: Table, uses: seq<Use>, n: nat, bits: Mask)
    requires n <= |uses| && forall u :: u in uses ==> u.opt < |table|
    ensures ClearOf(table, uses, n, bits) <==> MaskOf(table, uses[..n]) * bits == {}
  {
    MaskMembers(table, uses, n);
    hide MaskOf;
    var m := MaskOf(table, uses[..n]);
    if m * bits == {} {
      forall k | 0 <= k < n ensures table[uses[k].opt].sets !! bits {
        forall b | b in table[uses[k].opt].sets ensures b !in bits { assert b in m; assert b !in m * bits; }
      }
    }
  }

  lemma {:induction false} MaskMembers(table: Table, uses: seq<Use>, n: nat)
    requires n <= |uses| && forall u :: u in uses ==> u.opt < |table|
    ensures forall b :: b in MaskOf(table, uses[..n]) <==> exists k :: 0 <= k < n && b in table[uses[k].opt].sets
  {
    if n > 0 {
      MaskMembers(table, uses, n - 1);
      assert uses[..n][..n - 1] == uses[..n - 1];
    }
  }

  /** Which options have been used. */
  ghost predicate Noted(table: Table, usage: seq<bool>, uses: seq<Use>) {
    |usage| == |table| && forall i :: 0 <= i < |table| ==> (usage[i] <==> Used(uses, i))
  }

  ghost predicate Used(uses: seq<Use>, i: nat) { exists u :: u in uses && u.opt == i }

  lemma NotedStep(table: Table, usage: seq<bool>, uses: seq<Use>, u: Use)
    requires Noted(table, usage, uses) && u.opt < |table|
    ensures Noted(table, usage[u.opt := true], uses + [u])
  {
    forall i | 0 <= i < |table| ensures usage[u.opt := true][i] <==> Used(uses + [u], i) {
      if usage[i] { var v :| v in uses && v.opt == i; assert v in uses + [u]; }
      assert u in uses + [u];
    }
  }

  /** The mask and the notes that go with the uses accepted so far. */
  ghost predicate Held(table: Table, takes: Takes, mask: Mask, usage: seq<bool>, uses: seq<Use>) {
    NoConflict(table, takes, uses) && mask == MaskOf(table, uses) && Noted(table, usage, uses)
  }

  lemma HeldStep(table: Table, takes: Takes, mask: Mask, usage: seq<bool>, uses: seq<Use>, u: Use)
    requires Held(table, takes, mask, usage, uses) && u.opt < |table|
    ensures |usage| == |table|
    ensures if Clash(mask, table[u.opt]) || !takes(u) then !NoConflict(table, takes, uses + [u])
            else Held(table, takes, mask + table[u.opt].sets, usage[u.opt := true], uses + [u])
  {
    assert |usage| == |table|;
    hide MaskOf, Noted, Clash;
    NoConflictStep(table, takes, uses, u);
    MaskStep(table, uses, u);
    NotedStep(table, usage, uses, u);
  }

  /** What nn_check_requires asks of the final mask. */
  ghost predicate Satisfied(table: Table, required: Mask, uses: seq<Use>)
    requires forall u :: u in uses ==> u.opt < |table|
  {
    && (forall u :: u in uses ==> table[u.opt].needs <= MaskOf(table, uses))
    && required <= MaskOf(table, uses)
  }

  /** The program's name without its directories. */
  function Basename(path: string): string { if '/' in path then Basename(path[1..]) else path }

  /** The options named after the program take no argument, as nn_parse_arg0 asserts. */
  predicate Arg0Fits(table: Table, arg0: string) {
    forall i :: 0 <= i < |table| && table[i].arg0name == Some(arg0) ==> !table[i].hasArg
  }

  /** All the uses of a command line, those named after the program first. */
  ghost function AllOf(table: Table, argv: seq<string>): Option<seq<Use>>
    requires argv != []
  {
    var uses := AllUses(table, argv[1..]);
    if uses.None? then None else Some(Arg0Uses(table, Basename(argv[0]), 0) + uses.value.uses)
  }

  /** The command lines that nn_parse_options accepts. */
  ghost predicate Acceptable(table: Table, takes: Takes, required: Mask, argv: seq<string>)
    requires argv != []
  {
    var uses := AllOf(table, argv);
    && Arg0Fits(table, Basename(argv[0]))
    && uses.Some? && NoConflict(table, takes, uses.value) && Satisfied(table, required, uses.value)
  }

  /** struct nn_parse_context.  A method that finds an error returns false; the C code exits,
      or, in nn_parse_arg0, fails an assertion. */
  class Context {
    const table: Table
    const takes: Takes
    const requiredBits: Mask
    const argv: seq<string>
    var mask: Mask
    /** The index of the current argument, and what is left of it. */
    var arg: nat
    var data: string
    var usage: seq<bool>
    ghost var uses: seq<Use>

    ghost predicate Valid()
      reads this
    {
      Held(table, takes, mask, usage, uses) && arg < |argv|
    }

    /** The start of nn_parse_options. */
    constructor (table: Table, takes: Takes, requiredBits: Mask, argv: seq<string>)
      requires argv != []
      ensures Valid() && uses == [] && arg == 0
      ensures this.table == table && this.takes == takes && this.requiredBits == requiredBits && this.argv == argv
    {
      this.table, this.takes, this.requiredBits, this.argv := table, takes, requiredBits, argv;
      mask, arg, data, usage, uses := {}, 0, "", seq(|table|, i => false), [];
    }

    /** nn_process_option, after the use has been noted in last_option_usage. */
    method Process(u: Use) returns (ok: bool)
      requires Valid() && u.opt < |table|
      modifies this`mask, this`usage, this`uses
      ensures ok ==> Valid() && uses == old(uses) + [u]
      ensures !ok ==> !NoConflict(table, takes, old(uses) + [u])
    {
      HeldStep(table, takes, mask, usage, uses, u);
      hide Held, NoConflict, Clash;
      usage := usage[u.opt := true];
      var opt := table[u.opt];
      ok := !Clash(mask, opt) && takes(u);
      if ok {
        mask := mask + opt.sets;
        uses := uses + [u];
      }
    }

    /** nn_get_arg. */
    method GetArg() returns (more: bool)
      requires arg < |argv|
      modifies this`arg, this`data
      ensures more == (old(arg) + 1 < |argv|)
      ensures if more then arg == old(arg) + 1 && data == argv[arg] else arg == old(arg) && data == old(data)
    {
      if arg + 1 == |argv| { return false; }
      arg := arg + 1;
      data := argv[arg];
      return true;
    }

    /** An option found by its name, with the argument given along with it, if any. */
    method ParseOne(i: nat, inline: Option<string>) returns (ok: bool)
      requires Valid() && i < |table|
      modifies this
      ensures ok ==> Valid()
      ensures arg < |argv|
      ensures Outcome(table, takes, old(uses), Single(table, i, inline, old(argv[arg + 1..])), ok, uses,
          argv[arg + 1..])
    {
      hide NoConflict, Held;
      ghost var rest := argv[arg + 1..];
      if !table[i].hasArg {
        if inline.Some? { return false; }
        ok := Process(Use(i, None));
      } else if inline.Some? {
        ok := Process(Use(i, inline));
      } else {
        var more := GetArg();
        if !more { return false; }
        assert argv[arg] == rest[0] && argv[arg + 1..] == rest[1..];
        ok := Process(Use(i, Some(data)));
      }
    }

    /** nn_parse_long_option, after the two dashes. */
    method ParseLong(body: string) returns (ok: bool)
      requires Valid()
      modifies this
      ensures ok ==> Valid()
      ensures arg < |argv|
      ensures Outcome(table, takes, old(uses), LongUses(table, body, old(argv[arg + 1..])), ok, uses, argv[arg + 1..])
    {
      hide NoConflict, Held, Resolves;
      var best, longest := FindLong(table, body);
      assert LongOption(table, Word(body)) == if best.Found? then Some(best.opt) else None;
      if !best.Found? { return false; }
      ok := ParseOne(best.opt, if longest < |body| then Some(body[longest + 1..]) else None);
    }

    /** nn_parse_short_option; `step` is what it added. */
    method ParseShort() returns (ok: bool, ghost step: seq<Use>)
      requires Valid() && data != ""
      modifies this
      ensures arg < |argv| && (ok ==> Valid() && |data| < |old(data)|)
      ensures Advance(table, takes, old(uses), ShortUses(table, old(data), old(argv[arg + 1..])), ok, step, uses,
          ShortUses(table, data, argv[arg + 1..]))
    {
      hide NoConflict, Held;
      ghost var u, rest := uses, argv[arg + 1..];
      step := [];
      var i := FindShort(table, data[0], 0);
      if i.None? { return false, []; }
      if table[i.value].hasArg {
        ok := ParseOne(i.value, if |data| > 1 then Some(data[1..]) else None);
        step := uses[if |u| <= |uses| then |u| else 0..];
        data := "";
        assert step + [] == step;
      } else {
        step := [Use(i.value, None)];
        ok := Process(Use(i.value, None));
        if !ok { RefusedMore(table, takes, u, step, ShortUses(table, data[1..], rest)); }
        data := data[1..];
      }
    }

    /** The loop of nn_parse_arg over a bundle of short options. */
    method ParseShorts() returns (ok: bool)
      requires Valid()
      modifies this
      ensures ok ==> Valid()
      ensures arg < |argv|
      ensures Outcome(table, takes, old(uses), ShortUses(table, old(data), old(argv[arg + 1..])), ok, uses,
          argv[arg + 1..])
    {
      hide NoConflict, Held, ShortUses, Prepend, Refuses, Sofar, Advance, Outcome;
      ghost var done, says := [], ShortUses(table, data, argv[arg + 1..]);
      Begins(uses, says);
      while data != ""
        invariant Valid() && Sofar(old(uses), done, says, uses, ShortUses(table, data, argv[arg + 1..]))
        decreases |data|
      {
        ghost var step, was, more := [], uses, ShortUses(table, data, argv[arg + 1..]);
        ok, step := ParseShort();
        GoesOn(table, takes, old(uses), done, says, was, more, ok, step, uses,
            ShortUses(table, data, argv[arg + 1..]), argv[arg + 1..]);
        if !ok { return false; }
        done := done + step;
      }
      ShortUsesEnd(table, argv[arg + 1..]);
      Ends(table, takes, old(uses), done, says, uses, argv[arg + 1..]);
      return true;
    }

    /** nn_parse_arg. */
    method ParseArg() returns (ok: bool)
      requires Valid() && data == argv[arg]
      modifies this
      ensures ok ==> Valid()
      ensures arg < |argv|
      ensures Outcome(table, takes, old(uses), ArgUses(table, old(argv[arg..])), ok, uses, argv[arg + 1..])
    {
      hide NoConflict, Held;
      assert argv[arg..][0] == data && argv[arg..][1..] == argv[arg + 1..];
      if data == "" || data[0] != '-' { return false; }
      if |data| > 1 && data[1] == '-' {
        if |data| == 2 { assert uses[|uses|..] == []; return true; }
        ok := ParseLong(data[2..]);
      } else {
        data := data[1..];
        ok := ParseShorts();
      }
    }

    /** One turn of the loop of nn_parse_options; `step` is what it added. */
    method ParseNext() returns (ok: bool, ghost step: seq<Use>)
      requires Valid() && arg + 1 < |argv|
      modifies this
      ensures arg < |argv| && (ok ==> Valid() && arg > old(arg))
      ensures Advance(table, takes, old(uses), AllUses(table, old(argv[arg + 1..])), ok, step, uses,
          AllUses(table, argv[arg + 1..]))
    {
      hide NoConflict, Held, ArgUses, AllUses, Refuses;
      ghost var u, args := uses, argv[arg + 1..];
      AllUsesStep(table, args);
      var more := GetArg();
      ok := ParseArg();
      ghost var p := ArgUses(table, args);
      step := [];
      if ok { step := uses[|u|..]; }
      if !ok { RefusedArg(table, takes, u, p, if p.Some? then AllUses(table, p.value.rest) else None); }
    }

    /** The loop of nn_parse_options over the arguments. */
    method ParseArgs() returns (ok: bool)
      requires Valid() && arg == 0
      modifies this
      ensures ok ==> Valid()
      ensures Outcome(table, takes, old(uses), AllUses(table, argv[1..]), ok, uses, [])
    {
      hide NoConflict, Held, AllUses, Prepend, Refuses, Sofar, Advance, Outcome;
      ghost var done, says := [], AllUses(table, argv[1..]);
      Begins(uses, says);
      while arg + 1 < |argv|
        invariant Valid() && Sofar(old(uses), done, says, uses, AllUses(table, argv[arg + 1..]))
        decreases |argv| - arg
      {
        ghost var step, was, more := [], uses, AllUses(table, argv[arg + 1..]);
        ok, step := ParseNext();
        GoesOn(table, takes, old(uses), done, says, was, more, ok, step, uses, AllUses(table, argv[arg + 1..]), []);
        if !ok { return false; }
        done := done + step;
      }
      AllUsesEnd(table, argv[arg + 1..]);
      Ends(table, takes, old(uses), done, says, uses, []);
      ok := true;
    }

    /** nn_parse_arg0. */
    method ParseArg0(arg0: string) returns (ok: bool)
      requires Valid() && uses == []
      modifies this
      ensures ok ==> Valid() && uses == Arg0Uses(table, arg0, 0) && arg == old(arg) && Arg0Fits(table, arg0)
      ensures !ok ==> !Arg0Fits(table, arg0) || !NoConflict(table, takes, Arg0Uses(table, arg0, 0))
    {
      hide NoConflict, Held, Arg0Uses;
      var i := 0;
      while i < |table|
        invariant 0 <= i <= |table| && Valid() && arg == old(arg)
        invariant Arg0Uses(table, arg0, 0) == uses + Arg0Uses(table, arg0, i)
        invariant forall j :: 0 <= j < i && table[j].arg0name == Some(arg0) ==> !table[j].hasArg
      {
        Arg0Step(table, arg0, i, uses);
        if table[i].arg0name == Some(arg0) {
          if table[i].hasArg { return false; }
          ghost var was := uses;
          ok := Process(Use(i, None));
          if !ok { Arg0Refused(table, takes, arg0, i, was); return false; }
        }
        i := i + 1;
      }
      Arg0End(table, arg0, uses);
      ok := true;
    }

    /** nn_check_requires. */
    method CheckRequires() returns (ok: bool)
      requires Valid()
      ensures ok <==> Satisfied(table, requiredBits, uses)
    {
      var i := 0;
      while i < |table|
        invariant 0 <= i <= |table|
        invariant forall j :: 0 <= j < i && usage[j] ==> table[j].needs <= mask
      {
        if usage[i] && !(table[i].needs <= mask) {
          assert Used(uses, i);
          return false;
        }
        i := i + 1;
      }
      forall u | u in uses ensures table[u.opt].needs <= mask { assert Used(uses, u.opt) && usage[u.opt]; }
      ok := requiredBits <= mask;
    }
  }

  /** How far a part of the parser got: it accepted what the arguments say, or there is a
      mistake in them, or one of the uses they stand for is refused. */
  ghost predicate Outcome(table: Table, takes: Takes, before: seq<Use>, says: Option<Parsed>, ok: bool,
    after: seq<Use>, rest: seq<string>) {
    if ok then before <= after && says == Some(Parsed(after[|before|..], rest)) else Refuses(table, takes, before, says)
  }

  /** There is a mistake in the arguments, or one of the uses they stand for is refused. */
  ghost predicate Refuses(table: Table, takes: Takes, before: seq<Use>, says: Option<Parsed>) {
    says.None? || !NoConflict(table, takes, before + says.value.uses)
  }

  /** One turn of a loop: the step it took comes first in what was to be read. */
  ghost predicate Advance(table: Table, takes: Takes, before: seq<Use>, says: Option<Parsed>, ok: bool,
    step: seq<Use>, after: seq<Use>, more: Option<Parsed>) {
    if ok then after == before + step && says == Prepend(step, more) else Refuses(table, takes, before, says)
  }

  /** What a loop keeps: what it has done and what is still to be read make up the whole. */
  ghost predicate Sofar(before: seq<Use>, done: seq<Use>, says: Option<Parsed>, uses: seq<Use>, more: Option<Parsed>) {
    uses == before + done && says == Prepend(done, more)
  }

  lemma Begins(uses: seq<Use>, says: Option<Parsed>)
    ensures Sofar(uses, [], says, uses, says)
  {
    PrependTwice([], [], says);
  }

  lemma GoesOn(table: Table, takes: Takes, before: seq<Use>, done: seq<Use>, says: Option<Parsed>, was: seq<Use>,
    more: Option<Parsed>,
               ok: bool, step: seq<Use>, uses: seq<Use>, next: Option<Parsed>, rest: seq<string>)
    requires Sofar(before, done, says, was, more) && Advance(table, takes, was, more, ok, step, uses, next)
    ensures if ok then Sofar(before, done + step, says, uses, next)
        else Outcome(table, takes, before, says, ok, uses, rest)
  {
    hide Prepend, NoConflict;
    if ok { PrependTwice(done, step, next); } else { RefusedLater(table, takes, before, done, more); }
  }

  lemma Ends(table: Table, takes: Takes, before: seq<Use>, done: seq<Use>, says: Option<Parsed>, uses: seq<Use>,
    rest: seq<string>)
    requires Sofar(before, done, says, uses, Some(Parsed([], rest)))
    ensures Outcome(table, takes, before, says, true, uses, rest)
  {
    assert done + [] == done;
  }

  lemma Arg0Step(table: Table, arg0: string, i: nat, uses: seq<Use>)
    requires i < |table|
    ensures uses + Arg0Uses(table, arg0, i) ==
            (if table[i].arg0name == Some(arg0) then uses + [Use(i, None)] else uses) + Arg0Uses(table, arg0, i + 1)
  {
  }

  lemma Arg0End(table: Table, arg0: string, uses: seq<Use>)
    ensures uses + Arg0Uses(table, arg0, |table|) == uses
  {
  }

  lemma Arg0Refused(table: Table, takes: Takes, arg0: string, i: nat, uses: seq<Use>)
    requires i < |table| && Arg0Uses(table, arg0, 0) == uses + [Use(i, None)] + Arg0Uses(table, arg0, i + 1)
    requires !NoConflict(table, takes, uses + [Use(i, None)])
    ensures !NoConflict(table, takes, Arg0Uses(table, arg0, 0))
  {
    if NoConflict(table, takes, Arg0Uses(table, arg0, 0)) {
      NoConflictPrefix(table, takes, uses + [Use(i, None)], Arg0Uses(table, arg0, i + 1));
    }
  }

  lemma ShortUsesEnd(table: Table, rest: seq<string>)
    ensures ShortUses(table, "", rest) == Some(Parsed([], rest))
  {
  }

  lemma AllUsesEnd(table: Table, args: seq<string>)
    requires args == []
    ensures AllUses(table, args) == Some(Parsed([], []))
  {
  }

  lemma RefusedMore(table: Table, takes: Takes, before: seq<Use>, some: seq<Use>, more: Option<Parsed>)
    requires !NoConflict(table, takes, before + some)
    ensures Refuses(table, takes, before, Prepend(some, more))
  {
    if more.Some? {
      assert before + (some + more.value.uses) == (before + some) + more.value.uses;
      if NoConflict(table, takes, (before + some) + more.value.uses) {
        NoConflictPrefix(table, takes, before + some, more.value.uses);
      }
    }
  }

  lemma RefusedArg(table: Table, takes: Takes, before: seq<Use>, p: Option<Parsed>, after: Option<Parsed>)
    requires Refuses(table, takes, before, p)
    ensures Refuses(table, takes, before, if p.None? then None else Prepend(p.value.uses, after))
  {
    if p.Some? { RefusedMore(table, takes, before, p.value.uses, after); }
  }

  lemma RefusedLater(table: Table, takes: Takes, before: seq<Use>, done: seq<Use>, more: Option<Parsed>)
    requires Refuses(table, takes, before + done, more)
    ensures Refuses(table, takes, before, Prepend(done, more))
  {
    assert more.Some? ==> before + (done + more.value.uses) == (before + done) + more.value.uses;
  }

  /** nn_parse_options: it accepts exactly the command lines it should. */
  method ParseOptions(table: Table, takes: Takes, required: Mask, argv: seq<string>) returns (ok: bool, ctx: Context)
    requires argv != []
    ensures fresh(ctx) && (ok <==> Acceptable(table, takes, required, argv))
    ensures ok ==> ctx.Valid() && Some(ctx.uses) == AllOf(table, argv)
  {
    hide NoConflict, MaskOf, Noted, Satisfied, AllUses;
    ctx := new Context(table, takes, required, argv);
    ok := ctx.ParseArg0(Basename(argv[0]));
    ghost var first, says := Arg0Uses(table, Basename(argv[0]), 0), AllUses(table, argv[1..]);
    if !ok {
      assert [] + first == first;
      if Arg0Fits(table, Basename(argv[0])) { RefusedMore(table, takes, [], first, says); }
      assert says.Some? ==> [] + (first + says.value.uses) == first + says.value.uses;
    } else {
      ok := ctx.ParseArgs();
      if ok {
        assert ctx.uses == first + ctx.uses[|first|..];
        ok := ctx.CheckRequires();
      }
    }
  }
}
