/**
 * The command line of `cargo single`: the subcommand, then options, then
 * the source path, then arguments forwarded to the built program.
 */
module CommandLine {
  import opened Base

  /** Why `main` stops through `fatal_exit`. */
  datatype Failure =
    | Usage
    | ReleaseAlreadySeen
    | TargetAlreadySeen
    | TargetNeedsArgument
    | ToolchainAlreadySet
    | NotADirectory

  /** The options that may be given at most once (`CargoOpts`). */
  datatype CargoOpt = Release | Target | Toolchain

  /** The variables of the option loop. */
  datatype Scan = Scan(cargoArgs: seq<string>, seen: set<CargoOpt>, quiet: bool, toolchain: Option<string>)

  const Initial := Scan([], {}, true, None)

  /** A parsed command line. */
  datatype Invocation = Invocation(
    cmd: string,
    cargoArgs: seq<string>,
    quiet: bool,
    toolchain: Option<string>,
    source: string,
    forwarded: seq<string>)

  predicate IsCommand(cmd: string) {
    cmd == "build" || cmd == "check" || cmd == "fmt" || cmd == "run" || cmd == "refresh"
  }

  /**
   * The option loop on the arguments after the subcommand: the state reached
   * and the arguments left (the source path first) when an argument that is
   * not an option is met.
   */
  function Options(args: seq<string>, st: Scan): (r: Result<(Scan, seq<string>), Failure>)
    ensures r.Ok? ==> |r.value.1| <= |args|
    ensures r.Ok? ==> r.value.1 == [] || !IsOptionWord(r.value.1[0])
    ensures r.Err? ==> r.error != Usage && r.error != NotADirectory
  {
    if args == [] then Ok((st, []))
    else
      var arg := args[0];
      if arg == "--no-quiet" then
        Options(args[1..], st.(quiet := false))
      else if arg == "--release" then
        if Release in st.seen then Err(ReleaseAlreadySeen)
        else Options(args[1..], st.(seen := st.seen + {Release}, cargoArgs := st.cargoArgs + [arg]))
      else if arg == "--target" then
        if Target in st.seen then Err(TargetAlreadySeen)
        else if |args| < 2 then Err(TargetNeedsArgument)
        else Options(args[2..], st.(seen := st.seen + {Target}, cargoArgs := st.cargoArgs + [arg, args[1]]))
      else if StartsWith(arg, "+") then
        if Toolchain in st.seen then Err(ToolchainAlreadySet)
        else Options(args[1..], st.(seen := st.seen + {Toolchain}, toolchain := Some(arg)))
      else Ok((st, args))
  }

  /** `argv` is the whole process argument list: the program, `single`, the subcommand, ... */
  function Parse(argv: seq<string>): (r: Result<Invocation, Failure>)
    ensures r.Ok? ==> |argv| >= 4 && IsCommand(argv[2]) && r.value.cmd == argv[2]
    ensures r.Ok? ==> !IsOptionWord(r.value.source)
    ensures r.Ok? ==> |r.value.forwarded| < |argv| - 3
  {
    if |argv| < 3 || !IsCommand(argv[2]) then Err(Usage)
    else match Options(argv[3..], Initial)
      case Err(e) => Err(e)
      case Ok((st, left)) =>
        if left == [] then Err(Usage)
        else Ok(Invocation(argv[2], st.cargoArgs, st.quiet, st.toolchain, left[0], left[1..]))
  }

  /** The parsing part of `main`. */
  method ParseArgs(argv: seq<string>) returns (r: Result<Invocation, Failure>)
    ensures r == Parse(argv)
  {
    if |argv| < 3 {
      return Err(Usage);
    }
    var cmd := argv[2];
    if !IsCommand(cmd) {
      return Err(Usage);
    }
    var cargoArgs: seq<string> := [];
    var seen: set<CargoOpt> := {};
    var rest: seq<string> := [];
    var isQuiet := true;
    var toolchain: Option<string> := None;
    var i := 3;
    while i < |argv|
      invariant 3 <= i <= |argv|
      invariant rest == []
      invariant Options(argv[3..], Initial) == Options(argv[i..], Scan(cargoArgs, seen, isQuiet, toolchain))
    {
      var arg := argv[i];
      assert argv[i..][0] == arg && argv[i..][1..] == argv[i + 1..];
      if arg == "--no-quiet" {
        isQuiet := false;
        i := i + 1;
      } else if arg == "--release" {
        if Release in seen {
          return Err(ReleaseAlreadySeen);
        }
        seen := seen + {Release};
        cargoArgs := cargoArgs + [arg];
        i := i + 1;
      } else if arg == "--target" {
        if Target in seen {
          return Err(TargetAlreadySeen);
        }
        seen := seen + {Target};
        if i + 1 < |argv| {
          assert argv[i..][2..] == argv[i + 2..];
          cargoArgs := cargoArgs + [arg, argv[i + 1]];
          i := i + 2;
        } else {
          return Err(TargetNeedsArgument);
        }
      } else if StartsWith(arg, "+") {
        if Toolchain in seen {
          return Err(ToolchainAlreadySet);
        }
        seen := seen + {Toolchain};
        toolchain := Some(arg);
        i := i + 1;
      } else {
        assert Options(argv[i..], Scan(cargoArgs, seen, isQuiet, toolchain))
            == Ok((Scan(cargoArgs, seen, isQuiet, toolchain), argv[i..]));
        rest := rest + argv[i + 1..];
        rest := rest + [arg];
        break;
      }
    }
    if rest == [] {
      assert argv[i..] == [];
      return Err(Usage);
    }
    assert rest == argv[i + 1..] + [argv[i]];
    var source := rest[|rest| - 1];
    rest := rest[..|rest| - 1];
    assert source == argv[i..][0] && rest == argv[i..][1..];
    r := Ok(Invocation(cmd, cargoArgs, isQuiet, toolchain, source, rest));
  }

  // A declarative reading of the option loop: the options as the user wrote them.

  datatype OptionWord = NoQuietFlag | ReleaseFlag | TargetFlag(target: string) | ToolchainFlag(name: string)

  predicate WellFormed(o: OptionWord) {
    o.ToolchainFlag? ==> StartsWith(o.name, "+")
  }

  /** An argument the option loop takes for an option. */
  predicate IsOptionWord(w: string) {
    w == "--no-quiet" || w == "--release" || w == "--target" || StartsWith(w, "+")
  }

  function WordsOf(o: OptionWord): seq<string> {
    match o
    case NoQuietFlag => ["--no-quiet"]
    case ReleaseFlag => ["--release"]
    case TargetFlag(t) => ["--target", t]
    case ToolchainFlag(n) => [n]
  }

  /** The arguments that spell the options. */
  function Words(opts: seq<OptionWord>): seq<string> {
    if opts == [] then [] else WordsOf(opts[0]) + Words(opts[1..])
  }

  function KindOf(o: OptionWord): Option<CargoOpt> {
    match o
    case NoQuietFlag => None
    case ReleaseFlag => Some(Release)
    case TargetFlag(_) => Some(Target)
    case ToolchainFlag(_) => Some(Toolchain)
  }

  function KindSet(o: OptionWord): set<CargoOpt> {
    if KindOf(o).Some? then {KindOf(o).value} else {}
  }

  /** The kinds of once-only options among `opts`. */
  function Kinds(opts: seq<OptionWord>): set<CargoOpt> {
    if opts == [] then {} else KindSet(opts[0]) + Kinds(opts[1..])
  }

  /** No option that may be given once is given twice. */
  predicate AtMostOnce(opts: seq<OptionWord>) {
    opts == [] || (KindSet(opts[0]) !! Kinds(opts[1..]) && AtMostOnce(opts[1..]))
  }

  /** The words an option passes on to cargo. */
  function CargoWordsOf(o: OptionWord): seq<string> {
    if o.ReleaseFlag? || o.TargetFlag? then WordsOf(o) else []
  }

  /** The options passed on to cargo, in order. */
  function CargoWords(opts: seq<OptionWord>): seq<string> {
    if opts == [] then [] else CargoWordsOf(opts[0]) + CargoWords(opts[1..])
  }

  function ToolchainOf(opts: seq<OptionWord>): Option<string> {
    if opts == [] then None
    else if opts[0].ToolchainFlag? then Some(opts[0].name)
    else ToolchainOf(opts[1..])
  }

  /** The loop state once the options `opts` have been read from state `st`. */
  function After(opts: seq<OptionWord>, st: Scan): Scan {
    Scan(st.cargoArgs + CargoWords(opts),
         st.seen + Kinds(opts),
         st.quiet && NoQuietFlag !in opts,
         if ToolchainOf(opts).Some? then ToolchainOf(opts) else st.toolchain)
  }

  lemma ToolchainIsOptionWord(n: string)
    requires StartsWith(n, "+")
    ensures n != "--no-quiet" && n != "--release" && n != "--target"
  {
    assert n[0] == '+';
  }

  /** The loop state after one option. */
  function Step(o: OptionWord, st: Scan): Scan {
    Scan(st.cargoArgs + CargoWordsOf(o),
         st.seen + KindSet(o),
         st.quiet && o != NoQuietFlag,
         if o.ToolchainFlag? then Some(o.name) else st.toolchain)
  }

  lemma OptionsStep(o: OptionWord, rest: seq<string>, st: Scan)
    requires WellFormed(o)
    requires KindSet(o) !! st.seen
    ensures Options(WordsOf(o) + rest, st) == Options(rest, Step(o, st))
  {
    var args := WordsOf(o) + rest;
    assert args[0] == WordsOf(o)[0];
    assert args[|WordsOf(o)|..] == rest;
    match o {
      case NoQuietFlag => assert Step(o, st) == st.(quiet := false);
      case ReleaseFlag =>
        assert Step(o, st) == st.(seen := st.seen + {Release}, cargoArgs := st.cargoArgs + ["--release"]);
      case TargetFlag(t) =>
        assert Step(o, st) == st.(seen := st.seen + {Target}, cargoArgs := st.cargoArgs + ["--target", t]);
      case ToolchainFlag(n) =>
        ToolchainIsOptionWord(n);
        assert Step(o, st) == st.(seen := st.seen + {Toolchain}, toolchain := Some(n));
    }
  }

  lemma {:induction false} ToolchainOfNone(opts: seq<OptionWord>)
    requires Toolchain !in Kinds(opts)
    ensures ToolchainOf(opts) == None
  {
    if opts != [] {
      ToolchainOfNone(opts[1..]);
    }
  }

  lemma AfterStep(opts: seq<OptionWord>, st: Scan)
    requires opts != [] && AtMostOnce(opts)
    ensures After(opts[1..], Step(opts[0], st)) == After(opts, st)
  {
    var o, os := opts[0], opts[1..];
    assert NoQuietFlag in opts <==> o == NoQuietFlag || NoQuietFlag in os by {
      assert opts == [o] + os;
    }
    if o.ToolchainFlag? {
      ToolchainOfNone(os);
    }
    CargoWordsStep(opts, st.cargoArgs);
    KindsStep(opts, st.seen);
  }

  lemma CargoWordsStep(opts: seq<OptionWord>, prefix: seq<string>)
    requires opts != []
    ensures prefix + CargoWordsOf(opts[0]) + CargoWords(opts[1..]) == prefix + CargoWords(opts)
  {
    var a, b := CargoWordsOf(opts[0]), CargoWords(opts[1..]);
    assert CargoWords(opts) == a + b;
    assert prefix + a + b == prefix + (a + b);
  }

  lemma KindsStep(opts: seq<OptionWord>, seen: set<CargoOpt>)
    requires opts != []
    ensures seen + KindSet(opts[0]) + Kinds(opts[1..]) == seen + Kinds(opts)
  {
  }

  /** Reading the words of well-formed options, each kind at most once, leaves the loop in state `After`. */
  lemma {:induction false} OptionsRead(opts: seq<OptionWord>, tail: seq<string>, st: Scan)
    requires forall o <- opts :: WellFormed(o)
    requires AtMostOnce(opts) && Kinds(opts) !! st.seen
    ensures Options(Words(opts) + tail, st) == Options(tail, After(opts, st))
  {
    if opts == [] {
      assert Words(opts) + tail == tail;
      assert After(opts, st) == st;
    } else {
      var o, os := opts[0], opts[1..];
      assert o in opts;
      assert Words(opts) + tail == WordsOf(o) + (Words(os) + tail);
      OptionsStep(o, Words(os) + tail, st);
      assert forall k :: 0 <= k < |os| ==> os[k] == opts[k + 1];
      assert forall x <- os :: x in opts;
      assert KindOf(o).Some? ==> KindOf(o).value !in Kinds(os);
      OptionsRead(os, tail, Step(o, st));
      AfterStep(opts, st);
    }
  }

  lemma Prepend(o: OptionWord, os: seq<OptionWord>, st: Scan)
    requires WellFormed(o) && KindSet(o) !! st.seen
    requires AtMostOnce(os) && Kinds(os) !! Step(o, st).seen
    ensures AtMostOnce([o] + os) && Kinds([o] + os) !! st.seen
    ensures After([o] + os, st) == After(os, Step(o, st))
    ensures Words([o] + os) == WordsOf(o) + Words(os)
  {
    var opts := [o] + os;
    assert opts[0] == o && opts[1..] == os;
    AfterStep(opts, st);
  }

  /** The option a successful loop reads first, and how many arguments it spans. */
  lemma LeadingOption(args: seq<string>, st: Scan) returns (o: OptionWord, n: nat)
    requires args != [] && IsOptionWord(args[0]) && Options(args, st).Ok?
    ensures WellFormed(o) && (KindSet(o) !! st.seen)
    ensures n == |WordsOf(o)| <= |args| && args == WordsOf(o) + args[n..]
  {
    var arg := args[0];
    if arg == "--no-quiet" {
      o, n := NoQuietFlag, 1;
    } else if arg == "--release" {
      o, n := ReleaseFlag, 1;
    } else if arg == "--target" {
      o, n := TargetFlag(args[1]), 2;
    } else {
      o, n := ToolchainFlag(arg), 1;
    }
  }

  /** The loop stops at an argument that is not an option, or at the end. */
  lemma OptionsStop(args: seq<string>, st: Scan)
    requires args == [] || !IsOptionWord(args[0])
    ensures Options(args, st) == Ok((st, args))
  {
  }

  lemma AfterNothing(st: Scan)
    ensures After([], st) == st
  {
  }

  /** A successful option loop read the words of well-formed options, each kind at most once. */
  lemma OptionsShape(args: seq<string>, st: Scan) returns (opts: seq<OptionWord>, left: seq<string>)
    requires Options(args, st).Ok?
    ensures forall o <- opts :: WellFormed(o)
    ensures AtMostOnce(opts) && Kinds(opts) !! st.seen
    ensures args == Words(opts) + left
    ensures left == [] || !IsOptionWord(left[0])
    ensures Options(args, st) == Ok((After(opts, st), left))
    decreases |args|
  {
    if args == [] || !IsOptionWord(args[0]) {
      opts, left := [], args;
      OptionsStop(args, st);
      AfterNothing(st);
      return;
    }
    var o, n := LeadingOption(args, st);
    OptionsStep(o, args[n..], st);
    assert Options(args, st) == Options(args[n..], Step(o, st));
    var os;
    os, left := OptionsShape(args[n..], Step(o, st));
    Prepend(o, os, st);
    opts := [o] + os;
    assert forall x <- opts :: x == o || x in os;
    WordsJoin(args, WordsOf(o), Words(os), left);
  }

  lemma WordsJoin(args: seq<string>, first: seq<string>, more: seq<string>, left: seq<string>)
    requires |first| <= |args| && args == first + args[|first|..] && args[|first|..] == more + left
    ensures args == (first + more) + left
  {
  }

  predicate IsRepeatFailure(e: Failure) {
    e == ReleaseAlreadySeen || e == TargetAlreadySeen || e == ToolchainAlreadySet
  }

  /** The "already seen" failure for each kind of once-only option. */
  function RepeatError(k: CargoOpt): (e: Failure)
    ensures IsRepeatFailure(e)
  {
    match k
    case Release => ReleaseAlreadySeen
    case Target => TargetAlreadySeen
    case Toolchain => ToolchainAlreadySet
  }

  lemma WordsCons(opts: seq<OptionWord>, tail: seq<string>)
    requires opts != []
    ensures Words(opts) + tail == WordsOf(opts[0]) + (Words(opts[1..]) + tail)
  {
  }

  /** An option whose kind was already seen fails at once, with that kind's error. */
  lemma OptionRepeatHere(o: OptionWord, rest: seq<string>, st: Scan)
    requires WellFormed(o) && !(KindSet(o) !! st.seen)
    ensures KindOf(o).Some? && KindOf(o).value in st.seen
    ensures Options(WordsOf(o) + rest, st) == Err(RepeatError(KindOf(o).value))
  {
    assert (WordsOf(o) + rest)[0] == WordsOf(o)[0];
    if o.ToolchainFlag? {
      ToolchainIsOptionWord(o.name);
    }
  }

  /**
   * When some option's kind was seen before it (in `st` or earlier in
   * `opts`), the loop fails at the first such option `o`, with the error of
   * `o`'s kind; `pre` is what it read before.
   */
  lemma {:induction false} OptionsRepeat(opts: seq<OptionWord>, tail: seq<string>, st: Scan)
    returns (pre: seq<OptionWord>, o: OptionWord, post: seq<OptionWord>)
    requires forall x <- opts :: WellFormed(x)
    requires !(AtMostOnce(opts) && Kinds(opts) !! st.seen)
    ensures opts == pre + [o] + post
    ensures AtMostOnce(pre) && Kinds(pre) !! st.seen
    ensures KindOf(o).Some? && KindOf(o).value in st.seen + Kinds(pre)
    ensures Options(Words(opts) + tail, st) == Err(RepeatError(KindOf(o).value))
  {
    var x, os := opts[0], opts[1..];
    assert x in opts;
    assert forall y <- os :: y in opts;
    WordsCons(opts, tail);
    if !(KindSet(x) !! st.seen) {
      pre, o, post := [], x, os;
      OptionRepeatHere(x, Words(os) + tail, st);
      assert opts == [x] + os;
    } else {
      OptionsStep(x, Words(os) + tail, st);
      RepeatInRest(opts, st.seen);
      var rest;
      rest, o, post := OptionsRepeat(os, tail, Step(x, st));
      pre := [x] + rest;
      RepeatPrefix(x, rest, st.seen);
      Regroup(opts, x, rest, o, post);
    }
  }

  /** If the first option's kind is new, the repeat lies in the options after it. */
  lemma RepeatInRest(opts: seq<OptionWord>, seen: set<CargoOpt>)
    requires opts != [] && KindSet(opts[0]) !! seen
    requires !(AtMostOnce(opts) && Kinds(opts) !! seen)
    ensures !(AtMostOnce(opts[1..]) && Kinds(opts[1..]) !! seen + KindSet(opts[0]))
  {
  }

  lemma RepeatPrefix(x: OptionWord, rest: seq<OptionWord>, seen: set<CargoOpt>)
    requires KindSet(x) !! seen
    requires AtMostOnce(rest) && Kinds(rest) !! seen + KindSet(x)
    ensures AtMostOnce([x] + rest) && Kinds([x] + rest) !! seen
    ensures seen + KindSet(x) + Kinds(rest) == seen + Kinds([x] + rest)
  {
    var pre := [x] + rest;
    assert pre[0] == x && pre[1..] == rest;
  }

  lemma Regroup(opts: seq<OptionWord>, x: OptionWord, rest: seq<OptionWord>, o: OptionWord, post: seq<OptionWord>)
    requires opts != [] && x == opts[0] && opts[1..] == rest + [o] + post
    ensures opts == ([x] + rest) + [o] + post
  {
    assert opts == [x] + opts[1..];
  }

  // What `main` accepts and rejects, stated on the whole argument list.

  /**
   * A subcommand, well-formed options each given at most once, a source
   * argument that is not an option, and any further arguments parse into the
   * invocation those pieces describe: the further arguments are kept in
   * order, untouched, even when they look like options.
   */
  lemma ParseAccepts(prog: seq<string>, cmd: string, opts: seq<OptionWord>, source: string, forwarded: seq<string>)
    requires |prog| == 2 && IsCommand(cmd)
    requires forall o <- opts :: WellFormed(o)
    requires AtMostOnce(opts) && !IsOptionWord(source)
    ensures Parse(prog + [cmd] + Words(opts) + [source] + forwarded)
         == Ok(Invocation(cmd, CargoWords(opts), NoQuietFlag !in opts, ToolchainOf(opts), source, forwarded))
  {
    var argv := prog + [cmd] + Words(opts) + [source] + forwarded;
    assert argv[2] == cmd;
    assert argv[3..] == Words(opts) + ([source] + forwarded);
    OptionsRead(opts, [source] + forwarded, Initial);
    assert After(opts, Initial).cargoArgs == CargoWords(opts);
  }

  /** Every accepted command line has that shape. */
  lemma ParseShape(argv: seq<string>) returns (opts: seq<OptionWord>)
    requires Parse(argv).Ok?
    ensures |argv| >= 3 && IsCommand(argv[2])
    ensures forall o <- opts :: WellFormed(o)
    ensures AtMostOnce(opts)
    ensures var inv := Parse(argv).value;
      && !IsOptionWord(inv.source)
      && argv == argv[..2] + [inv.cmd] + Words(opts) + [inv.source] + inv.forwarded
      && inv == Invocation(argv[2], CargoWords(opts), NoQuietFlag !in opts, ToolchainOf(opts), inv.source, inv.forwarded)
  {
    var left;
    opts, left := OptionsShape(argv[3..], Initial);
    var sc := After(opts, Initial);
    assert left != [];
    assert Parse(argv) == Ok(Invocation(argv[2], sc.cargoArgs, sc.quiet, sc.toolchain, left[0], left[1..]));
    assert sc.cargoArgs == CargoWords(opts);
    ArgvJoin(argv, Words(opts), left);
  }

  lemma ArgvJoin(argv: seq<string>, words: seq<string>, left: seq<string>)
    requires |argv| >= 3 && argv[3..] == words + left && left != []
    ensures argv == argv[..2] + [argv[2]] + words + [left[0]] + left[1..]
  {
    assert left == [left[0]] + left[1..];
    assert argv == argv[..2] + [argv[2]] + argv[3..];
  }

  /** Options with no source argument after them are a usage error. */
  lemma ParseNeedsSource(prog: seq<string>, cmd: string, opts: seq<OptionWord>)
    requires |prog| == 2 && IsCommand(cmd)
    requires forall o <- opts :: WellFormed(o)
    requires AtMostOnce(opts)
    ensures Parse(prog + [cmd] + Words(opts)) == Err(Usage)
  {
    var argv := prog + [cmd] + Words(opts);
    assert argv[3..] == Words(opts) + [];
    OptionsRead(opts, [], Initial);
  }

  /** `--target` as the last argument is an error when it is not a repeat. */
  lemma ParseTargetWithoutValue(prog: seq<string>, cmd: string, opts: seq<OptionWord>)
    requires |prog| == 2 && IsCommand(cmd)
    requires forall o <- opts :: WellFormed(o)
    requires AtMostOnce(opts) && Target !in Kinds(opts)
    ensures Parse(prog + [cmd] + Words(opts) + ["--target"]) == Err(TargetNeedsArgument)
  {
    var argv := prog + [cmd] + Words(opts) + ["--target"];
    assert argv[3..] == Words(opts) + ["--target"];
    OptionsRead(opts, ["--target"], Initial);
  }

  /** A second `--target` is refused as a repeat before its missing value is noticed. */
  lemma ParseRepeatedTargetWithoutValue(prog: seq<string>, cmd: string, opts: seq<OptionWord>)
    requires |prog| == 2 && IsCommand(cmd)
    requires forall o <- opts :: WellFormed(o)
    requires AtMostOnce(opts) && Target in Kinds(opts)
    ensures Parse(prog + [cmd] + Words(opts) + ["--target"]) == Err(TargetAlreadySeen)
  {
    var argv := prog + [cmd] + Words(opts) + ["--target"];
    assert argv[3..] == Words(opts) + ["--target"];
    OptionsRead(opts, ["--target"], Initial);
    assert Target in After(opts, Initial).seen;
  }

  /**
   * Giving `--release`, `--target` or a toolchain twice is fatal, whatever
   * follows: the first option whose kind was given before it decides the error.
   */
  lemma ParseRejectsRepeat(prog: seq<string>, cmd: string, opts: seq<OptionWord>, tail: seq<string>)
    returns (pre: seq<OptionWord>, o: OptionWord, post: seq<OptionWord>)
    requires |prog| == 2 && IsCommand(cmd)
    requires forall o <- opts :: WellFormed(o)
    requires !AtMostOnce(opts)
    ensures opts == pre + [o] + post && AtMostOnce(pre)
    ensures KindOf(o).Some? && KindOf(o).value in Kinds(pre)
    ensures Parse(prog + [cmd] + Words(opts) + tail) == Err(RepeatError(KindOf(o).value))
  {
    var argv := prog + [cmd] + Words(opts) + tail;
    assert argv[3..] == Words(opts) + tail;
    pre, o, post := OptionsRepeat(opts, tail, Initial);
  }

  /** Without a known subcommand nothing else is looked at. */
  lemma ParseNeedsCommand(argv: seq<string>)
    requires |argv| < 3 || !IsCommand(argv[2])
    ensures Parse(argv) == Err(Usage)
  {
  }
}
