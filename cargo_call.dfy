/**
 * The rest of `main` once the command line is parsed: whether the shadow
 * project is created, whether the manifest is refreshed, and the argument
 * list of the final cargo call.  The file system is reduced to what is
 * found at the shadow project's path; the subprocesses are represented by
 * their argument lists.
 */
module CargoCall {
  import opened Base
  import opened CommandLine
  import CopyDeps

  /** The arguments of the final cargo call. */
  function CargoLine(inv: Invocation, manifestPath: string): (r: seq<string>)
    ensures |r| >= |inv.forwarded| + 4
    ensures r[|r| - |inv.forwarded| - 3..|r| - |inv.forwarded|] == ["--manifest-path", manifestPath, "--"]
    ensures inv.toolchain.Some? ==> r[0] == inv.toolchain.value
  {
    (if inv.toolchain.Some? then [inv.toolchain.value] else [])
    + [inv.cmd]
    + (if inv.cmd == "fmt" then [] else inv.cargoArgs)
    + (if inv.quiet then ["--quiet"] else [])
    + ["--manifest-path", manifestPath, "--"]
    + inv.forwarded
  }

  /** The argument assembly at the end of `main`; `refresh` runs no cargo. */
  method CargoArgs(inv: Invocation, manifestPath: string) returns (r: Option<seq<string>>)
    ensures inv.cmd == "refresh" <==> r.None?
    ensures r.Some? ==> r.value == CargoLine(inv, manifestPath)
  {
    if inv.cmd == "refresh" {
      return None;
    }
    var cargoArgs := inv.cargoArgs;
    if inv.cmd == "fmt" {
      cargoArgs := [];
    }
    if inv.quiet {
      cargoArgs := cargoArgs + ["--quiet"];
    }
    cargoArgs := cargoArgs + ["--manifest-path", manifestPath];
    var firstArgs: seq<string> := [];
    if inv.toolchain.Some? {
      firstArgs := firstArgs + [inv.toolchain.value];
    }
    firstArgs := firstArgs + [inv.cmd];
    r := Some(firstArgs + cargoArgs + ["--"] + inv.forwarded);
    ghost var tc := if inv.toolchain.Some? then [inv.toolchain.value] else [];
    ghost var opts := if inv.cmd == "fmt" then [] else inv.cargoArgs;
    ghost var q := if inv.quiet then ["--quiet"] else [];
    assert firstArgs == tc + [inv.cmd];
    assert cargoArgs == opts + q + ["--manifest-path", manifestPath];
    LineParts(tc, inv.cmd, opts, q, manifestPath, inv.forwarded);
  }

  /** The pieces pushed in turn make up the cargo line. */
  lemma LineParts(
    tc: seq<string>, cmd: string, opts: seq<string>, q: seq<string>, mp: string, forwarded: seq<string>)
    ensures (tc + [cmd]) + (opts + q + ["--manifest-path", mp]) + ["--"] + forwarded
         == tc + [cmd] + opts + q + ["--manifest-path", mp, "--"] + forwarded
  {
    assert ["--manifest-path", mp] + ["--"] == ["--manifest-path", mp, "--"];
  }

  /**
   * From the user's command line to cargo's: the toolchain first, then the
   * subcommand, the `--release`/`--target` options in the order given (none
   * for `fmt`), `--quiet` unless `--no-quiet` was given, the manifest path,
   * and after `--` every argument that followed the source path, in order.
   */
  lemma CargoLineFromCommandLine(
    prog: seq<string>, cmd: string, opts: seq<OptionWord>, source: string, forwarded: seq<string>,
    manifestPath: string)
    requires |prog| == 2 && IsCommand(cmd)
    requires forall o <- opts :: WellFormed(o)
    requires AtMostOnce(opts) && !IsOptionWord(source)
    ensures var argv := prog + [cmd] + Words(opts) + [source] + forwarded;
      && Parse(argv).Ok?
      && CargoLine(Parse(argv).value, manifestPath)
         == (if ToolchainOf(opts).Some? then [ToolchainOf(opts).value] else [])
            + [cmd]
            + (if cmd == "fmt" then [] else CargoWords(opts))
            + (if NoQuietFlag in opts then [] else ["--quiet"])
            + ["--manifest-path", manifestPath, "--"]
            + forwarded
  {
    ParseAccepts(prog, cmd, opts, source, forwarded);
  }

  /** The separator and the forwarded arguments close the cargo call, whatever came before. */
  lemma ForwardedLast(inv: Invocation, manifestPath: string)
    ensures var line := CargoLine(inv, manifestPath);
      && |line| > |inv.forwarded|
      && line[|line| - |inv.forwarded| - 1] == "--"
      && line[|line| - |inv.forwarded|..] == inv.forwarded
      && line[if inv.toolchain.Some? then 1 else 0] == inv.cmd
  {
    var line := CargoLine(inv, manifestPath);
    var front := line[..|line| - |inv.forwarded|];
    assert line == front + inv.forwarded;
  }

  /** What is found at the shadow project's path (the source path without its extension). */
  datatype StemState = Absent | Directory | OtherEntry

  /** What one run does, when it does not fail. */
  datatype Effects = Effects(
    scaffold: Option<seq<string>>,  // the arguments of `cargo new`, when the project is created
    manifest: Option<string>,       // the new manifest text, when dependencies are refreshed
    cargo: Option<seq<string>>)     // the arguments of the final cargo call

  /**
   * One run of the tool.  `sourceText` is the text of the source file, and
   * `manifestText` the manifest text as it is when the dependencies are
   * refreshed: the existing one, or the one `cargo new` just wrote.  Path
   * resolution is not modelled: `stemPath` is its result, and `manifestPath`
   * stands for `stemPath` joined with `Cargo.toml`, which is how `main`
   * builds it.
   */
  method Run(argv: seq<string>, stem: StemState, stemPath: string, manifestPath: string, sourceText: string, manifestText: string)
    returns (r: Result<Effects, Failure>)
    ensures Parse(argv).Err? ==> r == Err(Parse(argv).error)
    ensures Parse(argv).Ok? && stem == OtherEntry ==> r == Err(NotADirectory)
    ensures Parse(argv).Ok? && stem != OtherEntry ==>
      var inv := Parse(argv).value;
      && r.Ok?
      && (r.value.scaffold.Some? <==> stem == Absent)
      && (r.value.scaffold.Some? ==>
            r.value.scaffold.value == ["new"] + (if inv.quiet then ["--quiet"] else []) + ["--bin", stemPath])
      && (r.value.manifest.Some? <==> stem == Absent || inv.cmd == "refresh")
      && (r.value.manifest.Some? ==> r.value.manifest.value == CopyDeps.NewManifest(sourceText, manifestText))
      && (r.value.cargo.None? <==> inv.cmd == "refresh")
      && (r.value.cargo.Some? ==> r.value.cargo.value == CargoLine(inv, manifestPath))
  {
    var parsed := ParseArgs(argv);
    if parsed.Err? {
      return Err(parsed.error);
    }
    var inv := parsed.value;
    var refreshDeps := inv.cmd == "refresh";
    var scaffold: Option<seq<string>> := None;
    match stem {
      case OtherEntry =>
        return Err(NotADirectory);
      case Directory =>
      case Absent =>
        var newArgs := if inv.quiet then ["new", "--quiet", "--bin"] else ["new", "--bin"];
        scaffold := Some(newArgs + [stemPath]);
        refreshDeps := true;
    }
    var newManifest: Option<string> := None;
    if refreshDeps {
      var text := CopyDeps.CopyDeps(sourceText, manifestText);
      newManifest := Some(text);
    }
    var cargo := CargoArgs(inv, manifestPath);
    r := Ok(Effects(scaffold, newManifest, cargo));
  }
}
