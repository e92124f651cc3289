# cargo-single, modelled in Dafny

`cargo single <command> [options] <source> [arguments]` builds or runs a
single Rust source file with Cargo. It keeps a Cargo project next to the
file: a directory named after the file without its extension. The project's
`src/main.rs` is a hard link to the file. Dependencies are written at the top
of the source file as comment lines:

```
// rand = "0.8"
// self = "1.2.0"
```

On creation, and on `cargo single refresh`, the tool copies these lines into
the `[dependencies]` section of the project's `Cargo.toml`. A `// self = `
line sets the package's own `version`. The tool then calls Cargo with the
user's command and options. Any arguments after the source path are passed to
cargo after `--`.

This project models the logic of `src/main.rs`:

- **Metadata extraction** (`Metadata`, `CopyDeps.ReadMetadata`). Only the
  leading run of lines starting with `// ` is read. A `// self = ` line gives
  the self version, and the last one wins. Every other line of the run gives
  one dependency line: its text after `// `.
- **Manifest rewrite** (`Manifest`, `CopyDeps.WriteManifest`). The old
  manifest is copied line by line, with these changes:
  - a `version = ` line becomes `version = <self version>`, or is dropped when
    there is no self version;
  - at the first `[dependencies]` line, that line is written, then the
    dependency block, and copying stops;
  - without such a line, nothing is added.
- **Lines as Rust reads and writes them** (`LineText`). Every line is written
  followed by `"\n"`. `BufRead::lines` reads them back. With these two
  functions the rewrite is stated on whole file texts (`CopyDeps.CopyDeps`,
  `CopyDeps.NewManifestIdempotent`).
- **Command line** (`CommandLine`). `ParseArgs` is the option loop of `main`:
  - the subcommand must be `build`, `check`, `fmt`, `run` or `refresh`;
  - `--release`, `--target <t>` and `+toolchain` may each appear at most once;
  - `--no-quiet` may appear any number of times;
  - the first other argument is the source path, and the arguments after it
    are forwarded.

  The lemmas give a declarative reading (`OptionWord`, `Words`,
  `AtMostOnce`). They state exactly which command lines are accepted and what
  they parse to.
- **The cargo call and the refresh decision** (`CargoCall`). `CargoArgs`
  builds the argument list of the final cargo call. `Run` is one whole run of
  `main` after parsing. The file system is reduced to what is found at the
  project's path: nothing, a directory, or something else. `Run` reports:
  - whether `cargo new` is run, and with which arguments;
  - whether the manifest is refreshed, and its new text;
  - the final cargo call.

Errors that `main` reports through `fatal_exit` are values of
`CommandLine.Failure`.

Three properties one might expect of the rewrite hold only in part; the
model follows the code:

- For a source without a self line, the rewritten manifest has no version
  line before `[dependencies]`. The dependency block itself is copied
  verbatim, so a block line may start with `version = `
  (`CopyDeps.VersionLineInBlock`).
- The rewritten manifest has exactly one `[dependencies]` line only when the
  old manifest had one and the block does not contain one
  (`CopyDeps.SecondHeaderInBlock`).
- Rewriting a second time gives the same text when no line that the rewrite
  copies unchanged from the old manifest, before its first `[dependencies]`
  line, ends in a stray `"\r"`. `lines()` strips a `"\r"` only when a `"\n"`
  follows it, so such a line keeps its `"\r"` on the first rewrite and loses
  it when read back (`CopyDeps.StrayCarriageReturn`). Lines of the source
  file may end in `"\r"`: a rewritten version line is still a version line
  once its `"\r"` is stripped, and the block after the header is written
  afresh on every refresh.

## Model

| member | source | states |
|---|---|---|
| `LineText.Text` | src/main.rs:256-259 | the text written for a list of lines: each line followed by `"\n"`, so a text with at least one line ends in `"\n"` |
| `LineText.Lines` | src/main.rs:247 | a line read by `lines()` never contains `"\n"` |
| `LineText.LineEnd` | src/main.rs:247 | the line that `lines()` reads ends at the first `"\n"`, or at the end of the text |
| `LineText.LinesOfText` | src/main.rs:247-257 | reading back lines written with one `"\n"` each gives the same lines, when no line contains `"\n"` or ends in `"\r"` |
| `LineText.LinesOfTextStripped` | src/main.rs:247-257 | reading back lines written with one `"\n"` each gives the same lines, each with one trailing `"\r"` removed, when no line contains `"\n"` |
| `Metadata.LeadingRun` | src/main.rs:229-233 | the lines read for metadata are a prefix of the source; all of them start with `// `; the line after them, if any, does not |
| `Metadata.DepLines` | src/main.rs:234-245 | the dependency lines of a run: at most one per run line, and each is the text after `// ` of a line of the run |
| `Metadata.SelfVersion` | src/main.rs:234-242 | the self version of a run: when there is one, `// self = ` followed by it is a line of the run |
| `Metadata.Extract` | src/main.rs:229-246 | the metadata of a source: every dependency line and the self version come from one of the source's own `// ` lines |
| `Metadata.LeadingRunExact` | src/main.rs:229-233 | if `src[..i]` are metadata lines and line `i` is missing or not one, the leading run is exactly `src[..i]` |
| `Metadata.ExtractStopsAtFirstOtherLine` | src/main.rs:229-233 | nothing after the first line without `// ` (an empty line included) affects the dependencies or the self version |
| `Metadata.ExtractWithoutLeadingComment` | src/main.rs:229-233 | a source that is empty or whose first line is not a metadata line yields no dependencies and no self version |
| `Metadata.DepLinesAppend` | src/main.rs:244-245 | the dependency lines of two runs are those of the first followed by those of the second |
| `Metadata.DepLinesOfLine` | src/main.rs:234-245 | each line of the run contributes, at its place in source order, exactly its text after `// `, or nothing if it is a self line |
| `Metadata.DepLinesHaveNoSelfLine` | src/main.rs:234-245 | no dependency line starts with `self = `: self lines never reach the block |
| `Metadata.SelfVersionAbsent` | src/main.rs:228-242 | there is no self version exactly when no line of the run starts with `// self = ` |
| `Metadata.SelfVersionIsLast` | src/main.rs:234-242 | the self version is the text after `// self = ` on the last such line of the run |
| `Manifest.RewriteLine` | src/main.rs:249-254 | what happens to one line before the header: it is dropped exactly when it is a `version = ` line and there is no self version; a written line is a `version = ` line exactly when the read one was, and is `[dependencies]` exactly when the read one was |
| `Manifest.Rewrite` | src/main.rs:247-262 | the lines of the new manifest: at most the old lines plus the block; at most the old lines without a header; more lines than the block with a header (the exact content is in the two lemmas below) |
| `Manifest.RewriteWithHeader` | src/main.rs:247-262 | with a `[dependencies]` line, the new manifest has three parts: the version-handled lines before its first occurrence, that header, and the dependency block; everything after the header is discarded |
| `Manifest.RewriteWithoutHeader` | src/main.rs:247-262 | without a `[dependencies]` line, the whole manifest is copied with its version lines handled, and no block is written |
| `Manifest.VersionFilterAppend` | src/main.rs:247-257 | the lines are handled one at a time, in order |
| `Manifest.VersionFilterWithSelfVersion` | src/main.rs:249-257 | with a self version, the lines map one to one: each `version = ` line becomes exactly `version = ` + self version, and every other line is unchanged |
| `Manifest.VersionFilterWithoutSelfVersion` | src/main.rs:249-252 | without a self version, no `version = ` line remains, every other line is kept, and no new line appears |
| `Manifest.RewriteIdempotent` | src/main.rs:247-262 | rewriting the rewritten lines again with the same metadata gives the same lines |
| `CopyDeps.ReadMetadata` | src/main.rs:227-246 | the first loop builds the dependency text (each dependency line followed by `"\n"`) and the self version of the source's leading run |
| `CopyDeps.WriteManifest` | src/main.rs:247-262 | the second loop writes exactly the rewritten lines, each followed by `"\n"` |
| `CopyDeps.NewManifest` | src/main.rs:216-267 | the text that replaces `Cargo.toml`: empty or ending in `"\n"`, and not empty when the old manifest has a `[dependencies]` line |
| `CopyDeps.CopyDeps` | src/main.rs:216-267 | the text that replaces `Cargo.toml` is the rewrite of the old manifest's lines with the source's metadata |
| `CopyDeps.RewriteOfStripped` | src/main.rs:247-262 | rewriting the rewritten lines again, after one trailing `"\r"` is removed from each, gives the same lines, when no line copied unchanged before the first `[dependencies]` ends in `"\r"` |
| `CopyDeps.NewManifestIdempotent` | src/main.rs:216-267 | refreshing twice from the same source gives the same manifest text as refreshing once, for any source text, when no manifest line copied unchanged before the first `[dependencies]` ends in a stray `"\r"` |
| `CopyDeps.StrayCarriageReturn` | src/main.rs:247-257 | a manifest line ending in a stray `"\r"` is written back with it, and loses it on the next refresh |
| `CopyDeps.ExtractExample` | src/main.rs:229-246 | a dependency line, then a self line, then code: one dependency and the self version |
| `CopyDeps.VersionLineInBlock` | src/main.rs:234-260 | a source line `// version = 1` puts a `version = 1` line into the block, after the header |
| `CopyDeps.SecondHeaderInBlock` | src/main.rs:234-260 | a source line `// [dependencies]` gives the new manifest a second `[dependencies]` line |
| `CopyDeps.RewriteExample` | src/main.rs:247-262 | with that metadata, the version line takes the self version and the old entries after `[dependencies]` are replaced by the block |
| `CommandLine.Options` | src/main.rs:55-90 | the option loop: when it succeeds, what is left is no longer than its input and starts with an argument that is not an option; when it fails, the failure is never a usage error |
| `CommandLine.Parse` | src/main.rs:38-94 | the whole command-line parse: when it succeeds, there are at least four arguments, the subcommand is the third and is valid, the source is not an option, and the forwarded arguments are fewer than the arguments after the subcommand |
| `CommandLine.ParseArgs` | src/main.rs:37-94 | the imperative option loop, with its duplicate checks, its early `break` and the final `pop` of the source path, computes `Parse` |
| `CommandLine.OptionsRead` | src/main.rs:55-90 | reading well-formed options, each kind at most once, appends the `--release`/`--target` words to the cargo options in order, clears quiet iff `--no-quiet` was given, and sets the toolchain |
| `CommandLine.OptionsShape` | src/main.rs:55-90 | a successful option loop has read the words of well-formed options, each kind at most once, and stopped at an argument that is not an option |
| `CommandLine.OptionsRepeat` | src/main.rs:55-90 | when an option's kind was already seen (before the loop or earlier in it), the loop fails at the first such option, with the "already seen" error of that option's kind (`--release`, `--target` or toolchain) |
| `CommandLine.ParseAccepts` | src/main.rs:40-94 | a valid subcommand, options each given at most once, a non-option source, then any arguments: parsing gives that subcommand, those options and that source, with the later arguments forwarded unchanged and in order |
| `CommandLine.ParseShape` | src/main.rs:40-94 | every accepted command line has that shape, so together with `ParseAccepts` this is an if-and-only-if |
| `CommandLine.ParseNeedsCommand` | src/main.rs:38-49 | a missing or unknown subcommand is a usage error |
| `CommandLine.ParseNeedsSource` | src/main.rs:91-93 | options with no source path after them are a usage error |
| `CommandLine.ParseTargetWithoutValue` | src/main.rs:65-76 | `--target` as the last argument, when not a repeat, fails with "needs an argument" |
| `CommandLine.ParseRepeatedTargetWithoutValue` | src/main.rs:65-76 | a second `--target` as the last argument fails as "already seen", before its missing value is looked at |
| `CommandLine.ParseRejectsRepeat` | src/main.rs:38-94 | `--release`, `--target` or a toolchain given twice is fatal, whatever follows, with the "already seen" error of the first option whose kind was given before it |
| `CargoCall.CargoLine` | src/main.rs:184-205 | the arguments of the final cargo call: the toolchain first when there is one, and `--manifest-path`, the path and `--` right before the forwarded arguments |
| `CargoCall.CargoArgs` | src/main.rs:184-205 | `refresh` runs no cargo; otherwise cargo is called with: the toolchain, the command, the options (none for `fmt`), `--quiet` unless `--no-quiet`, `--manifest-path` and the path, then `--` and the forwarded arguments |
| `CargoCall.CargoLineFromCommandLine` | src/main.rs:55-205 | from the user's command line to cargo's: the options in the order given, and every argument after the source path forwarded after `--`, in order |
| `CargoCall.ForwardedLast` | src/main.rs:195-205 | the cargo call ends with `--` followed by the forwarded arguments, and the command comes first or right after the toolchain |
| `CargoCall.Run` | src/main.rs:134-205 | parse errors come first. Something at the project path that is not a directory is fatal. A missing project is created with `cargo new [--quiet] --bin <path>` and forces a refresh; an existing one is refreshed only for `refresh`. A refresh writes `CopyDeps.NewManifest`. The cargo call is `CargoLine`, or none for `refresh` |

## Left out

- Resolving the source path is not modelled (src/main.rs:95-134): the given file, `<path>.rs`, or `<dir>.rs` for a directory. It depends on `fs::metadata` and `PathBuf::set_extension`. `Run` takes the resulting project path and manifest path as inputs, and assumes resolution succeeded.
- Creating the project is not modelled beyond its decision and the `cargo new` arguments (src/main.rs:143-168): the subprocess, removing the generated `main.rs`, the hard link, and their failures.
- Running cargo, and passing on its exit code, are foreign process calls (src/main.rs:149-156, 200-213). The model stops at the argument list.
- File opening, reading and writing errors, invalid UTF-8 reported by `lines()`, and the temporary file renamed over `Cargo.toml` are not modelled (src/main.rs:221-226, 263-265). The rewrite is a function from the two file texts to the new manifest text, so there is no partial write to model.
- The `dbg!` of each manifest line (src/main.rs:255) only prints to standard error.
- The usage text and the printing and exit of `fatal_exit` are not modelled (src/main.rs:9-28). They become `Failure` values.
- Concurrent runs on the same project are not modelled.
- CopyDeps.NewManifestIdempotent: requires that no manifest line the rewrite copies unchanged before the first `[dependencies]` line ends in `"\r"`. The condition is shown sufficient, not necessary; `CopyDeps.StrayCarriageReturn` exhibits one manifest that breaks it and is changed by a second refresh.
- Manifest.VersionFilterWithoutSelfVersion: states which lines are kept, not their order or multiplicity. The order and the count follow from `Manifest.VersionFilterAppend`.
- Manifest.Rewrite: its own contract bounds only the number of lines; what the lines are is stated by `Manifest.RewriteWithHeader` and `Manifest.RewriteWithoutHeader`.
- CommandLine.Options: its own contract states only the shape of the result; what the loop computes is stated by `CommandLine.OptionsRead`, `CommandLine.OptionsShape` and `CommandLine.OptionsRepeat`.
- CommandLine.Parse: its own contract states only the shape of an accepted command line; what is accepted and what it parses to are stated by `CommandLine.ParseAccepts` and `CommandLine.ParseShape`.
- CopyDeps.NewManifest: its own contract states only that the text is made of whole lines; its relation to the old manifest is stated by `CopyDeps.NewManifestIdempotent` and the `Manifest` lemmas.
- LineText.Text: its own contract states only that the text ends in a line end; that reading it back gives the lines is `LineText.LinesOfText`.
