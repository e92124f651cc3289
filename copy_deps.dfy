/**
 * `copy_deps`: read the source file's metadata, then stream the old manifest
 * into the new one.  Files are modelled by their text; the new manifest is
 * the text that replaces the old one.
 */
module CopyDeps {
  import opened Base
  import opened LineText
  import opened Metadata
  import opened Manifest

  /** The manifest text after a refresh from source text `src`. */
  function NewManifest(src: string, cargo: string): (t: string)
    ensures t == [] || t[|t| - 1] == '\n'
    ensures DependenciesHeader in Lines(cargo) ==> t != []
  {
    Text(Rewrite(Lines(cargo), Extract(Lines(src))))
  }

  /** Both loops of `copy_deps`: the metadata of `src`, then the streamed manifest. */
  method CopyDeps(src: string, cargo: string) returns (out: string)
    ensures out == NewManifest(src, cargo)
  {
    var deps, selfVersion := ReadMetadata(Lines(src));
    out := WriteManifest(Lines(cargo), deps, selfVersion, Extract(Lines(src)));
  }

  /** The first loop: the dependency text and the self version of the leading comment lines. */
  method ReadMetadata(srcLines: seq<string>) returns (deps: string, selfVersion: Option<string>)
    ensures deps == Text(Extract(srcLines).deps)
    ensures selfVersion == Extract(srcLines).selfVersion
  {
    deps, selfVersion := "", None;
    var i := 0;
    while i < |srcLines|
      invariant i <= |srcLines|
      invariant AllMeta(srcLines[..i])
      invariant deps == Text(DepLines(srcLines[..i]))
      invariant selfVersion == SelfVersion(srcLines[..i])
    {
      var line := srcLines[i];
      if !StartsWith(line, CommentPrefix) {
        break;
      }
      ReadStep(srcLines, i);
      if StartsWith(line, SelfPrefix) {
        selfVersion := Some(line[|SelfPrefix|..]);
        i := i + 1;
        continue;
      }
      var dep := line[|CommentPrefix|..];
      deps := deps + dep + "\n";
      i := i + 1;
    }
    LeadingRunExact(srcLines, i);
  }

  /** What one more metadata line adds to the run read so far. */
  lemma ReadStep(src: seq<string>, i: nat)
    requires i < |src| && AllMeta(src[..i]) && IsMetaLine(src[i])
    ensures AllMeta(src[..i + 1])
    ensures SelfVersion(src[..i + 1])
         == if IsSelfLine(src[i]) then Some(src[i][|SelfPrefix|..]) else SelfVersion(src[..i])
    ensures IsSelfLine(src[i]) ==> DepLines(src[..i + 1]) == DepLines(src[..i])
    ensures !IsSelfLine(src[i]) ==>
      Text(DepLines(src[..i + 1])) == Text(DepLines(src[..i])) + src[i][|CommentPrefix|..] + "\n"
  {
    var l := src[i];
    assert src[..i + 1] == src[..i] + [l];
    assert src[..i + 1][..i] == src[..i];
    if !IsSelfLine(l) {
      var dep := l[|CommentPrefix|..];
      assert DepLines(src[..i + 1]) == DepLines(src[..i]) + [dep];
      TextAppend(DepLines(src[..i]), [dep]);
      assert Text([dep]) == dep + "\n" by {
        assert [dep][1..] == [];
      }
    }
  }

  /** The second loop: the text written to the temporary manifest. */
  method WriteManifest(cargoLines: seq<string>, deps: string, selfVersion: Option<string>, ghost meta: Meta)
    returns (out: string)
    requires deps == Text(meta.deps) && selfVersion == meta.selfVersion
    ensures out == Text(Rewrite(cargoLines, meta))
  {
    out := "";
    ghost var total := Text(Rewrite(cargoLines, meta));
    var j := 0;
    while j < |cargoLines|
      invariant j <= |cargoLines|
      invariant out + Text(Rewrite(cargoLines[j..], meta)) == total
    {
      var line := cargoLines[j];
      ghost var before, rest := out, Text(Rewrite(cargoLines[j + 1..], meta));
      RewriteFirst(cargoLines[j..], meta);
      assert cargoLines[j..][0] == line && cargoLines[j..][1..] == cargoLines[j + 1..];
      if StartsWith(line, VersionPrefix) {
        if selfVersion.None? {
          j := j + 1;
          continue;
        }
        line := VersionPrefix + selfVersion.value;
      }
      assert RewriteLine(cargoLines[j], meta.selfVersion) == Some(line);
      out := out + line + "\n";
      if line == DependenciesHeader {
        out := out + deps;
        Emitted(before, line, deps, total);
        break;
      }
      Emitted(before, line, rest, total);
      j := j + 1;
    }
    assert out == total by {
      if j == |cargoLines| {
        assert cargoLines[j..] == [];
      }
    }
  }

  /** Writing a line, then the rest, gives the same text as writing both at once. */
  lemma Emitted(before: string, line: string, rest: string, total: string)
    requires before + (line + "\n" + rest) == total
    ensures before + line + "\n" + rest == total
  {
  }

  /** The text of the rewrite of `m`, in terms of its first line. */
  lemma RewriteFirst(m: seq<string>, meta: Meta)
    requires m != []
    ensures RewriteLine(m[0], meta.selfVersion).None? ==> Rewrite(m, meta) == Rewrite(m[1..], meta)
    ensures var r := RewriteLine(m[0], meta.selfVersion);
      r.Some? && r.value == DependenciesHeader ==>
      Text(Rewrite(m, meta)) == r.value + "\n" + Text(meta.deps)
    ensures var r := RewriteLine(m[0], meta.selfVersion);
      r.Some? && r.value != DependenciesHeader ==>
      Text(Rewrite(m, meta)) == r.value + "\n" + Text(Rewrite(m[1..], meta))
  {
    var r := RewriteLine(m[0], meta.selfVersion);
    if r.Some? {
      var rest := if r.value == DependenciesHeader then meta.deps else Rewrite(m[1..], meta);
      assert Rewrite(m, meta) == [r.value] + rest;
      assert ([r.value] + rest)[1..] == rest;
    }
  }

  lemma SuffixHasNoNewline(l: string, k: nat)
    requires '\n' !in l && k <= |l|
    ensures '\n' !in l[k..]
  {
    assert forall c <- l[k..] :: c in l;
  }

  /** Metadata taken from lines without "\n" has no "\n". */
  lemma {:induction false} MetaHasNoNewline(run: seq<string>)
    requires AllMeta(run) && forall l <- run :: '\n' !in l
    ensures forall d <- DepLines(run) :: '\n' !in d
    ensures SelfVersion(run).Some? ==> '\n' !in SelfVersion(run).value
  {
    if run != [] {
      var n := |run| - 1;
      var l := run[n];
      assert l in run;
      assert forall x <- run[..n] :: x in run;
      MetaHasNoNewline(run[..n]);
      SuffixHasNoNewline(l, |CommentPrefix|);
      if IsSelfLine(l) {
        SuffixHasNoNewline(l, |SelfPrefix|);
      }
    }
  }

  /** No line of the new manifest contains "\n" when no old line and no metadata does. */
  lemma {:induction false} RewriteHasNoNewline(m: seq<string>, meta: Meta)
    requires forall l <- m :: '\n' !in l
    requires forall d <- meta.deps :: '\n' !in d
    requires meta.selfVersion.Some? ==> '\n' !in meta.selfVersion.value
    ensures forall l <- Rewrite(m, meta) :: '\n' !in l
  {
    if m != [] {
      assert m[0] in m;
      assert forall x <- m[1..] :: x in m;
      RewriteHasNoNewline(m[1..], meta);
      if IsVersionLine(m[0]) && meta.selfVersion.Some? {
        var l := VersionPrefix + meta.selfVersion.value;
        assert forall c <- l :: c in VersionPrefix || c in meta.selfVersion.value;
      }
    }
  }

  /**
   * Before the first `[dependencies]` line, no line the rewrite copies as it
   * is ends in "\r".  Version lines are replaced or dropped, and the lines
   * after the header are replaced by the block, so their ends do not matter.
   */
  predicate NoStrayCrBeforeHeader(m: seq<string>) {
    m == [] || m[0] == DependenciesHeader
    || ((IsVersionLine(m[0]) || !EndsInCr(m[0])) && NoStrayCrBeforeHeader(m[1..]))
  }

  /** A version line stays one when a trailing "\r" is removed. */
  lemma StrippedVersionLine(v: string)
    ensures IsVersionLine(StripCr(VersionPrefix + v))
  {
    var l := VersionPrefix + v;
    if EndsInCr(l) {
      assert |v| > 0 by { assert l[|l| - 1] != VersionPrefix[|VersionPrefix| - 1]; }
      assert StripCr(l)[..|VersionPrefix|] == VersionPrefix;
    } else {
      assert l[..|VersionPrefix|] == VersionPrefix;
    }
  }

  /** Rewriting the rewritten lines again, after `lines()` has removed one trailing "\r" from each, changes nothing. */
  lemma {:induction false} RewriteOfStripped(m: seq<string>, meta: Meta)
    requires NoStrayCrBeforeHeader(m)
    ensures Rewrite(StripAll(Rewrite(m, meta)), meta) == Rewrite(m, meta)
  {
    HeaderIsNoVersionLine();
    if m != [] {
      var r := RewriteLine(m[0], meta.selfVersion);
      if r.None? {
        assert m[0] != DependenciesHeader;
        RewriteOfStripped(m[1..], meta);
      } else {
        var l := r.value;
        var out := Rewrite(m, meta);
        var rest := if l == DependenciesHeader then meta.deps else Rewrite(m[1..], meta);
        assert out == [l] + rest;
        assert StripAll(out) == [StripCr(l)] + StripAll(rest) by {
          assert out[0] == l && out[1..] == rest;
        }
        if IsVersionLine(m[0]) {
          StrippedVersionLine(meta.selfVersion.value);
          VersionLineIsNoHeader(meta.selfVersion.value);
          assert StripCr(l) != DependenciesHeader;
          assert RewriteLine(StripCr(l), meta.selfVersion) == Some(l);
        } else if l == DependenciesHeader {
          assert StripCr(l) == l;
        } else {
          assert StripCr(l) == l;
        }
        if l != DependenciesHeader {
          RewriteOfStripped(m[1..], meta);
        }
      }
    }
  }

  /**
   * Refreshing twice from the same source gives the same manifest as
   * refreshing once, provided no line the rewrite copies unchanged from the
   * old manifest ends in a stray "\r" (which `lines()` would strip only on
   * the second reading).  Lines of the source may end in "\r": a self
   * version keeps its version line a version line, and the block after the
   * header is replaced on every refresh.
   */
  lemma NewManifestIdempotent(src: string, cargo: string)
    requires NoStrayCrBeforeHeader(Lines(cargo))
    ensures NewManifest(src, NewManifest(src, cargo)) == NewManifest(src, cargo)
  {
    var srcLines := Lines(src);
    var meta := Extract(srcLines);
    var run := LeadingRun(srcLines);
    assert forall l <- run :: l in srcLines;
    MetaHasNoNewline(run);
    RewriteHasNoNewline(Lines(cargo), meta);
    var r := Rewrite(Lines(cargo), meta);
    LinesOfTextStripped(r);
    RewriteOfStripped(Lines(cargo), meta);
  }

  /**
   * The precondition above is needed: a manifest line ending in a stray "\r"
   * keeps it on the first refresh, and loses it when read back.
   */
  lemma StrayCarriageReturn()
    ensures NewManifest("", "a\r\r\n") == "a\r\n"
    ensures NewManifest("", "a\r\n") == "a\n"
  {
    assert LineEnd("a\r\r\n") == 3;
    assert ("a\r\r\n")[..3] == "a\r\r" && ("a\r\r\n")[4..] == [];
    assert StripCr("a\r\r") == "a\r";
    assert Lines("a\r\r\n") == ["a\r"];
    assert LineEnd("a\r\n") == 2;
    assert ("a\r\n")[..2] == "a\r" && ("a\r\n")[3..] == [];
    assert StripCr("a\r") == "a";
    assert Lines("a\r\n") == ["a"];
  }

  /** A dependency line, a self line, then code: one dependency and the self version. */
  lemma ExtractExample()
    ensures Extract(["// foo = \"1.0\"", "// self = \"2.0\"", "fn main() {}"])
         == Meta(["foo = \"1.0\""], Some("\"2.0\""))
  {
    var l0, l1, l2 := "// foo = \"1.0\"", "// self = \"2.0\"", "fn main() {}";
    assert !IsMetaLine(l2) by { assert l2[0] == 'f'; }
    assert IsMetaLine(l0) && !IsSelfLine(l0) by { assert l0[3] == 'f'; }
    assert IsSelfLine(l1);
    assert [l0, l1, l2] == [l0, l1] + [l2] + [];
    ExtractStopsAtFirstOtherLine([l0, l1], l2, []);
    assert [l0, l1][..1] == [l0] && [l0][..0] == [];
    assert DepLines([l0, l1]) == DepLines([l0]) == [l0[|CommentPrefix|..]];
    assert SelfVersion([l0, l1]) == Some(l1[|SelfPrefix|..]);
    assert l0[|CommentPrefix|..] == "foo = \"1.0\"";
    assert l1[|SelfPrefix|..] == "\"2.0\"";
  }

  /**
   * With that metadata, the version line takes the self version, the block
   * follows the header, and the old entries after the header are gone.
   */
  lemma RewriteExample()
    ensures Rewrite(
      ["[package]", "version = \"0.0.0\"", "[dependencies]", "old = \"0.1\""],
      Meta(["foo = \"1.0\""], Some("\"2.0\"")))
      == ["[package]", "version = \"2.0\"", "[dependencies]", "foo = \"1.0\""]
  {
    var meta := Meta(["foo = \"1.0\""], Some("\"2.0\""));
    var m := ["[package]", "version = \"0.0.0\"", "[dependencies]", "old = \"0.1\""];
    assert !IsVersionLine(m[0]) by { assert m[0][0] == '['; }
    assert IsVersionLine(m[1]);
    assert m[2] == DependenciesHeader;
    assert m == [m[0], m[1]] + [DependenciesHeader] + [m[3]];
    assert DependenciesHeader !in [m[0], m[1]];
    RewriteWithHeader([m[0], m[1]], [m[3]], meta);
    assert VersionPrefix + "\"2.0\"" == "version = \"2.0\"";
    assert RewriteLine(m[1], meta.selfVersion) == Some("version = \"2.0\"");
    assert [m[0], m[1]][1..] == [m[1]];
    assert VersionFilter([m[1]], meta.selfVersion) == ["version = \"2.0\""];
  }

  /** A dependency line that reads `version = ...` is copied into the block as it is. */
  lemma VersionLineInBlock()
    ensures Extract(["// version = 1"]) == Meta(["version = 1"], None)
    ensures Rewrite(["[dependencies]"], Meta(["version = 1"], None)) == ["[dependencies]", "version = 1"]
  {
    var l := "// version = 1";
    assert IsMetaLine(l) && !IsSelfLine(l) by { assert l[3] == 'v'; }
    assert [l] == [l] + [];
    assert LeadingRun([l]) == [l] by { LeadingRunExact([l], 1); }
    assert [l][..0] == [];
    assert l[|CommentPrefix|..] == "version = 1";
    assert ["[dependencies]"][0] == DependenciesHeader;
    HeaderIsNoVersionLine();
  }

  /** A dependency line that reads `[dependencies]` gives the new manifest a second header. */
  lemma SecondHeaderInBlock()
    ensures Extract(["// [dependencies]"]) == Meta(["[dependencies]"], None)
    ensures Rewrite(["[dependencies]"], Meta(["[dependencies]"], None)) == ["[dependencies]", "[dependencies]"]
  {
    var l := "// [dependencies]";
    assert IsMetaLine(l) && !IsSelfLine(l) by { assert l[3] == '['; }
    assert LeadingRun([l]) == [l] by { LeadingRunExact([l], 1); }
    assert [l][..0] == [];
    assert l[|CommentPrefix|..] == "[dependencies]";
    assert ["[dependencies]"][0] == DependenciesHeader;
    HeaderIsNoVersionLine();
  }
}
