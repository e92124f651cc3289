/**
 * The metadata a source file carries in its leading `// ` comment lines
 * (the first loop of `copy_deps`): dependency lines for the manifest and an
 * optional override of the package's own version.
 */
module Metadata {
  import opened Base

  const CommentPrefix := "// "
  const SelfPrefix := "// self = "

  predicate IsMetaLine(l: string) {
    StartsWith(l, CommentPrefix)
  }

  predicate IsSelfLine(l: string) {
    StartsWith(l, SelfPrefix)
  }

  predicate AllMeta(run: seq<string>) {
    forall l <- run :: IsMetaLine(l)
  }

  /** The dependency lines (without their `// `) and the self version. */
  datatype Meta = Meta(deps: seq<string>, selfVersion: Option<string>)

  /** The longest prefix of `src` made of metadata lines. */
  function LeadingRun(src: seq<string>): (run: seq<string>)
    ensures run <= src
    ensures AllMeta(run)
    ensures |run| < |src| ==> !IsMetaLine(src[|run|])
  {
    if src == [] || !IsMetaLine(src[0]) then []
    else [src[0]] + LeadingRun(src[1..])
  }

  /** What the lines of a run contribute to the dependency block, in order. */
  function DepLines(run: seq<string>): (deps: seq<string>)
    requires AllMeta(run)
    ensures |deps| <= |run|
    ensures forall d <- deps :: CommentPrefix + d in run
  {
    if run == [] then []
    else
      var l := run[|run| - 1];
      assert l in run;
      assert forall x <- run[..|run| - 1] :: x in run;
      assert CommentPrefix + l[|CommentPrefix|..] == l;
      DepLines(run[..|run| - 1]) + (if IsSelfLine(l) then [] else [l[|CommentPrefix|..]])
  }

  /** The text after `// self = ` on the last self line of a run. */
  function SelfVersion(run: seq<string>): (v: Option<string>)
    ensures v.Some? ==> SelfPrefix + v.value in run
  {
    if run == [] then None
    else
      var l := run[|run| - 1];
      assert l in run;
      assert forall x <- run[..|run| - 1] :: x in run;
      if IsSelfLine(l) then
        assert SelfPrefix + l[|SelfPrefix|..] == l;
        Some(l[|SelfPrefix|..])
      else SelfVersion(run[..|run| - 1])
  }

  /** The metadata of a source: each dependency and the self version come from one of its `// ` lines. */
  function Extract(src: seq<string>): (m: Meta)
    ensures forall d <- m.deps :: CommentPrefix + d in src
    ensures m.selfVersion.Some? ==> SelfPrefix + m.selfVersion.value in src
  {
    var run := LeadingRun(src);
    assert forall l <- run :: l in src;
    Meta(DepLines(run), SelfVersion(run))
  }

  /** The leading run is exactly `src[..i]` when those are metadata lines and line `i` is not. */
  lemma LeadingRunExact(src: seq<string>, i: nat)
    requires i <= |src| && AllMeta(src[..i])
    requires i < |src| ==> !IsMetaLine(src[i])
    ensures LeadingRun(src) == src[..i]
  {
    var run := LeadingRun(src);
    forall j | 0 <= j < i
      ensures IsMetaLine(src[j])
    {
      assert src[j] in src[..i];
    }

  }

  /** Extraction stops at the first line that is not a metadata line: nothing after it counts. */
  lemma ExtractStopsAtFirstOtherLine(run: seq<string>, stop: string, tail: seq<string>)
    requires AllMeta(run) && !IsMetaLine(stop)
    ensures Extract(run + [stop] + tail) == Meta(DepLines(run), SelfVersion(run))
  {
    var src := run + [stop] + tail;
    assert src[..|run|] == run;
    LeadingRunExact(src, |run|);
  }

  /** A source whose first line is not a metadata line (or that is empty) carries no metadata. */
  lemma ExtractWithoutLeadingComment(src: seq<string>)
    requires src == [] || !IsMetaLine(src[0])
    ensures Extract(src) == Meta([], None)
  {
  }

  lemma {:induction false} DepLinesAppend(a: seq<string>, b: seq<string>)
    requires AllMeta(a) && AllMeta(b)
    ensures AllMeta(a + b)
    ensures DepLines(a + b) == DepLines(a) + DepLines(b)
  {
    if b != [] {
      var n := |b| - 1;
      assert (a + b)[..|a + b| - 1] == a + b[..n];
      assert (a + b)[|a + b| - 1] == b[n];
      DepLinesAppend(a, b[..n]);
    } else {
      assert a + b == a;
    }
  }

  /**
   * Each line of the run contributes, in place, its text after `// ` unless
   * it is a self line, which contributes nothing.
   */
  lemma DepLinesOfLine(a: seq<string>, l: string, b: seq<string>)
    requires AllMeta(a) && IsMetaLine(l) && AllMeta(b)
    ensures AllMeta(a + [l] + b)
    ensures DepLines(a + [l] + b)
         == DepLines(a) + (if IsSelfLine(l) then [] else [l[|CommentPrefix|..]]) + DepLines(b)
  {
    DepLinesAppend(a, [l]);
    DepLinesAppend(a + [l], b);
    assert DepLines([l]) == DepLines([]) + (if IsSelfLine(l) then [] else [l[|CommentPrefix|..]]);
  }

  /** A metadata line is a self line exactly when its text after `// ` starts with `self = `. */
  lemma SelfLineRemainder(d: string)
    ensures IsSelfLine(CommentPrefix + d) <==> StartsWith(d, "self = ")
  {
    assert SelfPrefix == CommentPrefix + "self = ";
    if |d| >= 7 {
      var x := CommentPrefix + d;
      assert x[..|SelfPrefix|] == CommentPrefix + d[..7];
      assert (CommentPrefix + d[..7])[3..] == d[..7];
    }
  }

  /** The self-version line never reaches the dependency block. */
  lemma {:induction false} DepLinesHaveNoSelfLine(run: seq<string>)
    requires AllMeta(run)
    ensures forall d <- DepLines(run) :: !StartsWith(d, "self = ")
  {
    if run != [] {
      var l := run[|run| - 1];
      DepLinesHaveNoSelfLine(run[..|run| - 1]);
      assert l in run;
      if !IsSelfLine(l) {
        var d := l[|CommentPrefix|..];
        assert l == CommentPrefix + d;
        SelfLineRemainder(d);
      }
    }
  }

  /** There is no self version exactly when no line of the run is a self line. */
  lemma {:induction false} SelfVersionAbsent(run: seq<string>)
    ensures SelfVersion(run) == None <==> forall k :: 0 <= k < |run| ==> !IsSelfLine(run[k])
  {
    if run != [] {
      var n := |run| - 1;
      SelfVersionAbsent(run[..n]);
      assert forall k :: 0 <= k < n ==> run[..n][k] == run[k];
    }
  }

  /** When there are self lines, the last one gives the version. */
  lemma {:induction false} SelfVersionIsLast(run: seq<string>, k: nat)
    requires k < |run| && IsSelfLine(run[k])
    requires forall j :: k < j < |run| ==> !IsSelfLine(run[j])
    ensures SelfVersion(run) == Some(run[k][|SelfPrefix|..])
  {
    var n := |run| - 1;
    if k < n {
      SelfVersionIsLast(run[..n], k);
    }
  }
}
