/**
 * The manifest rewrite (the second loop of `copy_deps`), on lines: version
 * lines are replaced by the self version or dropped, every other line is
 * kept, and at the first `[dependencies]` line the dependency block is
 * written and the rest of the old manifest is discarded.
 */
module Manifest {
  import opened Base
  import opened Metadata

  const VersionPrefix := "version = "
  const DependenciesHeader := "[dependencies]"

  predicate IsVersionLine(l: string) {
    StartsWith(l, VersionPrefix)
  }

  /** What becomes of one manifest line read before the header: dropped (None) or written. */
  function RewriteLine(l: string, selfVersion: Option<string>): (r: Option<string>)
    ensures r.None? <==> IsVersionLine(l) && selfVersion.None?
    ensures r.Some? ==> (IsVersionLine(r.value) <==> IsVersionLine(l))
    ensures r.Some? ==> (r.value == DependenciesHeader <==> l == DependenciesHeader)
  {
    if !IsVersionLine(l) then Some(l)
    else if selfVersion.None? then None
    else
      var v := VersionPrefix + selfVersion.value;
      assert v[..|VersionPrefix|] == VersionPrefix;
      HeaderIsNoVersionLine();
      Some(v)
  }

  /** The lines of the new manifest. */
  function Rewrite(manifest: seq<string>, meta: Meta): (r: seq<string>)
    ensures |r| <= |manifest| + |meta.deps|
    ensures DependenciesHeader !in manifest ==> |r| <= |manifest|
    ensures DependenciesHeader in manifest ==> |r| > |meta.deps|
  {
    if manifest == [] then []
    else
      HeaderIsNoVersionLine();
      assert DependenciesHeader in manifest ==>
        manifest[0] == DependenciesHeader || DependenciesHeader in manifest[1..];
      match RewriteLine(manifest[0], meta.selfVersion)
      case None => Rewrite(manifest[1..], meta)
      case Some(l) =>
        if l == DependenciesHeader then [l] + meta.deps
        else [l] + Rewrite(manifest[1..], meta)
  }

  /** The version handling alone, applied to every line: the reference for the part before the header. */
  function VersionFilter(ls: seq<string>, selfVersion: Option<string>): seq<string> {
    if ls == [] then []
    else
      (match RewriteLine(ls[0], selfVersion) case None => [] case Some(l) => [l])
      + VersionFilter(ls[1..], selfVersion)
  }

  lemma HeaderIsNoVersionLine()
    ensures !IsVersionLine(DependenciesHeader)
  {
    assert DependenciesHeader[0] != VersionPrefix[0];
  }

  /**
   * With a `[dependencies]` line, the new manifest is the version-filtered
   * part before its first occurrence, the header, and the dependency block;
   * whatever followed the header is gone.
   */
  lemma {:induction false} RewriteWithHeader(pre: seq<string>, post: seq<string>, meta: Meta)
    requires DependenciesHeader !in pre
    ensures Rewrite(pre + [DependenciesHeader] + post, meta)
         == VersionFilter(pre, meta.selfVersion) + [DependenciesHeader] + meta.deps
  {
    var m := pre + [DependenciesHeader] + post;
    HeaderIsNoVersionLine();
    if pre == [] {
      assert m[0] == DependenciesHeader;
    } else {
      assert m[0] == pre[0] && m[1..] == pre[1..] + [DependenciesHeader] + post;
      assert pre[0] in pre;
      RewriteWithHeader(pre[1..], post, meta);
      var r := RewriteLine(pre[0], meta.selfVersion);
      var tail := VersionFilter(pre[1..], meta.selfVersion) + [DependenciesHeader] + meta.deps;
      if r.None? {
        assert Rewrite(m, meta) == Rewrite(m[1..], meta);
        assert VersionFilter(pre, meta.selfVersion) == VersionFilter(pre[1..], meta.selfVersion);
      } else {
        assert r.value != DependenciesHeader;
        assert Rewrite(m, meta) == [r.value] + tail;
        assert VersionFilter(pre, meta.selfVersion) == [r.value] + VersionFilter(pre[1..], meta.selfVersion);
      }
    }
  }

  lemma VersionLineIsNoHeader(v: string)
    ensures VersionPrefix + v != DependenciesHeader
  {
    assert (VersionPrefix + v)[0] == 'v';
  }

  /** Without a `[dependencies]` line, the whole manifest is copied, version-filtered, and no block is written. */
  lemma {:induction false} RewriteWithoutHeader(m: seq<string>, meta: Meta)
    requires DependenciesHeader !in m
    ensures Rewrite(m, meta) == VersionFilter(m, meta.selfVersion)
  {
    if m != [] {
      assert m[0] in m;
      RewriteWithoutHeader(m[1..], meta);
      var r := RewriteLine(m[0], meta.selfVersion);
      if r.Some? && IsVersionLine(m[0]) {
        VersionLineIsNoHeader(meta.selfVersion.value);
      }
    }
  }

  lemma {:induction false} VersionFilterAppend(a: seq<string>, b: seq<string>, selfVersion: Option<string>)
    ensures VersionFilter(a + b, selfVersion) == VersionFilter(a, selfVersion) + VersionFilter(b, selfVersion)
  {
    if a == [] {
      assert a + b == b;
    } else {
      assert (a + b)[0] == a[0] && (a + b)[1..] == a[1..] + b;
      VersionFilterAppend(a[1..], b, selfVersion);
    }
  }

  /** With a self version, every version line becomes `version = <it>` and every other line stays, one for one. */
  lemma {:induction false} VersionFilterWithSelfVersion(ls: seq<string>, v: string)
    ensures |VersionFilter(ls, Some(v))| == |ls|
    ensures forall k :: 0 <= k < |ls| ==>
      VersionFilter(ls, Some(v))[k] == if IsVersionLine(ls[k]) then VersionPrefix + v else ls[k]
  {
    if ls != [] {
      VersionFilterWithSelfVersion(ls[1..], v);
    }
  }

  /**
   * Without a self version, no version line is left, every other line is
   * kept, and nothing new appears.
   */
  lemma {:induction false} VersionFilterWithoutSelfVersion(ls: seq<string>)
    ensures forall l <- VersionFilter(ls, None) :: !IsVersionLine(l) && l in ls
    ensures forall l <- ls :: !IsVersionLine(l) ==> l in VersionFilter(ls, None)
  {
    if ls != [] {
      VersionFilterWithoutSelfVersion(ls[1..]);
      assert forall l <- ls[1..] :: l in ls;
      assert forall l <- ls :: l == ls[0] || l in ls[1..];
    }
  }

  /** Rewriting the rewritten manifest again, with the same metadata, changes nothing. */
  lemma {:induction false} RewriteIdempotent(m: seq<string>, meta: Meta)
    ensures Rewrite(Rewrite(m, meta), meta) == Rewrite(m, meta)
  {
    HeaderIsNoVersionLine();
    if m != [] {
      RewriteIdempotent(m[1..], meta);
      var r := RewriteLine(m[0], meta.selfVersion);
      if r.Some? {
        var l := r.value;
        var out := Rewrite(m, meta);
        assert out[0] == l;
        if IsVersionLine(m[0]) {
          assert StartsWith(l, VersionPrefix) by {
            assert l[..|VersionPrefix|] == VersionPrefix;
          }
        }
        assert RewriteLine(l, meta.selfVersion) == Some(l);
        if l == DependenciesHeader {
          assert out[1..] == meta.deps;
        } else {
          assert out[1..] == Rewrite(m[1..], meta);
        }
      }
    }
  }
}
