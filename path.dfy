/**
 * Workspace path depth (`src/utils/path.ts`): how many folders below the
 * workspace root a path lies, counting non-empty `/`-separated segments.
 */
module PathUtil {
  import opened Common
  import opened Strings

  /** `p.replace(/\/+$/, '')`: every trailing `/` removed, so `/` becomes ''. */
  function NormalizePath(p: string): (r: string)
    ensures StartsWith(p, r)
    ensures r == [] || r[|r| - 1] != '/'
    ensures forall i :: |r| <= i < |p| ==> p[i] == '/'
  {
    if |p| > 0 && p[|p| - 1] == '/' then NormalizePath(p[..|p| - 1]) else p
  }

  /** `normalizePath(p).split('/').filter(Boolean)`. */
  function Segments(p: string): seq<string> {
    NonEmpty(Split(NormalizePath(p), '/'))
  }

  /** Every segment of `root` equals the segment of `target` at the same position. */
  predicate SegPrefix(root: seq<string>, target: seq<string>) {
    forall i :: 0 <= i < |root| ==> i < |target| && target[i] == root[i]
  }

  /**
   * `getDepthFromRootPath`: the target's segment count when the root has no
   * segments; otherwise null unless the root's segments start the target's,
   * and then the difference of the two counts.
   */
  function DepthFromRoot(root: string, target: string): (r: Option<int>)
    ensures r.None? <==> !SegPrefix(Segments(root), Segments(target))
    ensures r.Some? ==> r.value >= 0 && r.value == |Segments(target)| - |Segments(root)|
  {
    var rs := Segments(root);
    var ts := Segments(target);
    if |rs| == 0 then Some(|ts|)
    else if SegPrefix(rs, ts) then
      assert rs[|rs| - 1] == rs[|rs| - 1];
      Some(|ts| - |rs|)
    else None
  }

  /** The root lies at depth 0 below itself. */
  lemma DepthOfRootIsZero(root: string)
    ensures DepthFromRoot(root, root) == Some(0)
  {
  }

  /** A run of `/` where one would do contributes no segment. */
  lemma RepeatedSlashIgnored(a: string, b: string)
    ensures NonEmpty(Split(a + "//" + b, '/')) == NonEmpty(Split(a + "/" + b, '/'))
  {
    assert a + "//" + b == a + ['/'] + ("" + ['/'] + b);
    SplitConcat(a, "" + ['/'] + b, '/');
    SplitConcat("", b, '/');
    assert "" + ['/'] + b == ['/'] + b;
    assert a + "/" + b == a + ['/'] + b;
    SplitConcat(a, b, '/');
    NonEmptyAppend(Split(a, '/'), Split("", '/') + Split(b, '/'));
    NonEmptyAppend(Split("", '/'), Split(b, '/'));
    NonEmptyAppend(Split(a, '/'), Split(b, '/'));
  }

  lemma {:induction false} TrailingSlashesIgnored(p: string)
    ensures Segments(p) == NonEmpty(Split(p, '/'))
    decreases |p|
  {
    if |p| > 0 && p[|p| - 1] == '/' {
      var q := p[..|p| - 1];
      TrailingSlashesIgnored(q);
      assert p == q + ['/'] + "";
      SplitConcat(q, "", '/');
      NonEmptyAppend(Split(q, '/'), Split("", '/'));
    }
  }

  /** Trailing slashes on either argument do not change the depth. */
  lemma DepthIgnoresTrailingSlash(root: string, target: string)
    ensures DepthFromRoot(root + "/", target) == DepthFromRoot(root, target)
    ensures DepthFromRoot(root, target + "/") == DepthFromRoot(root, target)
  {
    SlashSegments(root);
    SlashSegments(target);
  }

  /** One more `/` at the end leaves the segments as they are. */
  lemma SlashSegments(p: string)
    ensures Segments(p + "/") == Segments(p)
  {
    assert (p + "/")[..|p|] == p;
    assert NormalizePath(p + "/") == NormalizePath(p);
  }

  /** A child one segment below a folder lies one level deeper. */
  lemma DepthOfChild(root: string, dir: string, seg: string)
    requires seg != "" && '/' !in seg
    requires DepthFromRoot(root, dir).Some?
    ensures DepthFromRoot(root, dir + "/" + seg) == Some(DepthFromRoot(root, dir).value + 1)
  {
    var child := dir + "/" + seg;
    assert child == dir + ['/'] + seg;
    TrailingSlashesIgnored(child);
    TrailingSlashesIgnored(dir);
    SplitConcat(dir, seg, '/');
    SplitNoSep(seg, '/');
    NonEmptyAppend(Split(dir, '/'), [seg]);
    assert Segments(child) == Segments(dir) + [seg];
  }
}
