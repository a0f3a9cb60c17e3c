/**
 * The in-memory filesystem used when no desktop backend is available: a
 * mutable forest of nodes (`MOCK_FILES`) and a path-to-content dictionary
 * (`MOCK_CONTENT`), changed in place by create, delete, move and copy.
 */
module MockFs {
  import opened Common
  import opened Strings
  import opened FileTree

  /** The directory that stands for the root of the mock workspace. */
  const Root: string := "/mock"

  predicate NoDup(s: seq<string>) {
    forall i, j :: 0 <= i < j < |s| ==> s[i] != s[j]
  }

  function Without(s: seq<string>, k: string): (r: seq<string>)
    ensures forall x :: x in r <==> x in s && x != k
    ensures NoDup(s) ==> NoDup(r)
  {
    if s == [] then []
    else
      var rest := Without(s[1..], k);
      if s[0] == k then rest
      else
        assert NoDup(s) ==> s[0] !in s[1..];
        [s[0]] + rest
  }

  /**
   * A string-keyed JavaScript object: its entries, and its keys in insertion
   * order (the order in which `Object.entries` lists them).
   */
  datatype ContentTable = ContentTable(values: map<string, string>, order: seq<string>)
  {
    ghost predicate Valid() {
      NoDup(order) && forall k :: k in values <==> k in order
    }

    /** `obj[k] = v`: a new key goes last, an existing key keeps its place. */
    function Set(k: string, v: string): (t: ContentTable)
      ensures Valid() ==> t.Valid()
      ensures t.values == values[k := v]
      ensures k in values ==> t.order == order
    {
      ContentTable(values[k := v], if k in values then order else order + [k])
    }

    /** `delete obj[k]`. */
    function Delete(k: string): (t: ContentTable)
      ensures Valid() ==> t.Valid()
      ensures t.values == values - {k}
    {
      ContentTable(values - {k}, Without(order, k))
    }
  }

  /** `path.substring(0, path.lastIndexOf('/'))`: everything before the last `/`, or '' when there is none. */
  function DirOf(path: string): string {
    Substring(path, 0, LastIndexOf(path, '/'))
  }

  /** The position of the first node of `nodes` (this level only) whose path is `p`, or `|nodes|`. */
  function IndexOfPath(nodes: seq<FileNode>, p: string): (i: nat)
    ensures i <= |nodes|
    ensures i < |nodes| ==> nodes[i].path == p
    ensures forall j :: 0 <= j < i ==> nodes[j].path != p
  {
    if nodes == [] then 0
    else if nodes[0].path == p then 0
    else 1 + IndexOfPath(nodes[1..], p)
  }

  /**
   * Where createDir and createFile put a new node: at the root when the parent
   * is `/mock`; otherwise under the first TOP-LEVEL node with the parent's path
   * when it has a child list; otherwise, as a fallback, at the root.
   */
  function AddTopLevel(nodes: seq<FileNode>, parent: string, n: FileNode): seq<FileNode>
  {
    if parent == Root then nodes + [n]
    else
      var i := IndexOfPath(nodes, parent);
      if i < |nodes| && nodes[i].children.Children? then
        nodes[..i] + [nodes[i].(children := Children(nodes[i].children.nodes + [n]))] + nodes[i + 1..]
      else nodes + [n]
  }

  /**
   * Where moveFile and copyFile put a node: at the root when the target's
   * directory is `/mock`; otherwise under the first node (pre-order, whole
   * tree) with that path when it has a child list; otherwise at the root.
   */
  function Place(nodes: seq<FileNode>, dir: string, n: FileNode): seq<FileNode> {
    if dir == Root then nodes + [n]
    else
      match AppendUnder(nodes, dir, n)
      case Placed(r) => r
      case _ => nodes + [n]
  }

  /**
   * deleteFile's `removeNode`: the first node of this level with path `p` is
   * removed; only when there is none are the children searched, node by node,
   * stopping at the first removal. Returns the removed node and the new forest.
   */
  function RemovePath(nodes: seq<FileNode>, p: string): Option<(FileNode, seq<FileNode>)>
    decreases nodes, 1
  {
    var i := IndexOfPath(nodes, p);
    if i < |nodes| then Some((nodes[i], nodes[..i] + nodes[i + 1..]))
    else RemoveInChildren(nodes, p)
  }

  function RemoveInChildren(nodes: seq<FileNode>, p: string): Option<(FileNode, seq<FileNode>)>
    decreases nodes, 0
  {
    if nodes == [] then None
    else
      var m := nodes[0];
      var inKids := if m.children.Children? then RemovePath(m.children.nodes, p) else None;
      if inKids.Some? then Some((inKids.value.0, [m.(children := Children(inKids.value.1))] + nodes[1..]))
      else
        var inRest := RemoveInChildren(nodes[1..], p);
        if inRest.Some? then Some((inRest.value.0, [m] + inRest.value.1)) else None
  }

  /** The path a child gets under a parent whose new path is `parentPath`: the parent's path, `/`, the child's OLD last segment. */
  function ChildPath(parentPath: string, child: FileNode): string {
    parentPath + "/" + AfterLast(child.path, '/')
  }

  /** moveFile's `updatePath` on the tree: new paths for the node and all its descendants, names untouched. */
  function Relocate(n: FileNode, newPath: string): FileNode {
    n.(path := newPath,
       children := if n.children.Children? then Children(RelocateAll(n.children.nodes, newPath)) else NoChildren)
  }

  function RelocateAll(kids: seq<FileNode>, parentPath: string): seq<FileNode> {
    if kids == [] then []
    else [Relocate(kids[0], ChildPath(parentPath, kids[0]))] + RelocateAll(kids[1..], parentPath)
  }

  /** copyFile's `cloneNode`'s name: the last segment of the new path, or `copy` when it is empty. */
  function CloneName(newPath: string): string {
    var last := AfterLast(newPath, '/');
    if last == "" then "copy" else last
  }

  /** copyFile's `cloneNode` on the tree: like `Relocate`, but every copy is also renamed after its new path. */
  function Clone(n: FileNode, newPath: string): FileNode {
    n.(path := newPath, name := CloneName(newPath),
       children := if n.children.Children? then Children(CloneAll(n.children.nodes, newPath)) else NoChildren)
  }

  function CloneAll(kids: seq<FileNode>, parentPath: string): seq<FileNode> {
    if kids == [] then []
    else [Clone(kids[0], ChildPath(parentPath, kids[0]))] + CloneAll(kids[1..], parentPath)
  }

  /** The (old path, new path) pairs that `updatePath` and `cloneNode` visit, in their pre-order. */
  function PathPairs(n: FileNode, newPath: string): seq<(string, string)> {
    [(n.path, newPath)]
    + (if n.children.Children? then PathPairsAll(n.children.nodes, newPath) else [])
  }

  function PathPairsAll(kids: seq<FileNode>, parentPath: string): seq<(string, string)> {
    if kids == [] then []
    else PathPairs(kids[0], ChildPath(parentPath, kids[0])) + PathPairsAll(kids[1..], parentPath)
  }

  /** `updatePath`'s content moves, one pair at a time: when the old key is defined, copy it to the new key, then delete the old key. */
  function MoveContent(t: ContentTable, pairs: seq<(string, string)>): ContentTable
    decreases pairs
  {
    if pairs == [] then t
    else
      var (o, w) := pairs[0];
      MoveContent(if o in t.values then t.Set(w, t.values[o]).Delete(o) else t, pairs[1..])
  }

  /** `cloneNode`'s content copies, one pair at a time: when the old key is defined, copy it to the new key. */
  function CopyContent(t: ContentTable, pairs: seq<(string, string)>): ContentTable
    decreases pairs
  {
    if pairs == [] then t
    else
      var (o, w) := pairs[0];
      CopyContent(if o in t.values then t.Set(w, t.values[o]) else t, pairs[1..])
  }

  function Firsts(pairs: seq<(string, string)>): (r: seq<string>)
    ensures |r| == |pairs| && forall i :: 0 <= i < |pairs| ==> r[i] == pairs[i].0
  {
    seq(|pairs|, i requires 0 <= i < |pairs| => pairs[i].0)
  }

  function Seconds(pairs: seq<(string, string)>): (r: seq<string>)
    ensures |r| == |pairs| && forall i :: 0 <= i < |pairs| ==> r[i] == pairs[i].1
  {
    seq(|pairs|, i requires 0 <= i < |pairs| => pairs[i].1)
  }

  /** One search hit of `searchText`. */
  datatype Hit = Hit(path: string, name: string, line: nat, preview: string)

  /** The hit cap of `searchText`. */
  const MaxHits: nat := 50

  function HitName(path: string): string {
    var last := AfterLast(path, '/');
    if last == "" then path else last
  }

  predicate Searchable(path: string) {
    EndsWith(path, ".md") || EndsWith(path, ".txt")
  }

  predicate LineMatches(line: string, q: string) {
    Contains(ToLower(line), q)
  }

  /** The hits among the first `n` lines, numbered from 1. */
  function LineHits(path: string, name: string, lines: seq<string>, q: string, n: nat): seq<Hit>
    requires n <= |lines|
  {
    if n == 0 then []
    else
      LineHits(path, name, lines, q, n - 1)
      + (if LineMatches(lines[n - 1], q) then [Hit(path, name, n, lines[n - 1])] else [])
  }

  function FileHits(path: string, text: string, q: string): seq<Hit> {
    if Searchable(path) then
      var lines := Split(text, '\n');
      LineHits(path, HitName(path), lines, q, |lines|)
    else []
  }

  /** The hits of the first `k` keys, in key order. */
  function TableHits(t: ContentTable, q: string, k: nat): seq<Hit>
    requires k <= |t.order|
  {
    if k == 0 then []
    else
      var path := t.order[k - 1];
      TableHits(t, q, k - 1) + (if path in t.values then FileHits(path, t.values[path], q) else [])
  }

  function SearchQuery(query: string): string {
    ToLower(Trim(query, Js))
  }

  /** What `searchText` returns: no hits for a blank query, otherwise the first 50 hits in key and line order. */
  function SearchResult(query: string, t: ContentTable): seq<Hit>
  {
    var q := SearchQuery(query);
    if q == "" then [] else Capped(TableHits(t, q, |t.order|))
  }

  /** The first 50 hits. */
  function Capped(all: seq<Hit>): seq<Hit> {
    if |all| <= MaxHits then all else all[..MaxHits]
  }

  // ---------------------------------------------------------------------------
  // Lemmas about the specification functions
  // ---------------------------------------------------------------------------

  lemma {:induction false} LineHitsGrow(path: string, name: string, lines: seq<string>, q: string, i: nat, j: nat)
    requires i <= j <= |lines|
    ensures |LineHits(path, name, lines, q, i)| <= |LineHits(path, name, lines, q, j)|
    ensures LineHits(path, name, lines, q, j)[..|LineHits(path, name, lines, q, i)|] == LineHits(path, name, lines, q, i)
    decreases j - i
  {
    if i < j {
      LineHitsGrow(path, name, lines, q, i, j - 1);
      var a, b := LineHits(path, name, lines, q, i), LineHits(path, name, lines, q, j - 1);
      assert LineHits(path, name, lines, q, j)[..|b|] == b;
      assert b[..|a|] == a;
    }
  }

  lemma {:induction false} TableHitsGrow(t: ContentTable, q: string, i: nat, j: nat)
    requires i <= j <= |t.order|
    ensures |TableHits(t, q, i)| <= |TableHits(t, q, j)|
    ensures TableHits(t, q, j)[..|TableHits(t, q, i)|] == TableHits(t, q, i)
    decreases j - i
  {
    if i < j {
      TableHitsGrow(t, q, i, j - 1);
      var a, b := TableHits(t, q, i), TableHits(t, q, j - 1);
      var c := TableHits(t, q, j);
      assert c[..|b|] == b;
      assert b[..|a|] == a;
    }
  }

  /** Every hit among the first `n` lines names a matching line by its 1-based number. */
  lemma {:induction false} LineHitsSound(path: string, name: string, lines: seq<string>, q: string, n: nat)
    requires n <= |lines|
    ensures forall h :: h in LineHits(path, name, lines, q, n) ==>
      h.path == path && h.name == name && 1 <= h.line <= n && h.preview == lines[h.line - 1] && LineMatches(h.preview, q)
  {
    if n > 0 {
      LineHitsSound(path, name, lines, q, n - 1);
    }
  }

  /** A hit the search returns belongs to a `.md` or `.txt` entry and to a matching line. */
  lemma {:induction false} TableHitsSound(t: ContentTable, q: string, k: nat)
    requires k <= |t.order|
    ensures forall h :: h in TableHits(t, q, k) ==>
      h.path in t.values && Searchable(h.path) && h.name == HitName(h.path) && h.line >= 1
      && h.line <= |Split(t.values[h.path], '\n')|
      && h.preview == Split(t.values[h.path], '\n')[h.line - 1]
      && LineMatches(h.preview, q)
  {
    if k > 0 {
      TableHitsSound(t, q, k - 1);
      var path := t.order[k - 1];
      if path in t.values && Searchable(path) {
        var lines := Split(t.values[path], '\n');
        LineHitsSound(path, HitName(path), lines, q, |lines|);
      }
    }
  }

  /**
   * searchText returns nothing for a blank query, never more than 50 hits, and
   * only hits on lines that contain the lower-cased trimmed query.
   */
  lemma SearchResultSound(query: string, t: ContentTable)
    ensures SearchQuery(query) == "" ==> SearchResult(query, t) == []
    ensures |SearchResult(query, t)| <= MaxHits
    ensures forall h :: h in SearchResult(query, t) ==>
      h.path in t.values && Searchable(h.path) && h.name == HitName(h.path) && h.line >= 1
      && h.line <= |Split(t.values[h.path], '\n')|
      && h.preview == Split(t.values[h.path], '\n')[h.line - 1]
      && Contains(ToLower(h.preview), SearchQuery(query))
  {
    var q := SearchQuery(query);
    if q != "" {
      TableHitsSound(t, q, |t.order|);
      var all := TableHits(t, q, |t.order|);
      if |all| > MaxHits {
        forall h | h in all[..MaxHits] ensures h in all {
          var i :| 0 <= i < MaxHits && all[..MaxHits][i] == h;
          assert all[i] == h;
        }
      }
    }
  }

  lemma {:induction false} RemovePathSpec(nodes: seq<FileNode>, p: string)
    ensures RemovePath(nodes, p).Some? <==> p in Paths(nodes)
    ensures RemovePath(nodes, p).Some? ==>
      RemovePath(nodes, p).value.0.path == p
      && multiset(Paths(nodes))
         == multiset(Paths(RemovePath(nodes, p).value.1)) + multiset(Paths([RemovePath(nodes, p).value.0]))
    decreases nodes, 1
  {
    var i := IndexOfPath(nodes, p);
    if i < |nodes| {
      assert nodes == nodes[..i] + [nodes[i]] + nodes[i + 1..];
      PathsAppend(nodes[..i] + [nodes[i]], nodes[i + 1..]);
      PathsAppend(nodes[..i], [nodes[i]]);
      PathsAppend(nodes[..i], nodes[i + 1..]);
      PathsSingle(nodes[i]);
    } else {
      RemoveInChildrenSpec(nodes, p);
    }
  }

  lemma {:induction false} RemoveInChildrenSpec(nodes: seq<FileNode>, p: string)
    requires forall j :: 0 <= j < |nodes| ==> nodes[j].path != p
    ensures RemoveInChildren(nodes, p).Some? <==> p in Paths(nodes)
    ensures RemoveInChildren(nodes, p).Some? ==>
      RemoveInChildren(nodes, p).value.0.path == p
      && multiset(Paths(nodes))
         == multiset(Paths(RemoveInChildren(nodes, p).value.1)) + multiset(Paths([RemoveInChildren(nodes, p).value.0]))
    decreases nodes, 0
  {
    if nodes != [] {
      var m, rest := nodes[0], nodes[1..];
      assert nodes == [m] + rest;
      PathsCons(m, rest);
      if m.children.Children? {
        RemovePathSpec(m.children.nodes, p);
      }
      var inKids := if m.children.Children? then RemovePath(m.children.nodes, p) else None;
      if inKids.Some? {
        var m' := m.(children := Children(inKids.value.1));
        HeadKidsGrow(m', m, rest, multiset(Paths([inKids.value.0])));
      } else {
        RemoveInChildrenSpec(rest, p);
        var inRest := RemoveInChildren(rest, p);
        if inRest.Some? {
          RestGrows(m, inRest.value.1, rest, multiset(Paths([inRest.value.0])));
        }
      }
    }
  }

  /** createDir/createFile lose no node and add exactly the new one. */
  lemma AddTopLevelAddsPaths(nodes: seq<FileNode>, parent: string, n: FileNode)
    ensures multiset(Paths(AddTopLevel(nodes, parent, n))) == multiset(Paths(nodes)) + multiset(Paths([n]))
  {
    var i := IndexOfPath(nodes, parent);
    if parent != Root && i < |nodes| && nodes[i].children.Children? {
      var m := nodes[i];
      var m' := m.(children := Children(m.children.nodes + [n]));
      assert nodes == nodes[..i] + ([m] + nodes[i + 1..]);
      assert AddTopLevel(nodes, parent, n) == nodes[..i] + ([m'] + nodes[i + 1..]);
      PathsAppend(m.children.nodes, [n]);
      HeadKidsGrow(m, m', nodes[i + 1..], multiset(Paths([n])));
      PrefixGrows(nodes[..i], [m] + nodes[i + 1..], [m'] + nodes[i + 1..], multiset(Paths([n])));
    } else {
      PathsAppend(nodes, [n]);
    }
  }

  /** A forest grows by what one of its tails grows by. */
  lemma PrefixGrows(pre: seq<FileNode>, x: seq<FileNode>, x': seq<FileNode>, extra: multiset<string>)
    requires multiset(Paths(x')) == multiset(Paths(x)) + extra
    ensures multiset(Paths(pre + x')) == multiset(Paths(pre + x)) + extra
  {
    PathsAppend(pre, x);
    PathsAppend(pre, x');
  }

  /** moveFile and copyFile lose no node when they insert one. */
  lemma PlaceAddsPaths(nodes: seq<FileNode>, dir: string, n: FileNode)
    ensures multiset(Paths(Place(nodes, dir, n))) == multiset(Paths(nodes)) + multiset(Paths([n]))
  {
    PathsAppend(nodes, [n]);
    AppendUnderAddsPaths(nodes, dir, n);
  }

  lemma FirstsAppend(a: seq<(string, string)>, b: seq<(string, string)>)
    ensures Firsts(a + b) == Firsts(a) + Firsts(b) && Seconds(a + b) == Seconds(a) + Seconds(b)
  {
    assert Firsts(a + b) == Firsts(a) + Firsts(b);
    assert Seconds(a + b) == Seconds(a) + Seconds(b);
  }

  /**
   * `updatePath` pairs every old path of the subtree, in pre-order, with the
   * node's new path there; every new path lies under the target; names stay.
   */
  lemma {:induction false} RelocateSpec(n: FileNode, t: string)
    ensures Firsts(PathPairs(n, t)) == Paths([n])
    ensures Seconds(PathPairs(n, t)) == Paths([Relocate(n, t)])
    ensures Names([Relocate(n, t)]) == Names([n])
    ensures forall q :: q in Paths([Relocate(n, t)]) ==> q == t || StartsWith(q, t + "/")
  {
    var r := Relocate(n, t);
    var sub := PathPairsAll(Kids(n), t);
    assert PathPairs(n, t) == [(n.path, t)] + sub;
    assert Kids(r) == RelocateAll(Kids(n), t);
    if n.children.Children? {
      RelocateAllSpec(n.children.nodes, t);
    } else {
      assert sub == [] && RelocateAll(Kids(n), t) == [];
    }
    FirstsAppend([(n.path, t)], sub);
    assert Firsts(PathPairs(n, t)) == Paths([n]) by {
      PathsSingle(n);
    }
    assert Seconds(PathPairs(n, t)) == Paths([r]) by {
      PathsSingle(r);
    }
    assert Names([r]) == Names([n]) by {
      NamesCons(n, []);
      NamesCons(r, []);
    }
    PathsSingle(r);
  }

  lemma {:induction false} RelocateAllSpec(kids: seq<FileNode>, parent: string)
    ensures Firsts(PathPairsAll(kids, parent)) == Paths(kids)
    ensures Seconds(PathPairsAll(kids, parent)) == Paths(RelocateAll(kids, parent))
    ensures Names(RelocateAll(kids, parent)) == Names(kids)
    ensures forall q :: q in Paths(RelocateAll(kids, parent)) ==> StartsWith(q, parent + "/")
  {
    if kids != [] {
      var k, rest := kids[0], kids[1..];
      var cp := ChildPath(parent, k);
      assert kids == [k] + rest;
      RelocateSpec(k, cp);
      RelocateAllSpec(rest, parent);
      FirstsAppend(PathPairs(k, cp), PathPairsAll(rest, parent));
      PathsAppend([k], rest);
      NamesAppend([k], rest);
      PathsAppend([Relocate(k, cp)], RelocateAll(rest, parent));
      NamesAppend([Relocate(k, cp)], RelocateAll(rest, parent));
      assert StartsWith(cp, parent + "/");
      forall q | q in Paths([Relocate(k, cp)]) ensures StartsWith(q, parent + "/") {
        if q != cp {
          assert StartsWith(cp + "/", parent + "/");
          StartsWithTrans(q, cp + "/", parent + "/");
        }
      }
    }
  }

  /** A copy's nodes sit exactly where a move would put them. */
  lemma {:induction false} ClonePathsAsRelocate(n: FileNode, t: string)
    ensures Paths([Clone(n, t)]) == Paths([Relocate(n, t)])
  {
    PathsSingle(Clone(n, t));
    PathsSingle(Relocate(n, t));
    if n.children.Children? {
      CloneAllPathsAsRelocate(n.children.nodes, t);
    }
  }

  lemma {:induction false} CloneAllPathsAsRelocate(kids: seq<FileNode>, parent: string)
    ensures Paths(CloneAll(kids, parent)) == Paths(RelocateAll(kids, parent))
  {
    if kids != [] {
      var cp := ChildPath(parent, kids[0]);
      ClonePathsAsRelocate(kids[0], cp);
      CloneAllPathsAsRelocate(kids[1..], parent);
      PathsAppend([Clone(kids[0], cp)], CloneAll(kids[1..], parent));
      PathsAppend([Relocate(kids[0], cp)], RelocateAll(kids[1..], parent));
    }
  }

  /** Every node of a copy is named after the last segment of its own new path. */
  lemma {:induction false} CloneNamedAfterPath(n: FileNode, t: string)
    ensures |Names([Clone(n, t)])| == |Paths([Clone(n, t)])|
    ensures forall i :: 0 <= i < |Names([Clone(n, t)])| ==> Names([Clone(n, t)])[i] == CloneName(Paths([Clone(n, t)])[i])
  {
    var c := Clone(n, t);
    PathsSingle(c);
    NamesCons(c, []);
    if n.children.Children? {
      CloneAllNamedAfterPath(n.children.nodes, t);
    }
  }

  lemma {:induction false} CloneAllNamedAfterPath(kids: seq<FileNode>, parent: string)
    ensures |Names(CloneAll(kids, parent))| == |Paths(CloneAll(kids, parent))|
    ensures forall i :: 0 <= i < |Names(CloneAll(kids, parent))| ==>
      Names(CloneAll(kids, parent))[i] == CloneName(Paths(CloneAll(kids, parent))[i])
  {
    if kids != [] {
      var cp := ChildPath(parent, kids[0]);
      CloneNamedAfterPath(kids[0], cp);
      CloneAllNamedAfterPath(kids[1..], parent);
      PathsAppend([Clone(kids[0], cp)], CloneAll(kids[1..], parent));
      NamesAppend([Clone(kids[0], cp)], CloneAll(kids[1..], parent));
    }
  }

  /** `k` is neither an old nor a new path of any pair. */
  predicate Untouched(k: string, pairs: seq<(string, string)>) {
    forall i :: 0 <= i < |pairs| ==> k != pairs[i].0 && k != pairs[i].1
  }

  /** `k` is not the new path of any pair. */
  predicate NotTarget(k: string, pairs: seq<(string, string)>) {
    forall i :: 0 <= i < |pairs| ==> k != pairs[i].1
  }

  /**
   * When the old paths and the new paths are all distinct, moving content
   * carries each defined old entry to its new path, leaves no old path
   * behind, and keeps every unrelated entry.
   */
  lemma {:induction false} MoveContentEffect(t: ContentTable, pairs: seq<(string, string)>)
    requires forall i, j :: 0 <= i < j < |pairs| ==> pairs[i].0 != pairs[j].0 && pairs[i].1 != pairs[j].1
    requires forall i, j :: 0 <= i < |pairs| && 0 <= j < |pairs| ==> pairs[i].0 != pairs[j].1
    ensures forall i :: 0 <= i < |pairs| ==> pairs[i].0 !in MoveContent(t, pairs).values
    ensures forall i :: 0 <= i < |pairs| && pairs[i].0 in t.values ==>
      pairs[i].1 in MoveContent(t, pairs).values && MoveContent(t, pairs).values[pairs[i].1] == t.values[pairs[i].0]
    ensures forall i :: 0 <= i < |pairs| && pairs[i].0 !in t.values ==>
      (pairs[i].1 in MoveContent(t, pairs).values <==> pairs[i].1 in t.values)
      && (pairs[i].1 in t.values ==> MoveContent(t, pairs).values[pairs[i].1] == t.values[pairs[i].1])
    ensures forall k :: Untouched(k, pairs) ==>
      (k in MoveContent(t, pairs).values <==> k in t.values)
      && (k in t.values ==> MoveContent(t, pairs).values[k] == t.values[k])
    decreases pairs
  {
    if pairs != [] {
      var (o, w) := pairs[0];
      var rest := pairs[1..];
      var t1 := if o in t.values then t.Set(w, t.values[o]).Delete(o) else t;
      assert t1.values == if o in t.values then t.values[w := t.values[o]] - {o} else t.values;
      MoveContentEffect(t1, rest);
      var r := MoveContent(t, pairs);
      assert r == MoveContent(t1, rest);
      assert Untouched(o, rest) && Untouched(w, rest);
      forall i | 0 <= i < |pairs|
        ensures pairs[i].0 !in r.values
        ensures pairs[i].0 in t.values ==> pairs[i].1 in r.values && r.values[pairs[i].1] == t.values[pairs[i].0]
        ensures pairs[i].0 !in t.values ==>
          (pairs[i].1 in r.values <==> pairs[i].1 in t.values)
          && (pairs[i].1 in t.values ==> r.values[pairs[i].1] == t.values[pairs[i].1])
      {
        if i > 0 {
          assert pairs[i] == rest[i - 1];
        }
      }
      forall k | Untouched(k, pairs)
        ensures (k in r.values <==> k in t.values) && (k in t.values ==> r.values[k] == t.values[k])
      {
        assert k != o && k != w;
        assert Untouched(k, rest) by {
          forall i | 0 <= i < |rest| ensures k != rest[i].0 && k != rest[i].1 {
            assert rest[i] == pairs[i + 1];
          }
        }
      }
    }
  }

  /**
   * When the new paths are distinct and none of them is an old path, copying
   * content gives each new path the entry of its old path and keeps every
   * entry that is not a copy target, sources included.
   */
  lemma {:induction false} CopyContentEffect(t: ContentTable, pairs: seq<(string, string)>)
    requires forall i, j :: 0 <= i < j < |pairs| ==> pairs[i].1 != pairs[j].1
    requires forall i, j :: 0 <= i < |pairs| && 0 <= j < |pairs| ==> pairs[i].0 != pairs[j].1
    ensures forall i :: 0 <= i < |pairs| && pairs[i].0 in t.values ==>
      pairs[i].1 in CopyContent(t, pairs).values && CopyContent(t, pairs).values[pairs[i].1] == t.values[pairs[i].0]
    ensures forall k :: NotTarget(k, pairs) ==>
      (k in CopyContent(t, pairs).values <==> k in t.values)
      && (k in t.values ==> CopyContent(t, pairs).values[k] == t.values[k])
    ensures forall k :: k in t.values ==> k in CopyContent(t, pairs).values
    decreases pairs
  {
    if pairs != [] {
      var (o, w) := pairs[0];
      var rest := pairs[1..];
      var t1 := if o in t.values then t.Set(w, t.values[o]) else t;
      CopyContentEffect(t1, rest);
      var r := CopyContent(t, pairs);
      assert r == CopyContent(t1, rest);
      assert NotTarget(o, rest) && NotTarget(w, rest);
      forall i | 0 <= i < |pairs| && pairs[i].0 in t.values
        ensures pairs[i].1 in r.values && r.values[pairs[i].1] == t.values[pairs[i].0]
      {
        if i > 0 {
          assert pairs[i] == rest[i - 1];
          assert pairs[i].0 != w;
        }
      }
      forall k | NotTarget(k, pairs)
        ensures (k in r.values <==> k in t.values) && (k in t.values ==> r.values[k] == t.values[k])
      {
        assert k != w;
        assert NotTarget(k, rest) by {
          forall i | 0 <= i < |rest| ensures k != rest[i].1 {
            assert rest[i] == pairs[i + 1];
          }
        }
      }
    }
  }

  /** Moving a file onto its own path deletes its content: the entry is written and then deleted. */
  lemma MoveOntoItselfDropsContent(t: ContentTable, n: FileNode)
    requires n.children.NoChildren? && n.path in t.values
    ensures n.path !in MoveContent(t, PathPairs(n, n.path)).values
  {
    assert PathPairs(n, n.path) == [(n.path, n.path)];
    var t1 := t.Set(n.path, t.values[n.path]).Delete(n.path);
    assert MoveContent(t, PathPairs(n, n.path)) == MoveContent(t1, []);
  }

  lemma {:induction false} MoveContentValid(t: ContentTable, pairs: seq<(string, string)>)
    requires t.Valid()
    ensures MoveContent(t, pairs).Valid()
    decreases pairs
  {
    if pairs != [] {
      var (o, w) := pairs[0];
      MoveContentValid(if o in t.values then t.Set(w, t.values[o]).Delete(o) else t, pairs[1..]);
    }
  }

  lemma {:induction false} CopyContentValid(t: ContentTable, pairs: seq<(string, string)>)
    requires t.Valid()
    ensures CopyContent(t, pairs).Valid()
    decreases pairs
  {
    if pairs != [] {
      var (o, w) := pairs[0];
      CopyContentValid(if o in t.values then t.Set(w, t.values[o]) else t, pairs[1..]);
    }
  }

  /** The last segment of a new path, or a default when it is empty (`path.split('/').pop() || fallback`). */
  function LastSegmentOr(path: string, fallback: string): (r: string)
    ensures r == fallback || (r != "" && '/' !in r && EndsWith(path, r))
  {
    var last := AfterLast(path, '/');
    if last == "" then fallback else last
  }

  const IntroText: string :=
    "# Welcome to XNote\n\nThis is a high-performance markdown editor.\n\n## Getting Started\nSelect a file from the sidebar to start editing."
  const FeaturesText: string := "# Features\n\n- Fast\n- Secure\n- Local-first"
  const TodoText: string := "# Todo List\n\n- [x] Fix bugs\n- [ ] Add features"

  /** `MOCK_FILES` as the module defines it. */
  function InitialFiles(): seq<FileNode> {
    [ FileNode("Welcome", "/mock/Welcome", true,
        Children([ FileNode("Intro.md", "/mock/Welcome/Intro.md", false, NoChildren, Some("2024-01-01 12:00")),
                   FileNode("Features.md", "/mock/Welcome/Features.md", false, NoChildren, Some("2024-01-01 12:05")) ]),
        None),
      FileNode("Projects", "/mock/Projects", true, Children([]), None),
      FileNode("todo.md", "/mock/todo.md", false, NoChildren, Some("2024-01-02 09:30")) ]
  }

  /** `MOCK_CONTENT` as the module defines it, keys in literal order. */
  function InitialContent(): (t: ContentTable)
    ensures t.Valid()
  {
    ContentTable(
      map["/mock/Welcome/Intro.md" := IntroText, "/mock/Welcome/Features.md" := FeaturesText, "/mock/todo.md" := TodoText],
      ["/mock/Welcome/Intro.md", "/mock/Welcome/Features.md", "/mock/todo.md"])
  }

  lemma MoveKeepsCount(files: seq<FileNode>, source: string, target: string)
    requires Detach(files, source).Some?
    ensures var (n, rest) := Detach(files, source).value;
      var after := Place(rest, DirOf(target), Relocate(n, target));
      |Paths(after)| == |Paths(files)| && target in Paths(after)
  {
    var (n, rest) := Detach(files, source).value;
    var moved := Relocate(n, target);
    PlaceAddsPaths(rest, DirOf(target), moved);
    RelocateSpec(n, target);
    PathsSingle(moved);
    assert |Paths([moved])| == |Paths([n])| by {
      assert |Seconds(PathPairs(n, target))| == |Firsts(PathPairs(n, target))|;
    }
    var after := Place(rest, DirOf(target), moved);
    assert |multiset(Paths(files))| == |multiset(Paths(rest)) + multiset(Paths([n]))|;
    assert |multiset(Paths(after))| == |multiset(Paths(rest)) + multiset(Paths([moved]))|;
    assert multiset(Paths(after))[target] > 0;
  }

  lemma CopyAddsCount(files: seq<FileNode>, source: string, target: string)
    requires Find(files, source).Some?
    ensures var after := Place(files, DirOf(target), Clone(Find(files, source).value, target));
      target in Paths(after)
      && multiset(Paths(files)) <= multiset(Paths(after))
      && |Paths(after)| == |Paths(files)| + |Paths([Find(files, source).value])|
  {
    var n := Find(files, source).value;
    var copy := Clone(n, target);
    PlaceAddsPaths(files, DirOf(target), copy);
    ClonePathsAsRelocate(n, target);
    RelocateSpec(n, target);
    PathsSingle(copy);
    assert |Paths([copy])| == |Paths([n])| by {
      assert |Seconds(PathPairs(n, target))| == |Firsts(PathPairs(n, target))|;
    }
    var after := Place(files, DirOf(target), copy);
    assert |multiset(Paths(after))| == |multiset(Paths(files)) + multiset(Paths([copy]))|;
    assert multiset(Paths(after))[target] > 0;
  }

  lemma TableHitsStep(t: ContentTable, q: string, k: nat)
    requires k < |t.order|
    ensures t.order[k] in t.values ==>
      TableHits(t, q, k + 1) == TableHits(t, q, k) + FileHits(t.order[k], t.values[t.order[k]], q)
    ensures t.order[k] !in t.values || !Searchable(t.order[k]) ==> TableHits(t, q, k + 1) == TableHits(t, q, k)
  {
  }

  /** The hits gathered up to line `i` of key `k` are the start of the full hit list. */
  lemma EarlyStop(t: ContentTable, q: string, k: nat, lines: seq<string>, i: nat)
    requires k < |t.order| && t.order[k] in t.values && Searchable(t.order[k])
    requires lines == Split(t.values[t.order[k]], '\n') && i < |lines|
    ensures var part := TableHits(t, q, k) + LineHits(t.order[k], HitName(t.order[k]), lines, q, i + 1);
      |part| <= |TableHits(t, q, |t.order|)| && part == TableHits(t, q, |t.order|)[..|part|]
  {
    var path := t.order[k];
    var name := HitName(path);
    LineHitsGrow(path, name, lines, q, i + 1, |lines|);
    TableHitsGrow(t, q, k + 1, |t.order|);
    TableHitsStep(t, q, k);
    assert FileHits(path, t.values[path], q) == LineHits(path, name, lines, q, |lines|);
    PrefixOfPrefix(TableHits(t, q, k), LineHits(path, name, lines, q, i + 1),
      LineHits(path, name, lines, q, |lines|), TableHits(t, q, |t.order|));
  }

  /** A prefix of `y`, after `a`, is a prefix of whatever `a + y` is a prefix of. */
  lemma PrefixOfPrefix<T>(a: seq<T>, x: seq<T>, y: seq<T>, w: seq<T>)
    requires |x| <= |y| && y[..|x|] == x
    requires |a + y| <= |w| && w[..|a + y|] == a + y
    ensures |a + x| <= |w| && w[..|a + x|] == a + x
  {
    assert (a + y)[..|a + x|] == a + x;
  }

  /**
   * The inner loop of `searchText`: appends the hits of one entry's lines, in
   * order, to `acc`, and stops as soon as the list holds 50 hits.
   */
  method ScanLines(path: string, name: string, lines: seq<string>, q: string, acc: seq<Hit>)
    returns (hits: seq<Hit>, scanned: nat, stopped: bool)
    requires |acc| < MaxHits
    ensures scanned <= |lines| && hits == acc + LineHits(path, name, lines, q, scanned)
    ensures stopped ==> |hits| == MaxHits && scanned >= 1
    ensures !stopped ==> scanned == |lines| && |hits| < MaxHits
  {
    hits := acc;
    var i := 0;
    assert acc + LineHits(path, name, lines, q, 0) == acc;
    while i < |lines|
      invariant 0 <= i <= |lines|
      invariant hits == acc + LineHits(path, name, lines, q, i)
      invariant |hits| < MaxHits
    {
      ghost var before := LineHits(path, name, lines, q, i);
      if LineMatches(lines[i], q) {
        var h := Hit(path, name, i + 1, lines[i]);
        assert LineHits(path, name, lines, q, i + 1) == before + [h];
        assert acc + (before + [h]) == (acc + before) + [h];
        hits := hits + [h];
        if |hits| >= MaxHits {
          return hits, i + 1, true;
        }
      }
      i := i + 1;
    }
    scanned, stopped := i, false;
  }

  lemma CappedPrefix(part: seq<Hit>, whole: seq<Hit>)
    requires |part| == MaxHits <= |whole| && part == whole[..MaxHits]
    ensures part == Capped(whole)
  {
  }

  /**
   * The outer loop of `searchText`: walks the keys in order and scans each
   * `.md`/`.txt` entry, stopping as soon as 50 hits are collected.
   */
  method ScanTable(t: ContentTable, q: string) returns (hits: seq<Hit>)
    ensures hits == Capped(TableHits(t, q, |t.order|))
  {
    hits := [];
    var k := 0;
    while k < |t.order|
      invariant 0 <= k <= |t.order|
      invariant hits == TableHits(t, q, k)
      invariant |hits| < MaxHits
    {
      var path := t.order[k];
      if path in t.values && (EndsWith(path, ".md") || EndsWith(path, ".txt")) {
        var lines := Split(t.values[path], '\n');
        var scanned, stopped;
        hits, scanned, stopped := ScanLines(path, HitName(path), lines, q, hits);
        if stopped {
          EarlyStop(t, q, k, lines, scanned - 1);
          CappedPrefix(hits, TableHits(t, q, |t.order|));
          return;
        }
      }
      TableHitsStep(t, q, k);
      k := k + 1;
    }
  }

  /** The browser adapter's mutable state: the tree `MOCK_FILES` and the dictionary `MOCK_CONTENT`. */
  class MockAdapter {
    var files: seq<FileNode>
    var content: ContentTable

    ghost predicate Valid()
      reads this
    {
      content.Valid()
    }

    constructor ()
      ensures Valid()
      ensures files == InitialFiles() && content == InitialContent()
    {
      files := InitialFiles();
      content := InitialContent();
    }

    /** `readDir` ignores its argument and hands back the whole tree. */
    method ReadDir(path: string) returns (r: seq<FileNode>)
      ensures r == files
    {
      r := files;
    }

    /** `readFile`: the stored text, or '' for a path that has none. */
    method ReadFile(path: string) returns (r: string)
      ensures path in content.values ==> r == content.values[path]
      ensures path !in content.values ==> r == ""
    {
      r := if path in content.values then content.values[path] else "";
    }

    method WriteFile(path: string, text: string)
      requires Valid()
      modifies this
      ensures Valid()
      ensures files == old(files)
      ensures content == old(content).Set(path, text)
    {
      content := content.Set(path, text);
    }

    /** `createDir`: a new empty folder, placed by `AddTopLevel`; the result is the path. */
    method CreateDir(path: string) returns (r: string)
      requires Valid()
      modifies this
      ensures Valid() && r == path && content == old(content)
      ensures files == AddTopLevel(old(files), DirOf(path),
                                   FileNode(LastSegmentOr(path, "New Folder"), path, true, Children([]), None))
      ensures multiset(Paths(files)) == multiset(Paths(old(files))) + multiset{path}
    {
      var n := FileNode(LastSegmentOr(path, "New Folder"), path, true, Children([]), None);
      AddTopLevelAddsPaths(files, DirOf(path), n);
      PathsSingle(n);
      files := AddTopLevel(files, DirOf(path), n);
      r := path;
    }

    /** `createFile`: an empty note stamped with `now`, placed by `AddTopLevel`; its content is set to ''. */
    method CreateFile(path: string, now: string) returns (r: string)
      requires Valid()
      modifies this
      ensures Valid() && r == path
      ensures content == old(content).Set(path, "")
      ensures files == AddTopLevel(old(files), DirOf(path),
                                   FileNode(LastSegmentOr(path, "New Note.md"), path, false, NoChildren, Some(now)))
      ensures multiset(Paths(files)) == multiset(Paths(old(files))) + multiset{path}
    {
      var n := FileNode(LastSegmentOr(path, "New Note.md"), path, false, NoChildren, Some(now));
      AddTopLevelAddsPaths(files, DirOf(path), n);
      PathsSingle(n);
      content := content.Set(path, "");
      files := AddTopLevel(files, DirOf(path), n);
      r := path;
    }

    /**
     * `deleteFile`: takes the node out of the tree (its whole subtree goes
     * with it) but deletes only the content of the path itself.
     */
    method DeleteFile(path: string)
      requires Valid()
      modifies this
      ensures Valid()
      ensures content == old(content).Delete(path)
      ensures RemovePath(old(files), path).None? ==> files == old(files)
      ensures RemovePath(old(files), path).Some? ==> files == RemovePath(old(files), path).value.1
      ensures path !in Paths(old(files)) ==> files == old(files)
      ensures multiset(Paths(files)) <= multiset(Paths(old(files)))
      ensures path in Paths(old(files)) ==> multiset(Paths(files))[path] < multiset(Paths(old(files)))[path]
    {
      RemovePathSpec(files, path);
      var removed := RemovePath(files, path);
      if removed.Some? {
        PathsSingle(removed.value.0);
        files := removed.value.1;
      }
      content := content.Delete(path);
    }

    /**
     * `moveFile`: detaches the first node with the source path, gives it and
     * its descendants their new paths (carrying their content along), and
     * places it under the target's directory, or at the root.
     */
    method MoveFile(source: string, target: string) returns (r: Result<()>)
      requires Valid()
      modifies this
      ensures Valid()
      ensures source !in Paths(old(files)) ==>
        r == Err("Source not found") && files == old(files) && content == old(content)
      ensures source in Paths(old(files)) ==>
        r.Ok? && Detach(old(files), source).Some?
        && files == Place(Detach(old(files), source).value.1, DirOf(target), Relocate(Detach(old(files), source).value.0, target))
        && content == MoveContent(old(content), PathPairs(Detach(old(files), source).value.0, target))
      ensures r.Ok? ==> |Paths(files)| == |Paths(old(files))| && target in Paths(files)
    {
      var d := Detach(files, source);
      if d.None? {
        return Err("Source not found");
      }
      var (n, rest) := d.value;
      MoveContentValid(content, PathPairs(n, target));
      MoveKeepsCount(files, source, target);
      content := MoveContent(content, PathPairs(n, target));
      files := Place(rest, DirOf(target), Relocate(n, target));
      r := Ok(());
    }

    /**
     * `copyFile`: clones the first node with the source path under the new
     * path (each copy renamed after its new path, content copied along) and
     * places it under the target's directory, or at the root.
     */
    method CopyFile(source: string, target: string) returns (r: Result<()>)
      requires Valid()
      modifies this
      ensures Valid()
      ensures source !in Paths(old(files)) ==>
        r == Err("Source not found") && files == old(files) && content == old(content)
      ensures source in Paths(old(files)) ==>
        r.Ok? && Find(old(files), source).Some?
        && files == Place(old(files), DirOf(target), Clone(Find(old(files), source).value, target))
        && content == CopyContent(old(content), PathPairs(Find(old(files), source).value, target))
      ensures r.Ok? ==>
        target in Paths(files)
        && multiset(Paths(old(files))) <= multiset(Paths(files))
        && |Paths(files)| == |Paths(old(files))| + |Paths([Find(old(files), source).value])|
    {
      var found := Find(files, source);
      if found.None? {
        return Err("Source not found");
      }
      var n := found.value;
      CopyContentValid(content, PathPairs(n, target));
      CopyAddsCount(files, source, target);
      content := CopyContent(content, PathPairs(n, target));
      files := Place(files, DirOf(target), Clone(n, target));
      r := Ok(());
    }

    /** `saveImage` stores nothing and names a fixed file. */
    method SaveImage(base64: string, dir: string) returns (r: string)
      ensures r == "mock_image.png"
    {
      r := "mock_image.png";
    }

    /**
     * `searchText`: walks the entries in key order and each `.md`/`.txt`
     * entry's lines in order, stopping as soon as 50 hits are collected.
     */
    method SearchText(query: string) returns (hits: seq<Hit>)
      ensures hits == SearchResult(query, content)
    {
      var q := ToLower(Trim(query, Js));
      if q == "" {
        return [];
      }
      hits := ScanTable(content, q);
    }
  }
}
