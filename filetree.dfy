/**
 * The workspace tree shared by the store, the mock filesystem and the views:
 * a forest of `FileNode` values, pre-order search, detaching a node, appending
 * under a directory, and the "directories first, then by name" level order.
 */
module FileTree {
  import opened Common
  import opened Strings

  /** `children?: FileNode[]`: absent, or a (possibly empty) list. An empty list still counts as present. */
  datatype Children = NoChildren | Children(nodes: seq<FileNode>)

  datatype FileNode = FileNode(
    name: string,
    path: string,
    isDir: bool,
    children: Children,
    lastModified: Option<string>)

  function Kids(n: FileNode): seq<FileNode> {
    if n.children.Children? then n.children.nodes else []
  }

  /** Every path of a forest, in pre-order (a node before its children, children before later siblings). */
  function Paths(nodes: seq<FileNode>): seq<string>
  {
    if nodes == [] then []
    else
      [nodes[0].path]
      + (if nodes[0].children.Children? then Paths(nodes[0].children.nodes) else [])
      + Paths(nodes[1..])
  }

  /** Every name of a forest, in the same pre-order as `Paths`. */
  function Names(nodes: seq<FileNode>): seq<string>
  {
    if nodes == [] then []
    else
      [nodes[0].name]
      + (if nodes[0].children.Children? then Names(nodes[0].children.nodes) else [])
      + Names(nodes[1..])
  }

  lemma NamesCons(n: FileNode, rest: seq<FileNode>)
    ensures Names([n] + rest) == [n.name] + Names(Kids(n)) + Names(rest)
  {
    assert ([n] + rest)[1..] == rest;
  }

  lemma {:induction false} NamesAppend(a: seq<FileNode>, b: seq<FileNode>)
    ensures Names(a + b) == Names(a) + Names(b)
    decreases |a|
  {
    if a == [] {
      assert a + b == b;
    } else {
      assert (a + b)[0] == a[0];
      assert (a + b)[1..] == a[1..] + b;
      NamesAppend(a[1..], b);
    }
  }

  /** The number of nodes of a forest. */
  function Size(nodes: seq<FileNode>): nat {
    |Paths(nodes)|
  }

  lemma {:induction false} PathsAppend(a: seq<FileNode>, b: seq<FileNode>)
    ensures Paths(a + b) == Paths(a) + Paths(b)
    decreases |a|
  {
    if a == [] {
      assert a + b == b;
    } else {
      assert (a + b)[0] == a[0];
      assert (a + b)[1..] == a[1..] + b;
      PathsAppend(a[1..], b);
    }
  }

  lemma PathsCons(n: FileNode, rest: seq<FileNode>)
    ensures Paths([n] + rest) == [n.path] + Paths(Kids(n)) + Paths(rest)
  {
    assert ([n] + rest)[1..] == rest;
  }

  lemma PathsUnfold(nodes: seq<FileNode>)
    requires nodes != []
    ensures Paths(nodes) == [nodes[0].path] + Paths(Kids(nodes[0])) + Paths(nodes[1..])
  {
  }

  lemma PathsSingle(n: FileNode)
    ensures Paths([n]) == [n.path] + Paths(Kids(n))
  {
    PathsCons(n, []);
  }

  /**
   * Pre-order search for the first node whose path is `p` (the node itself is
   * checked before its children, and its children before its later siblings).
   */
  function Find(nodes: seq<FileNode>, p: string): (r: Option<FileNode>)
    ensures r.Some? ==> r.value.path == p
    ensures r.Some? <==> p in Paths(nodes)
  {
    if nodes == [] then None
    else if nodes[0].path == p then Some(nodes[0])
    else
      var inKids := if nodes[0].children.Children? then Find(nodes[0].children.nodes, p) else None;
      if inKids.Some? then inKids else Find(nodes[1..], p)
  }

  /**
   * Takes the first node (in pre-order) whose path is `p` out of its parent's
   * list, returning it and the remaining forest; the rest of the tree is kept.
   */
  function Detach(nodes: seq<FileNode>, p: string): (r: Option<(FileNode, seq<FileNode>)>)
    ensures r.Some? <==> p in Paths(nodes)
    ensures r.Some? ==> r.value.0.path == p
    ensures r.Some? ==> multiset(Paths(nodes)) == multiset(Paths(r.value.1)) + multiset(Paths([r.value.0]))
  {
    if nodes == [] then None
    else if nodes[0].path == p then
      PathsSingle(nodes[0]);
      Some((nodes[0], nodes[1..]))
    else
      var n := nodes[0];
      var inKids := if n.children.Children? then Detach(n.children.nodes, p) else None;
      if inKids.Some? then
        var n' := n.(children := Children(inKids.value.1));
        DetachedFromKids(nodes, inKids.value.0, inKids.value.1);
        Some((inKids.value.0, [n'] + nodes[1..]))
      else
        var inRest := Detach(nodes[1..], p);
        if inRest.Some? then
          DetachedFromRest(nodes, inRest.value.0, inRest.value.1);
          Some((inRest.value.0, [n] + inRest.value.1))
        else
          NotDetached(nodes, p);
          None
  }

  lemma DetachedFromKids(nodes: seq<FileNode>, x: FileNode, kids: seq<FileNode>)
    requires nodes != [] && nodes[0].children.Children?
    requires multiset(Paths(nodes[0].children.nodes)) == multiset(Paths(kids)) + multiset(Paths([x]))
    ensures multiset(Paths(nodes))
      == multiset(Paths([nodes[0].(children := Children(kids))] + nodes[1..])) + multiset(Paths([x]))
    ensures x.path in Paths(nodes)
  {
    var n := nodes[0];
    var n' := n.(children := Children(kids));
    PathsUnfold(nodes);
    assert Paths([n'] + nodes[1..]) == [n.path] + Paths(kids) + Paths(nodes[1..]) by {
      PathsCons(n', nodes[1..]);
    }
    assert Paths([x]) == [x.path] + Paths(Kids(x)) by {
      PathsSingle(x);
    }
    SwapMiddle(Paths(nodes), Paths([n'] + nodes[1..]), Paths([x]), n.path,
               Paths(Kids(n)), Paths(kids), Paths(nodes[1..]), Paths(nodes[1..]), x.path);
  }

  lemma DetachedFromRest(nodes: seq<FileNode>, x: FileNode, rest: seq<FileNode>)
    requires nodes != []
    requires multiset(Paths(nodes[1..])) == multiset(Paths(rest)) + multiset(Paths([x]))
    ensures multiset(Paths(nodes)) == multiset(Paths([nodes[0]] + rest)) + multiset(Paths([x]))
    ensures x.path in Paths(nodes)
  {
    var n := nodes[0];
    PathsUnfold(nodes);
    assert Paths([n] + rest) == [n.path] + Paths(Kids(n)) + Paths(rest) by {
      PathsCons(n, rest);
    }
    assert Paths([x]) == [x.path] + Paths(Kids(x)) by {
      PathsSingle(x);
    }
    SwapMiddle(Paths(nodes), Paths([n] + rest), Paths([x]), n.path,
               Paths(Kids(n)), Paths(Kids(n)), Paths(nodes[1..]), Paths(rest), x.path);
  }

  /**
   * Multiset bookkeeping for a forest `[a] + k + r` that becomes `[a] + k2 + r2`
   * when one subtree, whose paths `xs` start with `xp`, leaves it.
   */
  lemma SwapMiddle(whole: seq<string>, after: seq<string>, xs: seq<string>, a: string,
                   k: seq<string>, k2: seq<string>, r: seq<string>, r2: seq<string>, xp: string)
    requires whole == [a] + k + r && after == [a] + k2 + r2 && xs != [] && xs[0] == xp
    requires multiset(k) + multiset(r) == multiset(k2) + multiset(r2) + multiset(xs)
    ensures multiset(whole) == multiset(after) + multiset(xs)
    ensures xp in whole
  {
    assert xp in multiset(xs);
    assert xp in multiset(k) + multiset(r);
    assert multiset(whole) == multiset([a] + k) + multiset(r);
    assert multiset([a] + k) == multiset([a]) + multiset(k);
    assert xp in multiset(whole);
    assert multiset(after) == multiset([a] + k2) + multiset(r2);
    assert multiset([a] + k2) == multiset([a]) + multiset(k2);
    calc {
      multiset(whole);
      multiset([a]) + (multiset(k) + multiset(r));
      multiset([a]) + (multiset(k2) + multiset(r2) + multiset(xs));
      multiset(after) + multiset(xs);
    }
  }

  lemma NotDetached(nodes: seq<FileNode>, p: string)
    requires nodes != [] && nodes[0].path != p
    requires p !in Paths(Kids(nodes[0])) && p !in Paths(nodes[1..])
    ensures p !in Paths(nodes)
  {
    PathsUnfold(nodes);
  }
  lemma {:induction false} DetachTakesFound(nodes: seq<FileNode>, p: string)
    ensures Detach(nodes, p).Some? ==> Detach(nodes, p).value.0 == Find(nodes, p).value
  {
    if nodes != [] && nodes[0].path != p {
      if nodes[0].children.Children? {
        DetachTakesFound(nodes[0].children.nodes, p);
      }
      DetachTakesFound(nodes[1..], p);
    }
  }

  /** Where `AppendUnder` put a node: nowhere (no such directory), nowhere (it has no child list), or here. */
  datatype Placement = NotFound | NoChildList | Placed(nodes: seq<FileNode>)

  /**
   * Appends `n` to the children of the first node (in pre-order) whose path is
   * `dir`, when that node has a child list.
   */
  function AppendUnder(nodes: seq<FileNode>, dir: string, n: FileNode): Placement
  {
    if nodes == [] then NotFound
    else
      var m := nodes[0];
      if m.path == dir then
        if m.children.Children? then Placed([m.(children := Children(m.children.nodes + [n]))] + nodes[1..])
        else NoChildList
      else
        var inKids := if m.children.Children? then AppendUnder(m.children.nodes, dir, n) else NotFound;
        match inKids
        case Placed(kids) => Placed([m.(children := Children(kids))] + nodes[1..])
        case NoChildList => NoChildList
        case NotFound =>
          var inRest := AppendUnder(nodes[1..], dir, n);
          if inRest.Placed? then Placed([m] + inRest.nodes) else inRest
  }

  /** Appending under a directory adds the new subtree's paths and loses none. */
  lemma HeadKidsGrow(m: FileNode, m': FileNode, rest: seq<FileNode>, extra: multiset<string>)
    requires m'.path == m.path
    requires multiset(Paths(Kids(m'))) == multiset(Paths(Kids(m))) + extra
    ensures multiset(Paths([m'] + rest)) == multiset(Paths([m] + rest)) + extra
  {
    PathsCons(m, rest);
    PathsCons(m', rest);
  }

  lemma RestGrows(m: FileNode, rest: seq<FileNode>, rest': seq<FileNode>, extra: multiset<string>)
    requires multiset(Paths(rest')) == multiset(Paths(rest)) + extra
    ensures multiset(Paths([m] + rest')) == multiset(Paths([m] + rest)) + extra
  {
    PathsCons(m, rest);
    PathsCons(m, rest');
  }

  lemma {:induction false} AppendUnderAddsPaths(nodes: seq<FileNode>, dir: string, n: FileNode)
    ensures AppendUnder(nodes, dir, n).Placed? ==>
      multiset(Paths(AppendUnder(nodes, dir, n).nodes)) == multiset(Paths(nodes)) + multiset(Paths([n]))
  {
    var r := AppendUnder(nodes, dir, n);
    if nodes != [] && r.Placed? {
      var m, rest := nodes[0], nodes[1..];
      assert nodes == [m] + rest;
      if m.path == dir {
        var m' := m.(children := Children(m.children.nodes + [n]));
        PathsAppend(m.children.nodes, [n]);
        HeadKidsGrow(m, m', rest, multiset(Paths([n])));
      } else {
        var inKids := if m.children.Children? then AppendUnder(m.children.nodes, dir, n) else NotFound;
        if inKids.Placed? {
          AppendUnderAddsPaths(m.children.nodes, dir, n);
          HeadKidsGrow(m, m.(children := Children(inKids.nodes)), rest, multiset(Paths([n])));
        } else {
          AppendUnderAddsPaths(rest, dir, n);
          RestGrows(m, rest, AppendUnder(rest, dir, n).nodes, multiset(Paths([n])));
        }
      }
    }
  }

  /** `AppendUnder` places the node exactly when the pre-order search finds `dir` with a child list. */
  lemma {:induction false} AppendUnderFollowsFind(nodes: seq<FileNode>, dir: string, n: FileNode)
    ensures AppendUnder(nodes, dir, n).NotFound? <==> Find(nodes, dir).None?
    ensures AppendUnder(nodes, dir, n).Placed? <==> Find(nodes, dir).Some? && Find(nodes, dir).value.children.Children?
  {
    if nodes != [] && nodes[0].path != dir {
      if nodes[0].children.Children? {
        AppendUnderFollowsFind(nodes[0].children.nodes, dir, n);
      }
      AppendUnderFollowsFind(nodes[1..], dir, n);
    }
  }

  /** The level order of `sort_nodes` and `sortFiles`: directories first, then names in ascending order. */
  predicate NodeLe(a: FileNode, b: FileNode) {
    (a.isDir && !b.isDir) || (a.isDir == b.isDir && StrLe(a.name, b.name))
  }

  predicate LevelSorted(s: seq<FileNode>) {
    forall i :: 0 <= i < |s| - 1 ==> NodeLe(s[i], s[i + 1])
  }

  /** Inserts `x` before the first element it does not follow, which keeps equal elements in their original order. */
  function Insert(x: FileNode, s: seq<FileNode>): (r: seq<FileNode>)
    requires LevelSorted(s)
    ensures LevelSorted(r)
    ensures multiset(r) == multiset(s) + multiset{x}
    ensures |r| == |s| + 1 && (r[0] == x || (s != [] && r[0] == s[0]))
  {
    if s == [] then [x]
    else if NodeLe(x, s[0]) then [x] + s
    else
      StrLeTotal(x.name, s[0].name);
      var t := Insert(x, s[1..]);
      assert s == [s[0]] + s[1..];
      [s[0]] + t
  }

  /** A stable sort of one level of the tree. */
  function SortLevel(s: seq<FileNode>): (r: seq<FileNode>)
    ensures LevelSorted(r)
    ensures multiset(r) == multiset(s)
  {
    if s == [] then []
    else
      assert s == [s[0]] + s[1..];
      Insert(s[0], SortLevel(s[1..]))
  }

  /** Every node of a forest, in the pre-order of `Paths`. */
  function Preorder(nodes: seq<FileNode>): seq<FileNode>
  {
    if nodes == [] then []
    else
      [nodes[0]]
      + (if nodes[0].children.Children? then Preorder(nodes[0].children.nodes) else [])
      + Preorder(nodes[1..])
  }

  /** The path of each node of a list. */
  function PathsOf(s: seq<FileNode>): (r: seq<string>)
    ensures |r| == |s|
    ensures forall i :: 0 <= i < |s| ==> r[i] == s[i].path
  {
    if s == [] then [] else [s[0].path] + PathsOf(s[1..])
  }

  lemma PathsOfAppend(a: seq<FileNode>, b: seq<FileNode>)
    ensures PathsOf(a + b) == PathsOf(a) + PathsOf(b)
  {
  }

  lemma {:induction false} PreorderAppend(a: seq<FileNode>, b: seq<FileNode>)
    ensures Preorder(a + b) == Preorder(a) + Preorder(b)
    decreases |a|
  {
    if a == [] {
      assert a + b == b;
    } else {
      assert (a + b)[0] == a[0];
      assert (a + b)[1..] == a[1..] + b;
      PreorderAppend(a[1..], b);
    }
  }

  /** The pre-order list of nodes carries exactly the pre-order list of paths. */
  lemma {:induction false} PreorderPaths(nodes: seq<FileNode>)
    ensures PathsOf(Preorder(nodes)) == Paths(nodes)
  {
    if nodes != [] {
      var n := nodes[0];
      var sub := if n.children.Children? then Preorder(n.children.nodes) else [];
      if n.children.Children? {
        PreorderPaths(n.children.nodes);
      }
      PreorderPaths(nodes[1..]);
      PathsOfAppend([n] + sub, Preorder(nodes[1..]));
      PathsOfAppend([n], sub);
    }
  }
}
