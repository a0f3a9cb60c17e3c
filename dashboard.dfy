/**
 * The dashboard: the grid of the folder being viewed, the way back up, and
 * what a click on a tile does.
 */
module Dashboard {
  import opened Common
  import opened Strings
  import opened FileTree
  import Store

  /** The first node of the pre-order list whose path is `p`. */
  function FirstWithPath(s: seq<FileNode>, p: string): (r: Option<FileNode>)
    ensures r.Some? ==> r.value in s && r.value.path == p
    ensures r.None? <==> forall i :: 0 <= i < |s| ==> s[i].path != p
  {
    if s == [] then None else if s[0].path == p then Some(s[0]) else FirstWithPath(s[1..], p)
  }

  lemma {:induction false} FirstWithPathAppend(a: seq<FileNode>, b: seq<FileNode>, p: string)
    ensures FirstWithPath(a + b, p) == if FirstWithPath(a, p).Some? then FirstWithPath(a, p) else FirstWithPath(b, p)
    decreases |a|
  {
    if a == [] {
      assert a + b == b;
    } else {
      assert (a + b)[0] == a[0];
      assert (a + b)[1..] == a[1..] + b;
      FirstWithPathAppend(a[1..], b, p);
    }
  }

  /**
   * `findNodeByPath` is the tree's pre-order search: it finds the first node,
   * in pre-order, whose path is `p`, and nothing when no node has that path.
   */
  lemma {:induction false} FindNodeByPathIsFirst(nodes: seq<FileNode>, p: string)
    ensures Find(nodes, p) == FirstWithPath(Preorder(nodes), p)
  {
    if nodes != [] {
      var n := nodes[0];
      var sub := if n.children.Children? then Preorder(n.children.nodes) else [];
      if n.children.Children? {
        FindNodeByPathIsFirst(n.children.nodes, p);
      }
      FindNodeByPathIsFirst(nodes[1..], p);
      FirstWithPathAppend([n] + sub, Preorder(nodes[1..]), p);
      FirstWithPathAppend([n], sub, p);
    }
  }

  /** The folder being shown: the view path when it is set and not empty, else the workspace. */
  function ActivePath(viewPath: Option<string>, currentPath: string): string {
    if viewPath.Some? && viewPath.value != "" then viewPath.value else currentPath
  }

  /**
   * The tiles shown: nothing (the welcome screen) without a workspace; the
   * top level for the workspace itself; otherwise the children of the first
   * node with the active path, or no tiles when there is no such node or it
   * has no child list.
   */
  function DisplayFiles(currentPath: string, viewPath: Option<string>, files: seq<FileNode>): (r: Option<seq<FileNode>>)
    ensures r.None? <==> currentPath == ""
    ensures r.Some? && ActivePath(viewPath, currentPath) != currentPath ==>
      r.value == [] || exists n :: n in Preorder(files) && n.path == ActivePath(viewPath, currentPath) && r.value == Kids(n)
  {
    if currentPath == "" then None
    else
      var active := ActivePath(viewPath, currentPath);
      if active == currentPath then Some(files)
      else
        var found := Find(files, active);
        FindNodeByPathIsFirst(files, active);
        if found.Some? && found.value.children.Children? then Some(found.value.children.nodes) else Some([])
  }

  /** The heading: `Workspace` at the root or when the node is missing or unnamed, else the folder's name. */
  function Heading(currentPath: string, viewPath: Option<string>, files: seq<FileNode>): string {
    var active := ActivePath(viewPath, currentPath);
    if active == currentPath then "Workspace"
    else
      var found := Find(files, active);
      if found.Some? && found.value.name != "" then found.value.name else "Workspace"
  }

  /** What the dashboard shows without a workspace, at the root, and for a path that is not in the tree. */
  lemma DisplayCases(currentPath: string, viewPath: Option<string>, files: seq<FileNode>)
    ensures currentPath == "" <==> DisplayFiles(currentPath, viewPath, files).None?
    ensures currentPath != "" && ActivePath(viewPath, currentPath) == currentPath ==>
      DisplayFiles(currentPath, viewPath, files) == Some(files)
    ensures (currentPath != "" && ActivePath(viewPath, currentPath) != currentPath
             && ActivePath(viewPath, currentPath) !in Paths(files)) ==>
      DisplayFiles(currentPath, viewPath, files) == Some([])
  {
  }

  /** Below the root, the tiles are the children of the first node, in pre-order, with the viewed path. */
  lemma DisplayFirstMatch(currentPath: string, viewPath: string, files: seq<FileNode>, n: FileNode)
    requires currentPath != "" && viewPath != "" && viewPath != currentPath
    requires FirstWithPath(Preorder(files), viewPath) == Some(n)
    ensures DisplayFiles(currentPath, Some(viewPath), files) == Some(Kids(n))
  {
    FindNodeByPathIsFirst(files, viewPath);
  }

  /** Where Back goes: the text before the last `/`, or the workspace (no view path) when that is the root. */
  function BackTarget(activePath: string, currentPath: string): (r: Option<string>)
    ensures r.Some? ==> StartsWith(activePath, r.value) && r.value != currentPath
    ensures r.None? ==> StartsWith(activePath, currentPath)
  {
    var parent := Substring(activePath, 0, LastIndexOf(activePath, '/'));
    if parent == currentPath then None else Some(parent)
  }

  /** Back from a folder goes to the folder that holds it. */
  lemma BackToParent(dir: string, name: string, currentPath: string)
    requires '/' !in name
    ensures BackTarget(dir + "/" + name, currentPath) == if dir == currentPath then None else Some(dir)
  {
    Store.LastSlashAt(dir, name);
    assert (dir + "/" + name)[..|dir|] == dir;
  }

  /**
   * Opening a folder tile and then pressing Back shows the same tiles as
   * before, whether the tile was at the workspace root or deeper.
   */
  lemma BackUndoesOpen(currentPath: string, dir: string, name: string, files: seq<FileNode>)
    requires currentPath != "" && dir != "" && '/' !in name
    ensures var back := BackTarget(dir + "/" + name, currentPath);
      DisplayFiles(currentPath, back, files) == DisplayFiles(currentPath, Some(dir), files)
  {
    BackToParent(dir, name, currentPath);
  }

  /** A tile click: a folder becomes the view path, a note is selected. */
  method Navigate(store: Store.AppStore, node: FileNode)
    modifies store
    ensures node.isDir ==> store.viewPath == Some(node.path) && store.selectedFile == old(store.selectedFile)
    ensures !node.isDir ==> store.selectedFile == Some(node) && store.viewPath == old(store.viewPath)
    ensures store.viewMode == old(store.viewMode) && store.files == old(store.files)
    ensures store.Current() == old(store.Current()) && store.configFile == old(store.configFile)
  {
    if node.isDir {
      store.SetViewPath(Some(node.path));
    } else {
      store.SetSelectedFile(Some(node));
    }
  }
}
