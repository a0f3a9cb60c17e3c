/**
 * The "Move to" dialog: the folder tree it offers, which folders it refuses
 * as targets, and the selection it hands to the move.
 */
module MoveToModal {
  import opened Common
  import opened Strings
  import opened FileTree
  import Sidebar

  /** One offered folder: the node, its indentation level, and whether it may not be chosen. */
  datatype FolderRow = FolderRow(node: FileNode, level: nat, disabled: bool)

  /** A folder is refused when its path starts with the moved node's path, or is that path. */
  predicate Disabled(path: string, source: string) {
    StartsWith(path, source) || path == source
  }

  /**
   * `renderFolderTree`: the folders of a level, in order, each followed by
   * its own folders one level deeper when it is expanded and has a child list.
   */
  function FolderTree(nodes: seq<FileNode>, level: nat, expanded: map<string, bool>, source: string): seq<FolderRow>
  {
    if nodes == [] then []
    else
      var n := nodes[0];
      var rest := FolderTree(nodes[1..], level, expanded, source);
      if !n.isDir then rest
      else
        [FolderRow(n, level, Disabled(n.path, source))]
        + (if Sidebar.IsExpanded(expanded, n.path) && n.children.Children?
           then FolderTree(n.children.nodes, level + 1, expanded, source) else [])
        + rest
  }

  /** Every offered row is a folder of the tree, refused exactly when its path starts with the source path. */
  lemma {:induction false} FolderTreeRows(nodes: seq<FileNode>, level: nat, expanded: map<string, bool>, source: string)
    ensures forall r :: r in FolderTree(nodes, level, expanded, source) ==>
      r.node.isDir && r.node.path in Paths(nodes) && r.level >= level
      && (r.disabled <==> StartsWith(r.node.path, source))
  {
    if nodes != [] {
      var n := nodes[0];
      FolderTreeRows(nodes[1..], level, expanded, source);
      if n.isDir && Sidebar.IsExpanded(expanded, n.path) && n.children.Children? {
        FolderTreeRows(n.children.nodes, level + 1, expanded, source);
      }
    }
  }

  /** The folders of one level, in order. */
  function Folders(nodes: seq<FileNode>): (r: seq<FileNode>)
    ensures forall x :: x in r <==> x in nodes && x.isDir
  {
    if nodes == [] then [] else (if nodes[0].isDir then [nodes[0]] else []) + Folders(nodes[1..])
  }

  /** With nothing expanded, the dialog offers exactly the top-level folders, in order, at the first level. */
  lemma {:induction false} FolderTreeCollapsed(nodes: seq<FileNode>, source: string)
    ensures var rows := FolderTree(nodes, 0, map[], source);
      |rows| == |Folders(nodes)|
      && forall i :: 0 <= i < |rows| ==>
        rows[i] == FolderRow(Folders(nodes)[i], 0, StartsWith(Folders(nodes)[i].path, source))
  {
    if nodes != [] {
      FolderTreeCollapsed(nodes[1..], source);
      var n := nodes[0];
      var rest := FolderTree(nodes[1..], 0, map[], source);
      if n.isDir {
        assert !Sidebar.IsExpanded(map[], n.path);
        assert FolderTree(nodes, 0, map[], source) == [FolderRow(n, 0, Disabled(n.path, source))] + [] + rest;
        assert Folders(nodes) == [n] + Folders(nodes[1..]);
        RowsCons(FolderRow(n, 0, Disabled(n.path, source)), rest, n, Folders(nodes[1..]), source);
      } else {
        assert FolderTree(nodes, 0, map[], source) == rest;
        assert Folders(nodes) == [] + Folders(nodes[1..]);
      }
    }
  }

  /** A top-level row for `f` in front of the top-level rows for `fs`. */
  lemma RowsCons(row: FolderRow, rest: seq<FolderRow>, f: FileNode, fs: seq<FileNode>, source: string)
    requires row == FolderRow(f, 0, StartsWith(f.path, source))
    requires |rest| == |fs| && forall i :: 0 <= i < |rest| ==> rest[i] == FolderRow(fs[i], 0, StartsWith(fs[i].path, source))
    ensures var rows := [row] + [] + rest;
      |rows| == |[f] + fs| && forall i :: 0 <= i < |rows| ==> rows[i] == FolderRow(([f] + fs)[i], 0, StartsWith(([f] + fs)[i].path, source))
  {
  }

  /** The moved folder itself and everything below it is refused, and so is a sibling whose name extends its name. */
  lemma RefusedTargets(source: string, below: string)
    ensures Disabled(source, source)
    ensures Disabled(source + "/" + below, source)
    ensures Disabled(source + below, source)
  {
    assert (source + "/" + below)[..|source|] == source;
    assert (source + below)[..|source|] == source;
  }

  /** A concrete sibling that the prefix test refuses: moving `/a/b` may not go into `/a/bc`. */
  lemma SiblingRefused()
    ensures Disabled("/a/bc", "/a/b")
    ensures !StartsWith("/a/b", "/a/bc")
  {
    assert "/a/bc"[..4] == "/a/b";
  }

  /** A click on a row: a refused folder leaves the selection as it was. */
  function Click(selected: Option<string>, row: FolderRow): (r: Option<string>)
    ensures row.disabled ==> r == selected
    ensures !row.disabled ==> r == Some(row.node.path)
  {
    if row.disabled then selected else Some(row.node.path)
  }

  /** The workspace root entry is always selectable. */
  function ClickRoot(currentPath: string): (r: Option<string>)
    ensures r == Some(currentPath)
  {
    Some(currentPath)
  }

  /** The Move button: enabled only with a non-empty selection, which it passes on. */
  function MoveTarget(selected: Option<string>): (r: Option<string>)
    ensures r.Some? <==> selected.Some? && selected.value != ""
    ensures r.Some? ==> r == selected
  {
    if selected.Some? && selected.value != "" then selected else None
  }

  /** The dialog renders only when it is open and has a node to move. */
  predicate Renders(isOpen: bool, source: Option<FileNode>) {
    isOpen && source.Some?
  }

  /**
   * Starting from no selection, or from one the moved node does not refuse,
   * clicks on rows never select a refused folder, so Move never hands one on.
   */
  lemma NeverMovesIntoRefused(clicks: seq<FolderRow>, selected: Option<string>, source: string)
    requires forall r :: r in clicks ==> (r.disabled <==> StartsWith(r.node.path, source))
    requires selected.Some? ==> !StartsWith(selected.value, source)
    ensures var t := MoveTarget(ClickAll(selected, clicks));
      t.Some? ==> !StartsWith(t.value, source)
  {
    ClickAllSafe(clicks, selected, source);
  }

  /** The selection after a sequence of row clicks. */
  function ClickAll(selected: Option<string>, clicks: seq<FolderRow>): Option<string>
    decreases |clicks|
  {
    if clicks == [] then selected else ClickAll(Click(selected, clicks[0]), clicks[1..])
  }

  lemma {:induction false} ClickAllSafe(clicks: seq<FolderRow>, selected: Option<string>, source: string)
    requires forall r :: r in clicks ==> (r.disabled <==> StartsWith(r.node.path, source))
    requires selected.Some? ==> !StartsWith(selected.value, source)
    ensures var s := ClickAll(selected, clicks); s.Some? ==> !StartsWith(s.value, source)
    decreases |clicks|
  {
    if clicks != [] {
      assert clicks[0] in clicks;
      ClickAllSafe(clicks[1..], Click(selected, clicks[0]), source);
    }
  }

  /**
   * The selection survives closing: the dialog stays mounted and returns
   * nothing while closed, so its state is kept. Choosing `/a/b` while moving
   * `/x` and then opening the dialog to move `/a` lets Move hand on `/a/b`,
   * which the second opening refuses, without any click.
   */
  lemma StaleSelectionMoves()
    ensures var first := ClickAll(None, [FolderRow(FileNode("b", "/a/b", true, NoChildren, None), 1, Disabled("/a/b", "/x"))]);
      first == Some("/a/b")
      && MoveTarget(ClickAll(first, [])) == Some("/a/b")
      && Disabled("/a/b", "/a")
  {
    assert !StartsWith("/a/b", "/x") by { assert "/a/b"[..2][1] == 'a' != "/x"[1]; }
    assert "/a/b"[..2] == "/a";
  }

  /** Opening the dialog with its selection cleared, whatever an earlier opening left. */
  function Reopen(prior: Option<string>): (r: Option<string>)
    ensures r.None?
  {
    None
  }

  /** With the selection cleared on opening, Move never hands on a refused folder, whatever was chosen before. */
  lemma ReopenedNeverMovesIntoRefused(prior: Option<string>, clicks: seq<FolderRow>, source: string)
    requires forall r :: r in clicks ==> (r.disabled <==> StartsWith(r.node.path, source))
    ensures var t := MoveTarget(ClickAll(Reopen(prior), clicks));
      t.Some? ==> !StartsWith(t.value, source)
  {
    ClickAllSafe(clicks, Reopen(prior), source);
  }
}
