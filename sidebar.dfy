/**
 * The sidebar: the flattened tree it renders, the names it proposes when a
 * note is duplicated or renamed, the depth limit on new folders, the folders
 * it opens to reveal the card view's folder, and the two global shortcuts.
 */
module Sidebar {
  import opened Common
  import opened Strings
  import opened FileTree
  import opened PathUtil
  import Store
  import MockFs
  import opened Shortcuts

  // ---------------------------------------------------------------------
  // flattenFiles
  // ---------------------------------------------------------------------

  /** One rendered line: a node and its indentation level. */
  datatype Row = Row(node: FileNode, level: nat)

  /** `expanded[path]` is truthy. */
  predicate IsExpanded(expanded: map<string, bool>, p: string) {
    p in expanded && expanded[p]
  }

  /** The sidebar shows a node's children when it is an expanded directory with a child list. */
  predicate Opens(n: FileNode, expanded: map<string, bool>) {
    n.isDir && IsExpanded(expanded, n.path) && n.children.Children?
  }

  /** `flattenFiles`: each node, then (if it opens) its children one level deeper, then its later siblings. */
  function FlattenFiles(nodes: seq<FileNode>, level: nat, expanded: map<string, bool>): (rows: seq<Row>)
    ensures |rows| >= |nodes|
    ensures forall i :: 0 <= i < |rows| ==> rows[i].level >= level
  {
    if nodes == [] then []
    else
      [Row(nodes[0], level)]
      + (if Opens(nodes[0], expanded) then FlattenFiles(nodes[0].children.nodes, level + 1, expanded) else [])
      + FlattenFiles(nodes[1..], level, expanded)
  }

  /**
   * The shape of an indented pre-order list starting at `level`: it starts at
   * that level, never goes above it, and each line is at most one level
   * deeper than the line before.
   */
  predicate Nested(rows: seq<Row>, level: nat) {
    (|rows| > 0 ==> rows[0].level == level)
    && (forall i :: 0 <= i < |rows| ==> rows[i].level >= level)
    && (forall i :: 0 <= i < |rows| - 1 ==> rows[i + 1].level <= rows[i].level + 1)
  }

  lemma NestedHead(n: FileNode, sub: seq<Row>, level: nat)
    requires Nested(sub, level + 1)
    ensures Nested([Row(n, level)] + sub, level)
  {
    var r := [Row(n, level)] + sub;
    forall i | 0 <= i < |r| - 1
      ensures r[i + 1].level <= r[i].level + 1
    {
      if i > 0 {
        assert r[i] == sub[i - 1] && r[i + 1] == sub[i];
      }
    }
  }

  lemma NestedConcat(a: seq<Row>, b: seq<Row>, level: nat)
    requires Nested(a, level) && Nested(b, level)
    ensures Nested(a + b, level)
  {
    var r := a + b;
    forall i | 0 <= i < |r| - 1
      ensures r[i + 1].level <= r[i].level + 1
    {
      if i + 1 < |a| {
        assert r[i] == a[i] && r[i + 1] == a[i + 1];
      } else if i + 1 == |a| {
        assert r[i] == a[i] && r[i + 1] == b[0];
      } else {
        assert r[i] == b[i - |a|] && r[i + 1] == b[i + 1 - |a|];
      }
    }
  }

  /** The flattened list is an indented pre-order list whose levels are depths. */
  lemma {:induction false} FlattenNested(nodes: seq<FileNode>, level: nat, expanded: map<string, bool>)
    ensures Nested(FlattenFiles(nodes, level, expanded), level)
  {
    if nodes != [] {
      var n := nodes[0];
      var sub := if Opens(n, expanded) then FlattenFiles(n.children.nodes, level + 1, expanded) else [];
      if Opens(n, expanded) {
        FlattenNested(n.children.nodes, level + 1, expanded);
      }
      NestedHead(n, sub, level);
      FlattenNested(nodes[1..], level, expanded);
      NestedConcat([Row(n, level)] + sub, FlattenFiles(nodes[1..], level, expanded), level);
    }
  }

  /** With no directory open, the list is the top level, in order, at the starting level. */
  lemma {:induction false} FlattenCollapsed(nodes: seq<FileNode>, level: nat, expanded: map<string, bool>)
    requires forall i :: 0 <= i < |nodes| ==> !Opens(nodes[i], expanded)
    ensures |FlattenFiles(nodes, level, expanded)| == |nodes|
    ensures forall i :: 0 <= i < |nodes| ==> FlattenFiles(nodes, level, expanded)[i] == Row(nodes[i], level)
  {
    if nodes != [] {
      FlattenCollapsed(nodes[1..], level, expanded);
    }
  }

  /** The paths of the rendered nodes, in order. */
  function RowPaths(rows: seq<Row>): seq<string> {
    if rows == [] then [] else [rows[0].node.path] + RowPaths(rows[1..])
  }

  lemma {:induction false} RowPathsAppend(a: seq<Row>, b: seq<Row>)
    ensures RowPaths(a + b) == RowPaths(a) + RowPaths(b)
    decreases |a|
  {
    if a == [] {
      assert a + b == b;
    } else {
      assert (a + b)[1..] == a[1..] + b;
      RowPathsAppend(a[1..], b);
    }
  }

  /** Every node with a child list is an expanded directory, all the way down. */
  predicate AllOpen(nodes: seq<FileNode>, expanded: map<string, bool>) {
    forall x :: x in nodes ==> x.children.Children? ==> Opens(x, expanded) && AllOpen(x.children.nodes, expanded)
  }

  /** With every folder open, the sidebar lists every node of the tree in pre-order. */
  lemma {:induction false} FlattenAllOpen(nodes: seq<FileNode>, level: nat, expanded: map<string, bool>)
    requires AllOpen(nodes, expanded)
    ensures RowPaths(FlattenFiles(nodes, level, expanded)) == Paths(nodes)
  {
    if nodes != [] {
      var n := nodes[0];
      var sub := if Opens(n, expanded) then FlattenFiles(n.children.nodes, level + 1, expanded) else [];
      assert n in nodes;
      if Opens(n, expanded) {
        FlattenAllOpen(n.children.nodes, level + 1, expanded);
      }
      assert AllOpen(nodes[1..], expanded) by {
        forall x | x in nodes[1..]
          ensures x in nodes
        {
        }
      }
      FlattenAllOpen(nodes[1..], level, expanded);
      RowPathsAppend([Row(n, level)] + sub, FlattenFiles(nodes[1..], level, expanded));
      RowPathsAppend([Row(n, level)], sub);
    }
  }

  /** Every rendered node comes from the tree. */
  lemma {:induction false} FlattenFromTree(nodes: seq<FileNode>, level: nat, expanded: map<string, bool>)
    ensures forall p :: p in RowPaths(FlattenFiles(nodes, level, expanded)) ==> p in Paths(nodes)
  {
    if nodes != [] {
      var n := nodes[0];
      var sub := if Opens(n, expanded) then FlattenFiles(n.children.nodes, level + 1, expanded) else [];
      if Opens(n, expanded) {
        FlattenFromTree(n.children.nodes, level + 1, expanded);
      }
      FlattenFromTree(nodes[1..], level, expanded);
      RowPathsAppend([Row(n, level)] + sub, FlattenFiles(nodes[1..], level, expanded));
      RowPathsAppend([Row(n, level)], sub);
    }
  }

  // ---------------------------------------------------------------------
  // Duplicate
  // ---------------------------------------------------------------------

  lemma SplitWithoutDot(name: string)
    ensures '.' !in name ==> Split(name, '.') == [name]
  {
    if '.' !in name {
      SplitNoSep(name, '.');
    }
  }

  /**
   * The name of a duplicate: split on `.`; with more than one piece, the last
   * is the extension and the others, rejoined, the base; `_copy` goes after
   * the base, and the extension (when not empty) after that.
   */
  function DuplicateName(name: string): (r: string)
    ensures '.' !in name ==> r == name + "_copy"
  {
    SplitWithoutDot(name);
    var pieces := Split(name, '.');
    if |pieces| > 1 then
      var ext := pieces[|pieces| - 1];
      var base := Join(pieces[..|pieces| - 1], ".");
      if ext != "" then base + "_copy." + ext else base + "_copy"
    else name + "_copy"
  }

  /**
   * A name with a `.` gets `_copy` just before its last `.`; when nothing
   * follows that `.`, the `.` itself is dropped.
   */
  lemma DuplicateAtLastDot(base: string, ext: string)
    requires '.' !in ext
    ensures ext != "" ==> DuplicateName(base + "." + ext) == base + "_copy." + ext
    ensures ext == "" ==> DuplicateName(base + "." + ext) == base + "_copy"
  {
    var name := base + "." + ext;
    assert name == base + ['.'] + ext;
    SplitConcat(base, ext, '.');
    SplitNoSep(ext, '.');
    var pieces := Split(name, '.');
    assert pieces == Split(base, '.') + [ext];
    assert pieces[..|pieces| - 1] == Split(base, '.');
    JoinSplit(base, '.');
  }

  /** A duplicate's name is always longer than the original's, so it never names the original. */
  lemma DuplicateNameLonger(name: string)
    ensures |DuplicateName(name)| > |name|
  {
    var k := LastIndexOf(name, '.');
    if k >= 0 {
      var base, ext := name[..k], name[k + 1..];
      assert name == base + "." + ext;
      assert '.' !in ext by {
        forall i | 0 <= i < |ext|
          ensures ext[i] != '.'
        {
          assert ext[i] == name[k + 1 + i];
        }
      }
      DuplicateAtLastDot(base, ext);
    }
  }

  /** Duplicating a file copies it beside itself under the duplicate name; folders are not duplicated. */
  function Duplicate(target: FileNode): (r: Option<(string, string)>)
    ensures r.Some? <==> !target.isDir
  {
    if target.isDir then None
    else Some((target.path, Store.RenameTarget(target.path, DuplicateName(target.name))))
  }

  /** The copy lands in the same folder under a different path. */
  lemma DuplicateBeside(target: FileNode, dir: string)
    requires !target.isDir && '/' !in target.name && '/' !in DuplicateName(target.name)
    requires target.path == dir + "/" + target.name
    ensures Duplicate(target) == Some((target.path, dir + "/" + DuplicateName(target.name)))
    ensures Duplicate(target).value.1 != target.path
  {
    Store.RenameKeepsParent(dir, target.name, DuplicateName(target.name));
    DuplicateNameLonger(target.name);
    assert |dir + "/" + DuplicateName(target.name)| > |target.path|;
  }

  // ---------------------------------------------------------------------
  // Rename
  // ---------------------------------------------------------------------

  /**
   * The new name a rename submits, as the sidebar computes it: nothing when
   * the trimmed input is empty or equal to the current name; otherwise the
   * trimmed input, with `.md` added for a file that lacks it.
   */
  function RenameName(target: FileNode, input: string): (r: Option<string>)
    ensures Trim(input, Js) == "" || Trim(input, Js) == target.name ==> r.None?
    ensures r.Some? ==> r.value != "" && StartsWith(r.value, Trim(input, Js))
    ensures r.Some? && !target.isDir ==> EndsWith(r.value, ".md")
    ensures r.Some? && target.isDir ==> r.value == Trim(input, Js)
  {
    var t := Trim(input, Js);
    if t == "" || t == target.name then None
    else if !target.isDir && !EndsWith(t, ".md") then Some(t + ".md")
    else Some(t)
  }

  /** The comparison happens before `.md` is added, so typing a note's name without `.md` renames it onto itself. */
  lemma RenameOntoItself(target: FileNode, input: string)
    requires !target.isDir && input != "" && target.name == input + ".md"
    requires !IsSpace(input[0], Js) && !IsSpace(input[|input| - 1], Js) && !EndsWith(input, ".md")
    ensures RenameName(target, input) == Some(target.name)
  {
    TrimIdentity(input, Js);
  }

  /**
   * On the mock filesystem a move onto the same path erases the note's text:
   * the text is copied to the target key and then the source key, which is
   * the same key, is deleted.
   */
  lemma RenameOntoItselfErasesNote(t: MockFs.ContentTable, n: FileNode, dir: string)
    requires !n.isDir && n.children.NoChildren? && '/' !in n.name
    requires n.path == dir + "/" + n.name && n.path in t.values
    ensures Store.RenameTarget(n.path, n.name) == n.path
    ensures n.path !in MockFs.MoveContent(t, MockFs.PathPairs(n, Store.RenameTarget(n.path, n.name))).values
  {
    Store.RenameKeepsParent(dir, n.name, n.name);
    MockFs.MoveOntoItselfDropsContent(t, n);
  }

  /** The rename as evidently intended: no rename when the final name is the current one. */
  function RenameNameChecked(target: FileNode, input: string): (r: Option<string>)
    ensures r.Some? ==> r.value != target.name && r.value != ""
    ensures r.Some? && !target.isDir ==> EndsWith(r.value, ".md")
  {
    var t := Trim(input, Js);
    if t == "" || t == target.name then None
    else
      var final := if !target.isDir && !EndsWith(t, ".md") then t + ".md" else t;
      if final == target.name then None else Some(final)
  }

  /** The checked rename differs from the sidebar's only where the sidebar would rename a note onto itself. */
  lemma RenameCheckedAgrees(target: FileNode, input: string)
    ensures RenameName(target, input) != Some(target.name) ==> RenameNameChecked(target, input) == RenameName(target, input)
    ensures RenameName(target, input) == Some(target.name) ==> RenameNameChecked(target, input).None?
  {
    var t := Trim(input, Js);
    if !target.isDir && !EndsWith(t, ".md") && t != "" {
      assert EndsWith(t + ".md", ".md");
      assert t + ".md" != t;
    }
  }

  // ---------------------------------------------------------------------
  // New folder depth limit
  // ---------------------------------------------------------------------

  /** A new folder is refused when its parent lies two or more levels below the workspace root. */
  predicate FolderAllowed(currentPath: string, parentPath: string) {
    var d := DepthFromRoot(currentPath, parentPath);
    !(d.Some? && d.value >= 2)
  }

  /** Folders may be created at the root and one level down, not below; a parent outside the root is not refused. */
  lemma FolderLevels(root: string, a: string, b: string, outside: string)
    requires a != "" && '/' !in a && b != "" && '/' !in b
    requires !SegPrefix(Segments(root), Segments(outside))
    ensures FolderAllowed(root, root)
    ensures FolderAllowed(root, root + "/" + a)
    ensures !FolderAllowed(root, root + "/" + a + "/" + b)
    ensures FolderAllowed(root, outside)
  {
    DepthOfRootIsZero(root);
    DepthOfChild(root, root, a);
    DepthOfChild(root, root + "/" + a, b);
  }

  // ---------------------------------------------------------------------
  // Revealing the viewed folder
  // ---------------------------------------------------------------------

  /** The path after appending the parts one by one, each after a `/`. */
  function Acc(root: string, parts: seq<string>): string {
    if parts == [] then root else Acc(root, parts[..|parts| - 1]) + "/" + parts[|parts| - 1]
  }

  /** Every intermediate path `root/p1`, `root/p1/p2`, ... */
  function Ancestors(root: string, parts: seq<string>): (r: seq<string>)
    ensures |r| == |parts|
  {
    if parts == [] then [] else Ancestors(root, parts[..|parts| - 1]) + [Acc(root, parts)]
  }

  /** The path with its leading slashes removed. */
  function TrimLeadingSlashes(p: string): (r: string)
    ensures |r| <= |p|
    ensures r == [] || r[0] != '/'
  {
    if |p| > 0 && p[0] == '/' then TrimLeadingSlashes(p[1..]) else p
  }

  /** The non-empty pieces of a relative path. */
  function PathParts(rel: string): seq<string> {
    NonEmpty(Split(rel, '/'))
  }

  /** The folders to open for a relative path below the root: none for an empty one. */
  function RevealUnder(root: string, rel: string): seq<string> {
    if rel == "" then [] else Ancestors(root, PathParts(rel))
  }

  /**
   * The keys the sidebar sets to expanded when the viewed folder changes:
   * none when it is unset or is the workspace itself; the viewed path alone
   * when it does not start with the root (as strings, trailing slashes
   * removed); otherwise every path from the root down to it.
   */
  function ExpandKeys(viewPath: Option<string>, currentPath: string): seq<string> {
    if viewPath.None? || viewPath.value == "" || viewPath.value == currentPath then []
    else
      var root := NormalizePath(currentPath);
      var target := NormalizePath(viewPath.value);
      if !StartsWith(target, root) then [viewPath.value]
      else RevealUnder(root, TrimLeadingSlashes(target[|root|..]))
  }

  /** Each key set to true. */
  function AllTrue(keys: seq<string>): map<string, bool> {
    map k | k in keys :: true
  }

  lemma AllTrueSnoc(keys: seq<string>, k: string)
    ensures AllTrue(keys + [k]) == AllTrue(keys)[k := true]
  {
  }

  /** The effect that keeps the tree open down to the viewed folder: the old map with the new keys set. */
  method SyncExpanded(expanded: map<string, bool>, viewPath: Option<string>, currentPath: string)
    returns (e: map<string, bool>)
    ensures e == expanded + AllTrue(ExpandKeys(viewPath, currentPath))
  {
    if viewPath.None? || viewPath.value == "" || viewPath.value == currentPath {
      assert AllTrue([]) == map[];
      return expanded;
    }
    var root := NormalizePath(currentPath);
    var target := NormalizePath(viewPath.value);
    if !StartsWith(target, root) {
      assert AllTrue([viewPath.value]) == map[viewPath.value := true];
      return expanded[viewPath.value := true];
    }
    var rel := TrimLeadingSlashes(target[|root|..]);
    if rel == "" {
      assert AllTrue([]) == map[];
      return expanded;
    }
    var parts := PathParts(rel);
    var acc := root;
    var updates: map<string, bool> := map[];
    for i := 0 to |parts|
      invariant acc == Acc(root, parts[..i])
      invariant updates == AllTrue(Ancestors(root, parts[..i]))
    {
      assert parts[..i + 1][..i] == parts[..i];
      acc := acc + "/" + parts[i];
      AllTrueSnoc(Ancestors(root, parts[..i]), acc);
      updates := updates[acc := true];
    }
    assert parts[..|parts|] == parts;
    e := expanded + updates;
  }

  lemma {:induction false} AncestorsAt(root: string, parts: seq<string>, k: nat)
    requires k < |parts|
    ensures Ancestors(root, parts)[k] == Acc(root, parts[..k + 1])
    decreases |parts|
  {
    if k < |parts| - 1 {
      var init := parts[..|parts| - 1];
      AncestorsAt(root, init, k);
      assert init[..k + 1] == parts[..k + 1];
    } else {
      assert parts[..k + 1] == parts;
    }
  }

  lemma {:induction false} AccPrefix(root: string, parts: seq<string>, k: nat)
    requires k <= |parts|
    ensures StartsWith(Acc(root, parts), Acc(root, parts[..k]))
    decreases |parts|
  {
    if k == |parts| {
      assert parts[..k] == parts;
    } else {
      var init := parts[..|parts| - 1];
      AccPrefix(root, init, k);
      assert init[..k] == parts[..k];
      StartsWithTrans(Acc(root, parts), Acc(root, init), Acc(root, parts[..k]));
    }
  }

  lemma {:induction false} AccJoin(root: string, parts: seq<string>)
    requires parts != []
    ensures Acc(root, parts) == root + "/" + Join(parts, "/")
    decreases |parts|
  {
    var init := parts[..|parts| - 1];
    if init != [] {
      AccJoin(root, init);
      JoinSnoc(init, parts[|parts| - 1], "/");
      assert init + [parts[|parts| - 1]] == parts;
    } else {
      assert parts == [parts[0]];
    }
  }

  lemma JoinStartsWithFirst(parts: seq<string>, sep: string)
    requires parts != []
    ensures StartsWith(Join(parts, sep), parts[0])
  {
    if |parts| > 1 {
      assert Join(parts, sep) == parts[0] + (sep + Join(parts[1..], sep));
    }
  }

  lemma {:induction false} JoinEndsWithLast(parts: seq<string>, sep: string)
    requires parts != []
    ensures EndsWith(Join(parts, sep), parts[|parts| - 1])
    decreases |parts|
  {
    if |parts| > 1 {
      JoinEndsWithLast(parts[1..], sep);
      assert Join(parts, sep) == (parts[0] + sep) + Join(parts[1..], sep);
    }
  }

  /** A viewed path written as the root, one `/` and a relative path without outer slashes opens the relative path's parts. */
  lemma RevealRel(root: string, rel: string)
    requires root == NormalizePath(root)
    requires rel != "" && rel[0] != '/' && rel[|rel| - 1] != '/'
    ensures ExpandKeys(Some(root + "/" + rel), root) == Ancestors(root, PathParts(rel))
  {
    var v := root + "/" + rel;
    assert v[|v| - 1] == rel[|rel| - 1];
    assert NormalizePath(v) == v;
    assert v != root && v != "";
    assert StartsWith(v, root) by {
      assert v[..|root|] == root;
    }
    assert TrimLeadingSlashes(v[|root|..]) == rel by {
      assert v[|root|..] == "/" + rel;
      assert ("/" + rel)[1..] == rel;
    }
  }

  /** Joining non-empty parts without `/` gives a relative path without outer slashes that splits back into them. */
  lemma JoinedParts(parts: seq<string>)
    requires parts != [] && forall i :: 0 <= i < |parts| ==> parts[i] != "" && '/' !in parts[i]
    ensures var rel := Join(parts, "/");
      rel != "" && rel[0] != '/' && rel[|rel| - 1] != '/' && PathParts(rel) == parts
  {
    var rel := Join(parts, "/");
    var first, last := parts[0], parts[|parts| - 1];
    JoinStartsWithFirst(parts, "/");
    JoinEndsWithLast(parts, "/");
    assert rel[0] == first[0] && first[0] in first;
    assert rel[|rel| - 1] == last[|last| - 1] && last[|last| - 1] in last;
    SplitJoin(parts, '/');
    NonEmptyKeeps(parts);
  }

  /** Each ancestor is the root joined with the first parts, and a prefix of the last. */
  lemma AncestorsJoined(root: string, parts: seq<string>)
    requires parts != []
    ensures var keys := Ancestors(root, parts);
      (forall k :: 0 <= k < |keys| ==> keys[k] == root + "/" + Join(parts[..k + 1], "/"))
      && (forall k :: 0 <= k < |keys| ==> StartsWith(root + "/" + Join(parts, "/"), keys[k]))
  {
    var keys := Ancestors(root, parts);
    AccJoin(root, parts);
    forall k | 0 <= k < |keys|
      ensures keys[k] == root + "/" + Join(parts[..k + 1], "/")
      ensures StartsWith(root + "/" + Join(parts, "/"), keys[k])
    {
      AncestorsAt(root, parts, k);
      AccJoin(root, parts[..k + 1]);
      AccPrefix(root, parts, k + 1);
    }
  }

  /**
   * Revealing the folder `root/p1/.../pn` opens exactly `root/p1`,
   * `root/p1/p2`, ..., `root/p1/.../pn`, each a prefix of the folder, the
   * last being the folder itself.
   */
  lemma RevealOpensChain(root: string, parts: seq<string>)
    requires root == NormalizePath(root)
    requires parts != [] && forall i :: 0 <= i < |parts| ==> parts[i] != "" && '/' !in parts[i]
    ensures var v := root + "/" + Join(parts, "/");
      var keys := ExpandKeys(Some(v), root);
      |keys| == |parts|
      && (forall k :: 0 <= k < |keys| ==> keys[k] == root + "/" + Join(parts[..k + 1], "/"))
      && keys[|keys| - 1] == v
      && (forall k :: 0 <= k < |keys| ==> StartsWith(v, keys[k]))
  {
    JoinedParts(parts);
    RevealRel(root, Join(parts, "/"));
    AncestorsJoined(root, parts);
    assert parts[..|parts|] == parts;
  }

  /** The viewed path is opened on its own when it does not start with the root. */
  lemma RevealOutside(viewPath: string, currentPath: string)
    requires viewPath != "" && viewPath != currentPath
    requires !StartsWith(NormalizePath(viewPath), NormalizePath(currentPath))
    ensures ExpandKeys(Some(viewPath), currentPath) == [viewPath]
  {
  }

  // ---------------------------------------------------------------------
  // The two global shortcuts
  // ---------------------------------------------------------------------

  /** What a key press does: nothing, close the editor (showing a folder), or open search. */
  datatype KeyAction = Ignore | CloseEditor(viewPath: Option<string>) | OpenSearch

  /** The folder shown after closing a note: the note's folder, or else the workspace, or nothing. */
  function CloseViewPath(path: string, currentPath: string): (r: Option<string>)
    ensures r.None? <==> currentPath == "" && (LastIndexOf(path, '/') <= 0 && LastIndexOf(path, '\\') <= 0)
    ensures r.Some? ==> r.value != "" && (StartsWith(path, r.value) || r.value == currentPath)
  {
    var slash := LastIndexOf(path, '/');
    var backslash := LastIndexOf(path, '\\');
    var idx := if slash > backslash then slash else backslash;
    var parent := if idx > 0 then path[..idx] else currentPath;
    if parent != "" then Some(parent) else if currentPath != "" then Some(currentPath) else None
  }

  /**
   * The sidebar's key handler: the close-editor shortcut (default `Cmd+W`)
   * is tried first and, with a note open, closes it; when it matches with no
   * note open the press is ignored without trying search. Otherwise the
   * search shortcut (default `Cmd+G`) opens search.
   */
  function OnKeyDown(ev: KeyEvent, closeShortcut: string, searchShortcut: string,
                     selected: Option<FileNode>, currentPath: string): (act: KeyAction)
    ensures act.CloseEditor? ==> selected.Some? && !selected.value.isDir
    ensures act.CloseEditor? ==> act.viewPath == CloseViewPath(selected.value.path, currentPath)
    ensures act == OpenSearch ==> !Matches(OrDefault(closeShortcut, "Cmd+W"), ev)
  {
    if Matches(OrDefault(closeShortcut, "Cmd+W"), ev) then
      if selected.None? || selected.value.isDir then Ignore
      else CloseEditor(CloseViewPath(selected.value.path, currentPath))
    else if Matches(OrDefault(searchShortcut, "Cmd+G"), ev) then OpenSearch
    else Ignore
  }

  /** Closing wins over search, and with no note open a close press does nothing at all. */
  lemma CloseFirst(ev: KeyEvent, closeShortcut: string, searchShortcut: string,
                   selected: Option<FileNode>, currentPath: string)
    requires Matches(OrDefault(closeShortcut, "Cmd+W"), ev)
    ensures OnKeyDown(ev, closeShortcut, searchShortcut, selected, currentPath) != OpenSearch
    ensures selected.None? ==> OnKeyDown(ev, closeShortcut, searchShortcut, selected, currentPath) == Ignore
  {
  }

  /** Closing a note shows the folder that holds it. */
  lemma CloseShowsFolder(dir: string, name: string, currentPath: string)
    requires dir != "" && '/' !in name && '\\' !in name
    ensures CloseViewPath(dir + "/" + name, currentPath) == Some(dir)
  {
    var p := dir + "/" + name;
    assert p[|dir|] == '/';
    var slash := LastIndexOf(p, '/');
    var backslash := LastIndexOf(p, '\\');
    assert slash == |dir|;
    assert backslash < |dir|;
    assert p[..|dir|] == dir;
  }
}
