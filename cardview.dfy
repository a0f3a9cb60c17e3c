/** The card view: every note of the workspace, in tree order, and opening one. */
module CardView {
  import opened Common
  import opened FileTree
  import Store

  /** The non-directory entries of a list, in order. */
  function NotesOf(s: seq<FileNode>): seq<FileNode> {
    if s == [] then [] else (if s[0].isDir then [] else [s[0]]) + NotesOf(s[1..])
  }

  lemma {:induction false} NotesOfAppend(a: seq<FileNode>, b: seq<FileNode>)
    ensures NotesOf(a + b) == NotesOf(a) + NotesOf(b)
    decreases |a|
  {
    if a == [] {
      assert a + b == b;
    } else {
      assert (a + b)[0] == a[0];
      assert (a + b)[1..] == a[1..] + b;
      NotesOfAppend(a[1..], b);
    }
  }

  /** `allNotes`: every note of the tree, in pre-order. */
  function AllNotes(files: seq<FileNode>): seq<FileNode> {
    NotesOf(Preorder(files))
  }

  lemma PreorderSingle(n: FileNode)
    ensures Preorder([n]) == [n] + Preorder(Kids(n))
  {
    assert [n][1..] == [];
  }

  lemma TraverseStep(nodes: seq<FileNode>, i: nat)
    requires i < |nodes|
    ensures NotesOf(Preorder(nodes[..i + 1]))
      == NotesOf(Preorder(nodes[..i])) + NotesOf([nodes[i]]) + NotesOf(Preorder(Kids(nodes[i])))
  {
    var node := nodes[i];
    assert nodes[..i + 1] == nodes[..i] + [node];
    PreorderAppend(nodes[..i], [node]);
    PreorderSingle(node);
    NotesOfAppend(Preorder(nodes[..i]), Preorder([node]));
    NotesOfAppend([node], Preorder(Kids(node)));
  }

  /**
   * `traverse`: for each node, a note is pushed, then the node's children
   * (a folder's, or a note's if it has any) are traversed.
   */
  method Traverse(nodes: seq<FileNode>, notes: seq<FileNode>) returns (out: seq<FileNode>)
    ensures out == notes + NotesOf(Preorder(nodes))
    decreases nodes
  {
    out := notes;
    for i := 0 to |nodes|
      invariant out == notes + NotesOf(Preorder(nodes[..i]))
    {
      var node := nodes[i];
      ghost var before := out;
      assert NotesOf([node]) == if node.isDir then [] else [node];
      if !node.isDir {
        out := out + [node];
      }
      assert out == before + NotesOf([node]);
      if node.children.Children? {
        out := Traverse(node.children.nodes, out);
      } else {
        assert NotesOf(Preorder(Kids(node))) == [];
      }
      ghost var prefix, own, below := NotesOf(Preorder(nodes[..i])), NotesOf([node]), NotesOf(Preorder(Kids(node)));
      assert out == notes + prefix + own + below;
      TraverseStep(nodes, i);
      AppendAssoc(notes, prefix + own, below);
      AppendAssoc(notes, prefix, own);
    }
    assert nodes[..|nodes|] == nodes;
  }

  /** The memoised list of notes the view shows. */
  method CollectNotes(files: seq<FileNode>) returns (notes: seq<FileNode>)
    ensures notes == AllNotes(files)
  {
    notes := Traverse(files, []);
  }

  /** A node is listed exactly when it is a note of the tree. */
  lemma {:induction false} NotesOfIff(s: seq<FileNode>, n: FileNode)
    ensures n in NotesOf(s) <==> n in s && !n.isDir
  {
    if s != [] {
      NotesOfIff(s[1..], n);
      assert s == [s[0]] + s[1..];
    }
  }

  /** Every note of the tree is listed, no folder is, and every listed path is a path of the tree. */
  lemma AllNotesExactly(files: seq<FileNode>, n: FileNode)
    ensures n in AllNotes(files) <==> n in Preorder(files) && !n.isDir
    ensures n in AllNotes(files) ==> n.path in Paths(files)
  {
    NotesOfIff(Preorder(files), n);
    PreorderPaths(files);
    if n in Preorder(files) {
      var i :| 0 <= i < |Preorder(files)| && Preorder(files)[i] == n;
      assert PathsOf(Preorder(files))[i] == n.path;
    }
  }

  /** Notes below a note that has children are collected too, right after it. */
  lemma NoteChildrenFollow(n: FileNode, rest: seq<FileNode>)
    requires !n.isDir
    ensures AllNotes([n] + rest) == [n] + AllNotes(Kids(n)) + AllNotes(rest)
  {
    PreorderAppend([n], rest);
    PreorderSingle(n);
    NotesOfAppend([n] + Preorder(Kids(n)), Preorder(rest));
    NotesOfAppend([n], Preorder(Kids(n)));
  }

  /** Clicking a card selects the note and switches to the editor. */
  method OpenNote(store: Store.AppStore, note: FileNode)
    modifies store
    ensures store.selectedFile == Some(note) && store.viewMode == Store.Tree
    ensures store.viewPath == old(store.viewPath) && store.files == old(store.files)
    ensures store.Current() == old(store.Current()) && store.configFile == old(store.configFile)
  {
    store.SetSelectedFile(Some(note));
    store.SetViewMode(Store.Tree);
  }
}
