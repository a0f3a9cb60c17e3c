/**
 * The application store: the workspace tree and the view state shared by
 * every component, the persisted settings, and the file actions that go to
 * either the browser mock filesystem or the native backend.
 */
module Store {
  import opened Common
  import opened Strings
  import opened FileTree
  import MockFs

  // ---------------------------------------------------------------------
  // sortFiles
  // ---------------------------------------------------------------------

  /** A node with its child list (when it has one) sorted all the way down. */
  function SortNode(n: FileNode): FileNode
    decreases n, 0
  {
    match n.children
    case NoChildren => n
    case Children(kids) => n.(children := Children(SortFiles(kids)))
  }

  function SortEach(nodes: seq<FileNode>): (r: seq<FileNode>)
    ensures |r| == |nodes|
    decreases nodes, 1
  {
    if nodes == [] then [] else [SortNode(nodes[0])] + SortEach(nodes[1..])
  }

  /**
   * `sortFiles`: every level ordered directories first, then by name, with
   * equal nodes kept in their original order. The comparison reads only
   * `is_dir` and `name`, which sorting the children does not change, so
   * sorting a level before or after its children gives the same result.
   */
  function SortFiles(nodes: seq<FileNode>): (r: seq<FileNode>)
    ensures LevelSorted(r) && |r| == |nodes|
    decreases nodes, 2
  {
    SortLevel(SortEach(nodes))
  }

  /** Every level of the forest is in `sortFiles` order. */
  predicate DeepSorted(nodes: seq<FileNode>)
    decreases nodes
  {
    LevelSorted(nodes) && KidsSorted(nodes)
  }

  predicate KidsSorted(nodes: seq<FileNode>)
    decreases nodes, 0
  {
    forall x :: x in nodes ==> x.children.Children? ==> DeepSorted(x.children.nodes)
  }

  lemma {:induction false} SortEachKidsSorted(nodes: seq<FileNode>)
    ensures KidsSorted(SortEach(nodes))
    decreases nodes, 1
  {
    if nodes != [] {
      var n := nodes[0];
      if n.children.Children? {
        SortFilesSorted(n.children.nodes);
      }
      SortEachKidsSorted(nodes[1..]);
    }
  }

  /** `sortFiles` leaves every level of the tree sorted. */
  lemma {:induction false} SortFilesSorted(nodes: seq<FileNode>)
    ensures DeepSorted(SortFiles(nodes))
    decreases nodes, 2
  {
    var each := SortEach(nodes);
    SortEachKidsSorted(nodes);
    var r := SortLevel(each);
    forall x | x in r
      ensures x.children.Children? ==> DeepSorted(x.children.nodes)
    {
      assert x in multiset(r);
    }
  }

  /** `Insert` puts `x` at some position and leaves the other elements in order around it. */
  lemma {:induction false} InsertSplits(x: FileNode, s: seq<FileNode>) returns (k: nat)
    requires LevelSorted(s)
    ensures k <= |s| && Insert(x, s) == s[..k] + [x] + s[k..]
    decreases |s|
  {
    if s == [] || NodeLe(x, s[0]) {
      k := 0;
    } else {
      StrLeTotal(x.name, s[0].name);
      var j := InsertSplits(x, s[1..]);
      k := j + 1;
      assert s[..k] == [s[0]] + s[1..][..j];
      assert s[k..] == s[1..][j..];
    }
  }

  /** Putting a node between two parts of a level adds its subtree's paths. */
  lemma SplitPaths(pre: seq<FileNode>, x: FileNode, post: seq<FileNode>)
    ensures multiset(Paths(pre + ([x] + post))) == multiset(Paths([x])) + multiset(Paths(pre + post))
  {
    PathsAppend(pre, [x] + post);
    PathsAppend([x], post);
    PathsAppend(pre, post);
  }

  lemma InsertPaths(x: FileNode, s: seq<FileNode>)
    requires LevelSorted(s)
    ensures multiset(Paths(Insert(x, s))) == multiset(Paths([x])) + multiset(Paths(s))
  {
    var k := InsertSplits(x, s);
    var pre, post := s[..k], s[k..];
    assert s == pre + post;
    assert Insert(x, s) == pre + ([x] + post);
    SplitPaths(pre, x, post);
  }

  /** The paths of a level: those under its first node, then those of the rest. */
  lemma PathsHead(s: seq<FileNode>)
    requires s != []
    ensures multiset(Paths(s)) == multiset(Paths([s[0]])) + multiset(Paths(s[1..]))
  {
    PathsSingle(s[0]);
  }

  lemma {:induction false} SortLevelPaths(s: seq<FileNode>)
    ensures multiset(Paths(SortLevel(s))) == multiset(Paths(s))
    decreases |s|
  {
    if s != [] {
      var t := SortLevel(s[1..]);
      assert SortLevel(s) == Insert(s[0], t);
      SortLevelPaths(s[1..]);
      InsertPaths(s[0], t);
      PathsHead(s);
    }
  }

  /** Sorting a node's children keeps its path and the paths below it. */
  lemma {:induction false} SortNodePaths(n: FileNode)
    ensures SortNode(n).path == n.path
    ensures multiset(Paths(Kids(SortNode(n)))) == multiset(Paths(Kids(n)))
    decreases n, 0
  {
    if n.children.Children? {
      SortFilesPaths(n.children.nodes);
    }
  }

  lemma ConsPaths(m: FileNode, n: FileNode, rest: seq<FileNode>, tail: seq<FileNode>)
    requires m.path == n.path
    requires multiset(Paths(Kids(m))) == multiset(Paths(Kids(n)))
    requires multiset(Paths(rest)) == multiset(Paths(tail))
    ensures multiset(Paths([m] + rest)) == multiset(Paths([n] + tail))
  {
    PathsCons(m, rest);
    PathsCons(n, tail);
  }

  lemma {:induction false} SortEachPaths(nodes: seq<FileNode>)
    ensures multiset(Paths(SortEach(nodes))) == multiset(Paths(nodes))
    decreases nodes, 1
  {
    if nodes != [] {
      var n := nodes[0];
      SortNodePaths(n);
      SortEachPaths(nodes[1..]);
      assert SortEach(nodes) == [SortNode(n)] + SortEach(nodes[1..]);
      ConsPaths(SortNode(n), n, SortEach(nodes[1..]), nodes[1..]);
      assert nodes == [n] + nodes[1..];
    }
  }

  /** Sorting moves nodes only: every path of the tree is still there, as often as before. */
  lemma {:induction false} SortFilesPaths(nodes: seq<FileNode>)
    ensures multiset(Paths(SortFiles(nodes))) == multiset(Paths(nodes))
    decreases nodes, 2
  {
    SortEachPaths(nodes);
    SortLevelPaths(SortEach(nodes));
  }

  /** So sorting keeps the number of nodes and every path that was there. */
  lemma SortFilesKeeps(nodes: seq<FileNode>)
    ensures |Paths(SortFiles(nodes))| == |Paths(nodes)|
    ensures forall p :: p in Paths(nodes) ==> p in Paths(SortFiles(nodes))
  {
    SortFilesPaths(nodes);
    assert |multiset(Paths(SortFiles(nodes)))| == |multiset(Paths(nodes))|;
    forall p | p in Paths(nodes)
      ensures p in Paths(SortFiles(nodes))
    {
      assert p in multiset(Paths(nodes));
    }
  }

  /** The nodes of one level, each reduced to what the comparison and the views read of it. */
  function Heads(nodes: seq<FileNode>): seq<(string, string, bool)> {
    if nodes == [] then [] else [(nodes[0].name, nodes[0].path, nodes[0].isDir)] + Heads(nodes[1..])
  }

  lemma {:induction false} InsertHeads(x: FileNode, s: seq<FileNode>)
    requires LevelSorted(s)
    ensures multiset(Heads(Insert(x, s))) == multiset{(x.name, x.path, x.isDir)} + multiset(Heads(s))
    decreases |s|
  {
    if s != [] && !NodeLe(x, s[0]) {
      StrLeTotal(x.name, s[0].name);
      InsertHeads(x, s[1..]);
      assert ([s[0]] + Insert(x, s[1..]))[1..] == Insert(x, s[1..]);
    }
  }

  lemma {:induction false} SortEachHeads(nodes: seq<FileNode>)
    ensures Heads(SortEach(nodes)) == Heads(nodes)
    decreases |nodes|
  {
    if nodes != [] {
      SortEachHeads(nodes[1..]);
      assert ([SortNode(nodes[0])] + SortEach(nodes[1..]))[1..] == SortEach(nodes[1..]);
    }
  }

  lemma {:induction false} SortLevelHeads(s: seq<FileNode>)
    ensures multiset(Heads(SortLevel(s))) == multiset(Heads(s))
    decreases |s|
  {
    if s != [] {
      SortLevelHeads(s[1..]);
      InsertHeads(s[0], SortLevel(s[1..]));
    }
  }

  /** Each level keeps the same nodes (by name, path and kind), only reordered. */
  lemma SortFilesSameLevel(nodes: seq<FileNode>)
    ensures multiset(Heads(SortFiles(nodes))) == multiset(Heads(nodes))
    ensures |SortFiles(nodes)| == |nodes|
  {
    SortEachHeads(nodes);
    SortLevelHeads(SortEach(nodes));
    HeadsLength(SortEach(nodes));
    HeadsLength(nodes);
    assert |multiset(SortFiles(nodes))| == |multiset(SortEach(nodes))|;
  }

  lemma {:induction false} HeadsLength(nodes: seq<FileNode>)
    ensures |Heads(nodes)| == |nodes|
  {
    if nodes != [] {
      HeadsLength(nodes[1..]);
    }
  }

  // ---------------------------------------------------------------------
  // renameFile
  // ---------------------------------------------------------------------

  /** The new path of a rename: everything before the last `/`, then `/` and the new name. */
  function RenameTarget(path: string, newName: string): (r: string)
    ensures EndsWith(r, "/" + newName)
    ensures |r| <= |path| + 1 + |newName|
  {
    Substring(path, 0, LastIndexOf(path, '/')) + "/" + newName
  }

  /** A rename keeps the parent directory and replaces only the last component. */
  lemma RenameKeepsParent(dir: string, name: string, newName: string)
    requires '/' !in name
    ensures RenameTarget(dir + "/" + name, newName) == dir + "/" + newName
  {
    var p := dir + "/" + name;
    LastSlashAt(dir, name);
    assert p[..|dir|] == dir;
  }

  lemma LastSlashAt(dir: string, name: string)
    requires '/' !in name
    ensures LastIndexOf(dir + "/" + name, '/') == |dir|
  {
    var p := dir + "/" + name;
    var k := LastIndexOf(p, '/');
    assert p[|dir|] == '/';
  }

  /** Renaming twice is the same as renaming once to the second name. */
  lemma RenameTwice(path: string, n: string, m: string)
    requires '/' !in n
    ensures RenameTarget(RenameTarget(path, n), m) == RenameTarget(path, m)
  {
    var dir := Substring(path, 0, LastIndexOf(path, '/'));
    RenameKeepsParent(dir, n, m);
  }

  // ---------------------------------------------------------------------
  // saveConfig / loadConfig
  // ---------------------------------------------------------------------

  /** The `shortcuts` object of the configuration file; `close` is the older key for `closeEditor`. */
  datatype StoredShortcuts = StoredShortcuts(search: Option<string>, closeEditor: Option<string>, close: Option<string>)

  /** The configuration object as parsed, each field absent (or null) or present. */
  datatype StoredConfig = StoredConfig(
    sidebarWidth: Option<int>,
    editorMode: Option<string>,
    theme: Option<string>,
    shortcuts: Option<StoredShortcuts>)

  /**
   * What `get_config` hands back: an empty string; text whose reading throws
   * (`JSON.parse` rejects it, or it is `null`, whose fields cannot be read);
   * or a parsed value. A parsed value that is not an object (a number, say)
   * has every field undefined, so it is `Parsed` with every field absent.
   */
  datatype ConfigRead = Missing | Malformed | Parsed(config: StoredConfig)

  /** The five persisted settings. */
  datatype Settings = Settings(
    sidebarWidth: int,
    editorMode: string,
    theme: string,
    searchShortcut: string,
    closeEditorShortcut: string)

  const Defaults := Settings(256, "split", "zinc", "Cmd+G", "Cmd+W")

  /** The object `saveConfig` writes: every setting present, no legacy key. */
  function ConfigOf(s: Settings): (c: StoredConfig)
    ensures c.shortcuts.Some? && c.shortcuts.value.close.None?
  {
    StoredConfig(Some(s.sidebarWidth), Some(s.editorMode), Some(s.theme),
                 Some(StoredShortcuts(Some(s.searchShortcut), Some(s.closeEditorShortcut), None)))
  }

  function OrElse<T>(o: Option<T>, d: T): T {
    if o.Some? then o.value else d
  }

  /** The settings `loadConfig` takes from a parsed object, each missing field replaced by its default. */
  function SettingsFrom(c: StoredConfig): (s: Settings)
  {
    var sc := if c.shortcuts.Some? then c.shortcuts.value else StoredShortcuts(None, None, None);
    Settings(
      OrElse(c.sidebarWidth, 256),
      OrElse(c.editorMode, "split"),
      OrElse(c.theme, "zinc"),
      OrElse(sc.search, "Cmd+G"),
      OrElse(sc.closeEditor, OrElse(sc.close, "Cmd+W")))
  }

  /** Loading what was saved restores all five settings. */
  lemma LoadAfterSave(s: Settings)
    ensures SettingsFrom(ConfigOf(s)) == s
  {
  }

  /** An object with no fields yields the defaults 256, split, zinc, Cmd+G and Cmd+W. */
  lemma LoadEmpty()
    ensures SettingsFrom(StoredConfig(None, None, None, None)) == Defaults
  {
  }

  /** A present setting is taken as is; an absent one becomes its default. */
  lemma LoadFieldwise(c: StoredConfig)
    ensures SettingsFrom(c).sidebarWidth == (if c.sidebarWidth.Some? then c.sidebarWidth.value else 256)
    ensures SettingsFrom(c).theme == (if c.theme.Some? then c.theme.value else "zinc")
    ensures c.shortcuts.None? ==> SettingsFrom(c).closeEditorShortcut == "Cmd+W"
  {
  }

  /** The older `shortcuts.close` key is read when `closeEditor` is absent, and ignored when it is present. */
  lemma LegacyClose(c: StoredConfig)
    requires c.shortcuts.Some?
    ensures c.shortcuts.value.closeEditor.Some? ==>
      SettingsFrom(c).closeEditorShortcut == c.shortcuts.value.closeEditor.value
    ensures c.shortcuts.value.closeEditor.None? && c.shortcuts.value.close.Some? ==>
      SettingsFrom(c).closeEditorShortcut == c.shortcuts.value.close.value
  {
  }

  // ---------------------------------------------------------------------
  // The store
  // ---------------------------------------------------------------------

  datatype ViewMode = Tree | Card
  datatype NoticeType = Info | Success | Error
  datatype Notice = Notice(id: int, kind: NoticeType, message: string)
  datatype Jump = Jump(path: string, line: int)

  /** The path that always selects the browser mock filesystem. */
  const MockRoot := "/mock"

  /** The view state of the store: everything but the file list, the settings and the saved configuration. */
  datatype Screen = Screen(
    currentPath: string,
    selectedFile: Option<FileNode>,
    viewMode: ViewMode,
    viewPath: Option<string>,
    searchJump: Option<Jump>,
    notice: Option<Notice>,
    shownTheme: string)

  /** The mock tree after `moveFile(source, target)`: the node detached, re-rooted at the target and placed. */
  function MovedTree(files: seq<FileNode>, source: string, target: string): seq<FileNode>
    requires source in Paths(files)
  {
    var d := Detach(files, source).value;
    MockFs.Place(d.1, MockFs.DirOf(target), MockFs.Relocate(d.0, target))
  }

  /** The mock contents after `moveFile(source, target)`: every path of the moved subtree carries its content along. */
  function MovedContent(t: MockFs.ContentTable, files: seq<FileNode>, source: string, target: string): MockFs.ContentTable
    requires source in Paths(files)
  {
    MockFs.MoveContent(t, MockFs.PathPairs(Detach(files, source).value.0, target))
  }

  /** The mock tree after `copyFile(source, target)`: a renamed deep copy of the node placed beside the old tree. */
  function CopiedTree(files: seq<FileNode>, source: string, target: string): seq<FileNode>
    requires source in Paths(files)
  {
    MockFs.Place(files, MockFs.DirOf(target), MockFs.Clone(Find(files, source).value, target))
  }

  /** The mock contents after `copyFile(source, target)`: every path of the copy gets its source's content. */
  function CopiedContent(t: MockFs.ContentTable, files: seq<FileNode>, source: string, target: string): MockFs.ContentTable
    requires source in Paths(files)
  {
    MockFs.CopyContent(t, MockFs.PathPairs(Find(files, source).value, target))
  }

  /** The mock tree after `deleteFile(path)`: the first node with the path taken out, or the tree unchanged. */
  function RemainingTree(files: seq<FileNode>, path: string): seq<FileNode> {
    var removed := MockFs.RemovePath(files, path);
    if removed.Some? then removed.value.1 else files
  }

  /**
   * The store's state. `hasBackend` says whether the native host is present;
   * `configFile` is the configuration the host holds; `shownTheme` is the
   * theme applied to the document; `mock` is the browser mock filesystem.
   */
  class AppStore {
    var currentPath: string
    var files: seq<FileNode>
    var selectedFile: Option<FileNode>
    var editorMode: string
    var viewMode: ViewMode
    var viewPath: Option<string>
    var sidebarWidth: int
    var searchJump: Option<Jump>
    var searchShortcut: string
    var closeEditorShortcut: string
    var theme: string
    var notice: Option<Notice>
    var shownTheme: string
    var configFile: Option<StoredConfig>
    const hasBackend: bool
    const mock: MockFs.MockAdapter

    ghost predicate Valid()
      reads this, mock
    {
      mock.Valid()
    }

    function Current(): Settings
      reads this
    {
      Settings(sidebarWidth, editorMode, theme, searchShortcut, closeEditorShortcut)
    }

    function View(): Screen
      reads this
    {
      Screen(currentPath, selectedFile, viewMode, viewPath, searchJump, notice, shownTheme)
    }

    /** The file actions go to the mock filesystem at `/mock` and whenever there is no host. */
    predicate IsMock()
      reads this
    {
      currentPath == MockRoot || !hasBackend
    }

    constructor (hasBackend: bool, mock: MockFs.MockAdapter, configFile: Option<StoredConfig>)
      requires mock.Valid()
      ensures Valid() && this.hasBackend == hasBackend && this.mock == mock
      ensures currentPath == "" && files == [] && selectedFile.None? && viewMode == Tree && viewPath.None?
      ensures Current() == Defaults && searchJump.None? && notice.None? && shownTheme == "zinc"
      ensures this.configFile == configFile
    {
      currentPath := "";
      files := [];
      selectedFile := None;
      editorMode := "split";
      viewMode := Tree;
      viewPath := None;
      sidebarWidth := 256;
      searchJump := None;
      searchShortcut := "Cmd+G";
      closeEditorShortcut := "Cmd+W";
      theme := "zinc";
      notice := None;
      shownTheme := "zinc";
      this.configFile := configFile;
      this.hasBackend := hasBackend;
      this.mock := mock;
    }

    /** `saveConfig`: writes the five settings when the host is present. */
    method SaveConfig()
      modifies this
      ensures configFile == (if hasBackend then Some(ConfigOf(Current())) else old(configFile))
      ensures Current() == old(Current()) && files == old(files) && View() == old(View())
    {
      if hasBackend {
        configFile := Some(ConfigOf(Current()));
      }
    }

    /**
     * `loadConfig`: with a host and a parsed object, takes all five settings
     * from it and applies the theme; an empty answer or a parse failure
     * changes nothing.
     */
    method LoadConfig(read: ConfigRead)
      modifies this
      ensures hasBackend && read.Parsed? ==>
        Current() == SettingsFrom(read.config) && View() == old(View()).(shownTheme := theme)
      ensures !(hasBackend && read.Parsed?) ==> Current() == old(Current()) && View() == old(View())
      ensures configFile == old(configFile) && files == old(files)
    {
      if hasBackend && read.Parsed? {
        var s := SettingsFrom(read.config);
        sidebarWidth := s.sidebarWidth;
        editorMode := s.editorMode;
        searchShortcut := s.searchShortcut;
        closeEditorShortcut := s.closeEditorShortcut;
        theme := s.theme;
        shownTheme := s.theme;
      }
    }

    method SetEditorMode(mode: string)
      modifies this
      ensures Current() == old(Current()).(editorMode := mode)
      ensures configFile == (if hasBackend then Some(ConfigOf(Current())) else old(configFile))
      ensures files == old(files) && View() == old(View())
    {
      editorMode := mode;
      SaveConfig();
    }

    method SetSidebarWidth(width: int)
      modifies this
      ensures Current() == old(Current()).(sidebarWidth := width)
      ensures configFile == (if hasBackend then Some(ConfigOf(Current())) else old(configFile))
      ensures files == old(files) && View() == old(View())
    {
      sidebarWidth := width;
      SaveConfig();
    }

    method SetSearchShortcut(shortcut: string)
      modifies this
      ensures Current() == old(Current()).(searchShortcut := shortcut)
      ensures configFile == (if hasBackend then Some(ConfigOf(Current())) else old(configFile))
      ensures files == old(files) && View() == old(View())
    {
      searchShortcut := shortcut;
      SaveConfig();
    }

    method SetCloseEditorShortcut(shortcut: string)
      modifies this
      ensures Current() == old(Current()).(closeEditorShortcut := shortcut)
      ensures configFile == (if hasBackend then Some(ConfigOf(Current())) else old(configFile))
      ensures files == old(files) && View() == old(View())
    {
      closeEditorShortcut := shortcut;
      SaveConfig();
    }

    /** `setTheme` also applies the theme to the document. */
    method SetTheme(t: string)
      modifies this
      ensures Current() == old(Current()).(theme := t)
      ensures configFile == (if hasBackend then Some(ConfigOf(Current())) else old(configFile))
      ensures files == old(files) && View() == old(View()).(shownTheme := t)
    {
      theme := t;
      shownTheme := t;
      SaveConfig();
    }

    /** `setViewMode` does not persist anything. */
    method SetViewMode(mode: ViewMode)
      modifies this
      ensures View() == old(View()).(viewMode := mode)
      ensures Current() == old(Current()) && configFile == old(configFile) && files == old(files)
    {
      viewMode := mode;
    }

    /** `setViewPath` does not persist anything. */
    method SetViewPath(path: Option<string>)
      modifies this
      ensures View() == old(View()).(viewPath := path)
      ensures Current() == old(Current()) && configFile == old(configFile) && files == old(files)
    {
      viewPath := path;
    }

    /** `setSelectedFile` does not persist anything. */
    method SetSelectedFile(file: Option<FileNode>)
      modifies this
      ensures View() == old(View()).(selectedFile := file)
      ensures Current() == old(Current()) && configFile == old(configFile) && files == old(files)
    {
      selectedFile := file;
    }

    method SetSearchJump(jump: Option<Jump>)
      modifies this
      ensures View() == old(View()).(searchJump := jump)
      ensures Current() == old(Current()) && configFile == old(configFile) && files == old(files)
    {
      searchJump := jump;
    }

    /** `pushNotice`: the notice is stamped with the current time, `now`. */
    method PushNotice(message: string, kind: NoticeType, now: int)
      modifies this
      ensures View() == old(View()).(notice := Some(Notice(now, kind, message)))
      ensures Current() == old(Current()) && configFile == old(configFile) && files == old(files)
    {
      notice := Some(Notice(now, kind, message));
    }

    method ClearNotice()
      modifies this
      ensures View() == old(View()).(notice := None)
      ensures Current() == old(Current()) && configFile == old(configFile) && files == old(files)
    {
      notice := None;
    }

    /**
     * `loadFiles`: at `/mock`, or without a host, the mock tree; otherwise the
     * host's listing `listing` (an error leaves the store as it was). The
     * mock adapter hands back its own array, so sorting it sorts the mock
     * tree as well.
     */
    method LoadFiles(path: string, listing: Result<seq<FileNode>>)
      requires Valid()
      modifies this, mock
      ensures Valid()
      ensures path == MockRoot || !hasBackend ==>
        files == SortFiles(old(mock.files)) && mock.files == files && View() == old(View()).(currentPath := path)
      ensures path != MockRoot && hasBackend && listing.Ok? ==>
        files == SortFiles(listing.value) && View() == old(View()).(currentPath := path) && mock.files == old(mock.files)
      ensures path != MockRoot && hasBackend && listing.Err? ==>
        files == old(files) && View() == old(View()) && mock.files == old(mock.files)
      ensures Current() == old(Current()) && configFile == old(configFile) && mock.content == old(mock.content)
    {
      if path == MockRoot || !hasBackend {
        var listed := mock.ReadDir(path);
        var sorted := SortFiles(listed);
        mock.files := sorted;
        files := sorted;
        currentPath := path;
      } else if listing.Ok? {
        files := SortFiles(listing.value);
        currentPath := path;
      }
    }

    /**
     * `moveFile`: on the mock filesystem or through `move_path` (whose
     * outcome is `host`), then a reload of the current path; a failure is
     * passed on and nothing is reloaded.
     */
    method MoveFile(source: string, target: string, host: Result<()>, listing: Result<seq<FileNode>>)
      returns (r: Result<()>)
      requires Valid()
      modifies this, mock
      ensures Valid()
      ensures old(IsMock()) && source !in Paths(old(mock.files)) ==>
        r == Err("Source not found") && files == old(files)
        && mock.files == old(mock.files) && mock.content == old(mock.content)
      ensures old(IsMock()) && source in Paths(old(mock.files)) ==>
        r.Ok? && files == mock.files
        && files == SortFiles(MovedTree(old(mock.files), source, target))
        && mock.content == MovedContent(old(mock.content), old(mock.files), source, target)
      ensures old(IsMock()) && r.Ok? ==>
        DeepSorted(files) && target in Paths(files) && |Paths(files)| == |Paths(old(mock.files))|
      ensures !old(IsMock()) ==> r == host && mock.files == old(mock.files) && mock.content == old(mock.content)
      ensures !old(IsMock()) && r.Ok? && listing.Ok? ==> files == SortFiles(listing.value)
      ensures !old(IsMock()) && (r.Err? || listing.Err?) ==> files == old(files)
      ensures View() == old(View()) && Current() == old(Current()) && configFile == old(configFile)
    {
      var isMock := IsMock();
      if isMock {
        var m := mock.MoveFile(source, target);
        if m.Err? {
          return Err(m.error);
        }
      } else if host.Err? {
        return host;
      }
      ghost var changed := mock.files;
      LoadFiles(currentPath, listing);
      SortFilesSorted(changed);
      SortFilesKeeps(changed);
      r := if isMock then Ok(()) else host;
    }

    /** `renameFile`: a move to `RenameTarget(path, newName)`. */
    method RenameFile(path: string, newName: string, host: Result<()>, listing: Result<seq<FileNode>>)
      returns (r: Result<()>)
      requires Valid()
      modifies this, mock
      ensures Valid()
      ensures old(IsMock()) && path !in Paths(old(mock.files)) ==>
        r == Err("Source not found") && files == old(files)
        && mock.files == old(mock.files) && mock.content == old(mock.content)
      ensures old(IsMock()) && path in Paths(old(mock.files)) ==>
        r.Ok? && files == mock.files
        && files == SortFiles(MovedTree(old(mock.files), path, RenameTarget(path, newName)))
        && mock.content == MovedContent(old(mock.content), old(mock.files), path, RenameTarget(path, newName))
      ensures old(IsMock()) && r.Ok? ==> RenameTarget(path, newName) in Paths(files) && DeepSorted(files)
      ensures !old(IsMock()) ==> r == host && mock.files == old(mock.files) && mock.content == old(mock.content)
      ensures !old(IsMock()) && r.Ok? && listing.Ok? ==> files == SortFiles(listing.value)
      ensures !old(IsMock()) && (r.Err? || listing.Err?) ==> files == old(files)
      ensures View() == old(View()) && Current() == old(Current()) && configFile == old(configFile)
    {
      r := MoveFile(path, RenameTarget(path, newName), host, listing);
    }

    /** `deleteFile`: the mock deletion never fails; `delete_path` may. */
    method DeleteFile(path: string, host: Result<()>, listing: Result<seq<FileNode>>)
      returns (r: Result<()>)
      requires Valid()
      modifies this, mock
      ensures Valid()
      ensures old(IsMock()) ==>
        r.Ok? && files == mock.files && files == SortFiles(RemainingTree(old(mock.files), path))
        && mock.content == old(mock.content).Delete(path)
      ensures old(IsMock()) ==> DeepSorted(files) && multiset(Paths(files)) <= multiset(Paths(old(mock.files)))
      ensures !old(IsMock()) ==> r == host && mock.files == old(mock.files) && mock.content == old(mock.content)
      ensures !old(IsMock()) && r.Ok? && listing.Ok? ==> files == SortFiles(listing.value)
      ensures !old(IsMock()) && (r.Err? || listing.Err?) ==> files == old(files)
      ensures View() == old(View()) && Current() == old(Current()) && configFile == old(configFile)
    {
      var isMock := IsMock();
      if isMock {
        mock.DeleteFile(path);
      } else if host.Err? {
        return host;
      }
      ghost var changed := mock.files;
      LoadFiles(currentPath, listing);
      SortFilesSorted(changed);
      SortFilesKeeps(changed);
      SortFilesPaths(changed);
      r := if isMock then Ok(()) else host;
    }

    /** `copyFile`: on the mock filesystem or through `copy_file`, then a reload. */
    method CopyFile(source: string, target: string, host: Result<()>, listing: Result<seq<FileNode>>)
      returns (r: Result<()>)
      requires Valid()
      modifies this, mock
      ensures Valid()
      ensures old(IsMock()) && source !in Paths(old(mock.files)) ==>
        r == Err("Source not found") && files == old(files)
        && mock.files == old(mock.files) && mock.content == old(mock.content)
      ensures old(IsMock()) && source in Paths(old(mock.files)) ==>
        r.Ok? && files == mock.files
        && files == SortFiles(CopiedTree(old(mock.files), source, target))
        && mock.content == CopiedContent(old(mock.content), old(mock.files), source, target)
      ensures old(IsMock()) && r.Ok? ==>
        DeepSorted(files) && target in Paths(files) && multiset(Paths(old(mock.files))) <= multiset(Paths(files))
      ensures !old(IsMock()) ==> r == host && mock.files == old(mock.files) && mock.content == old(mock.content)
      ensures !old(IsMock()) && r.Ok? && listing.Ok? ==> files == SortFiles(listing.value)
      ensures !old(IsMock()) && (r.Err? || listing.Err?) ==> files == old(files)
      ensures View() == old(View()) && Current() == old(Current()) && configFile == old(configFile)
    {
      var isMock := IsMock();
      if isMock {
        var m := mock.CopyFile(source, target);
        if m.Err? {
          return Err(m.error);
        }
      } else if host.Err? {
        return host;
      }
      ghost var changed := mock.files;
      LoadFiles(currentPath, listing);
      SortFilesSorted(changed);
      SortFilesKeeps(changed);
      SortFilesPaths(changed);
      r := if isMock then Ok(()) else host;
    }
  }
}
