/**
 * The workspace commands of the native back end that read the disk
 * (`src-tauri/src/lib.rs`): the note listing of `get_files`, the file naming
 * of `create_note` and the line search of `search_text`. The disk is a value:
 * a tree of entries in directory order, and a map from file paths to the text
 * that can be read from them.
 */
module BackendFs {
  import opened Common
  import opened Strings
  import opened FileTree
  import PathUtil
  import BackendRefs

  /** A directory entry; a file carries its modification time as `get_files` formats it, when the metadata has one. */
  datatype Entry = File(name: string, modified: Option<string>) | Dir(name: string, entries: seq<Entry>)

  /** `Path::join` of a relative part: one `/` between the parts unless the base already ends with one. */
  function JoinPath(base: string, part: string): (p: string)
    ensures EndsWith(p, part)
  {
    if StartsWith(part, "/") then part else BackendRefs.PathJoin(base, part)
  }

  /** `Path::extension` of a file name: the text after its last `.`, or '' when it has none or its only `.` leads. */
  function Extension(name: string): (ext: string)
    ensures '.' !in ext && EndsWith(name, ext)
    ensures ext != [] ==> |ext| < |name| && name[|name| - |ext| - 1] == '.'
  {
    var k := LastIndexOf(name, '.');
    if k <= 0 then "" else name[k + 1..]
  }

  // ---------------------------------------------------------------------
  // get_files
  // ---------------------------------------------------------------------

  /** `MAX_DEPTH`: directories deeper than this are listed without their contents. */
  const MaxDepth: nat := 3

  /** `is_valid_file`: a note or a diagram, by its exact ending. */
  predicate IsValidFile(name: string) {
    EndsWith(name, ".md") || EndsWith(name, ".uml") || EndsWith(name, ".puml")
  }

  /** `read_children` lists an entry unless its name starts with `.` or it is a file of another kind. */
  predicate Listed(e: Entry) {
    !StartsWith(e.name, ".") && (e.Dir? || IsValidFile(e.name))
  }

  /** The node `read_children` builds for a listed entry of `dir` read at `depth`. */
  function NodeOf(dir: string, e: Entry, depth: nat): FileNode
    decreases e, 0
  {
    var path := JoinPath(dir, e.name);
    match e
    case File(name, modified) => FileNode(name, path, false, NoChildren, modified)
    case Dir(name, entries) =>
      FileNode(name, path, true, Children(if depth < MaxDepth then SortLevel(Listing(path, entries, depth + 1)) else []), None)
  }

  /** A directory below the depth limit lists its contents, sorted; one at the limit lists none. */
  predicate WellListed(n: FileNode, depth: nat) {
    !StartsWith(n.name, ".")
    && (n.isDir || IsValidFile(n.name))
    && (n.isDir <==> n.children.Children?)
    && (n.isDir ==> LevelSorted(n.children.nodes) && (depth >= MaxDepth ==> n.children.nodes == []))
  }

  /** `read_children(dir, depth)` as it returns: the listed entries in directory order, each well listed. */
  function Listing(dir: string, es: seq<Entry>, depth: nat): seq<FileNode>
    decreases es, 1
  {
    if es == [] then []
    else (if Listed(es[0]) then [NodeOf(dir, es[0], depth)] else []) + Listing(dir, es[1..], depth)
  }

  /** Every node `read_children` returns is well listed. */
  lemma {:induction false} ListingWellListed(dir: string, es: seq<Entry>, depth: nat)
    ensures forall n :: n in Listing(dir, es, depth) ==> WellListed(n, depth)
  {
    if es != [] {
      ListingWellListed(dir, es[1..], depth);
    }
  }

  /** The names of the entries `read_children` keeps, in directory order. */
  function ListedNames(es: seq<Entry>): seq<string> {
    if es == [] then []
    else (if Listed(es[0]) then [es[0].name] else []) + ListedNames(es[1..])
  }

  /** A listing holds exactly the kept entries, by name and in order. */
  lemma {:induction false} ListingNames(dir: string, es: seq<Entry>, depth: nat)
    ensures |Listing(dir, es, depth)| == |ListedNames(es)|
    ensures forall k :: 0 <= k < |ListedNames(es)| ==> Listing(dir, es, depth)[k].name == ListedNames(es)[k]
  {
    if es != [] {
      ListingNames(dir, es[1..], depth);
    }
  }

  /** `read_children`: one pass over the directory, descending into sub-directories below the depth limit. */
  method ReadChildren(dir: string, es: seq<Entry>, depth: nat) returns (children: seq<FileNode>)
    ensures children == Listing(dir, es, depth)
    decreases es, 1
  {
    children := [];
    for i := 0 to |es|
      invariant children + Listing(dir, es[i..], depth) == Listing(dir, es, depth)
    {
      var e := es[i];
      ghost var rest := Listing(dir, es[i + 1..], depth);
      if StartsWith(e.name, ".") || (!e.Dir? && !IsValidFile(e.name)) {
        assert Listing(dir, es[i..], depth) == rest by {
          ListingStep(dir, es, i, depth);
          assert !Listed(e);
          assert [] + rest == rest;
        }
        continue;
      }
      var node := ReadEntry(dir, e, depth);
      assert Listing(dir, es[i..], depth) == [node] + rest by {
        ListingStep(dir, es, i, depth);
      }
      AppendAssoc(children, [node], rest);
      children := children + [node];
    }
  }

  /** The node `read_children` builds for one kept entry: a file as it is, a directory with its sorted listing. */
  method ReadEntry(dir: string, e: Entry, depth: nat) returns (node: FileNode)
    ensures node == NodeOf(dir, e, depth)
    decreases e, 0
  {
    var path := JoinPath(dir, e.name);
    match e {
      case File(name, modified) =>
        node := FileNode(name, path, false, NoChildren, modified);
        assert node == NodeOf(dir, e, depth);
      case Dir(name, entries) =>
        if depth < MaxDepth {
          var grandChildren := ReadChildren(path, entries, depth + 1);
          node := FileNode(name, path, true, Children(SortLevel(grandChildren)), None);
          DirNode(dir, name, entries, depth, grandChildren);
        } else {
          node := FileNode(name, path, true, Children([]), None);
          assert node == NodeOf(dir, e, depth) by {
            NodeOfDir(dir, name, entries, depth);
          }
        }
    }
  }

  /** The node of a directory entry below the depth limit, given its listing. */
  lemma DirNode(dir: string, name: string, entries: seq<Entry>, depth: nat, kids: seq<FileNode>)
    requires depth < MaxDepth && kids == Listing(JoinPath(dir, name), entries, depth + 1)
    ensures NodeOf(dir, Dir(name, entries), depth)
      == FileNode(name, JoinPath(dir, name), true, Children(SortLevel(kids)), None)
  {
  }

  /** The node of a directory entry, one level unfolded. */
  lemma NodeOfDir(dir: string, name: string, entries: seq<Entry>, depth: nat)
    ensures NodeOf(dir, Dir(name, entries), depth)
      == FileNode(name, JoinPath(dir, name), true,
           Children(if depth < MaxDepth then SortLevel(Listing(JoinPath(dir, name), entries, depth + 1)) else []), None)
  {
  }

  /** One step of `read_children`'s loop: the entry at `i` contributes its node, if it is listed. */
  lemma ListingStep(dir: string, es: seq<Entry>, i: nat, depth: nat)
    requires i < |es|
    ensures Listing(dir, es[i..], depth)
      == (if Listed(es[i]) then [NodeOf(dir, es[i], depth)] else []) + Listing(dir, es[i + 1..], depth)
  {
    assert es[i..][0] == es[i] && es[i..][1..] == es[i + 1..];
  }

  /**
   * `get_files`: an error for a missing workspace, otherwise the top level read
   * at depth 1 and sorted directories first, then by name.
   */
  method GetFiles(rootPath: string, root: Option<seq<Entry>>) returns (r: Result<seq<FileNode>>)
    ensures root.None? ==> r == Err("Directory does not exist")
    ensures root.Some? ==>
      r.Ok? && LevelSorted(r.value) && multiset(r.value) == multiset(Listing(rootPath, root.value, 1))
    ensures root.Some? ==> forall i :: 0 <= i < |r.value| ==> WellListed(r.value[i], 1)
  {
    if root.None? {
      return Err("Directory does not exist");
    }
    var nodes := ReadChildren(rootPath, root.value, 1);
    var sorted := SortLevel(nodes);
    ListingWellListed(rootPath, root.value, 1);
    forall i | 0 <= i < |sorted|
      ensures WellListed(sorted[i], 1)
    {
      assert sorted[i] in multiset(nodes);
    }
    r := Ok(sorted);
  }

  // ---------------------------------------------------------------------
  // create_note
  // ---------------------------------------------------------------------

  /** `Path::file_stem` of a file name: the name without its extension. */
  function Stem(name: string): (stem: string)
    ensures StartsWith(name, stem)
    ensures LastIndexOf(name, '.') > 0 ==> name == stem + "." + Extension(name)
    ensures LastIndexOf(name, '.') <= 0 ==> stem == name
  {
    var k := LastIndexOf(name, '.');
    if k <= 0 then name
    else
      assert name == name[..k] + "." + name[k + 1..];
      name[..k]
  }

  /** `Path::with_extension("md")`: the last component's extension replaced by (or extended with) `md`. */
  function WithMdExtension(p: string): string {
    var q := PathUtil.NormalizePath(p);
    var name := AfterLast(q, '/');
    if name == "" || name == "." || name == ".." then p
    else q[..|q| - |name|] + (Stem(name) + ".md")
  }

  /** `create_note` keeps a name ending in `.md`, `.uml` or `.puml` and gives any other name the extension `md`. */
  predicate KeepsName(filename: string) {
    EndsWith(filename, ".md") || EndsWith(filename, ".uml") || EndsWith(filename, ".puml")
  }

  /**
   * `create_note(dir, filename)`: the joined path, renamed to `.md` unless it
   * already names a note or a diagram; an error when that path exists or the
   * write fails (`writeError`), otherwise the new file's path.
   */
  function CreateNote(dir: string, filename: string, existing: set<string>, writeError: Option<string>): (r: Result<string>)
    ensures r.Ok? ==> r.value !in existing
    ensures r.Err? && r.error != "File already exists" ==> writeError.Some?
  {
    var joined := JoinPath(dir, filename);
    var full := if KeepsName(filename) then joined else WithMdExtension(joined);
    if full in existing then Err("File already exists")
    else if writeError.Some? then Err(writeError.value)
    else Ok(full)
  }

  /** The name of the note `create_note` writes for a plain file name. */
  function NoteFileName(filename: string): (r: string)
    ensures KeepsName(r)
  {
    if KeepsName(filename) then filename else Stem(filename) + ".md"
  }

  /** Naming a note twice names it once. */
  lemma NoteFileNameIdempotent(filename: string)
    ensures NoteFileName(NoteFileName(filename)) == NoteFileName(filename)
  {
  }

  /** A name that already ends `.md`, `.uml` or `.puml` is kept, and any other loses only its extension. */
  lemma NoteFileNameKeeps(filename: string)
    ensures KeepsName(filename) ==> NoteFileName(filename) == filename
    ensures !KeepsName(filename) ==>
      NoteFileName(filename) == Stem(filename) + ".md" && StartsWith(filename, Stem(filename))
  {
  }

  /** A plain name: one non-empty path component that is not `.` or `..`. */
  predicate PlainName(filename: string) {
    filename != "" && filename != "." && filename != ".." && '/' !in filename
  }

  /** What `Path::join` puts before a relative part: the base and, unless it ends with one, a `/`. */
  function DirPrefix(dir: string): (pre: string)
    ensures pre == [] || pre[|pre| - 1] == '/'
    ensures forall part :: BackendRefs.PathJoin(dir, part) == pre + part
  {
    if dir == [] then [] else if dir[|dir| - 1] == '/' then dir else dir + "/"
  }

  /** The last component of `pre + f`, for a prefix ending with `/`, is `f` itself. */
  lemma LastComponent(pre: string, f: string)
    requires PlainName(f)
    requires pre == [] || pre[|pre| - 1] == '/'
    ensures PathUtil.NormalizePath(pre + f) == pre + f && AfterLast(pre + f, '/') == f
  {
    var q := pre + f;
    assert f[|f| - 1] != '/' by { assert f[|f| - 1] in f; }
    assert q[|q| - 1] == f[|f| - 1];
    forall i | |pre| <= i < |q|
      ensures q[i] != '/'
    {
      assert q[i] == f[i - |pre|];
      assert f[i - |pre|] in f;
    }
    if pre != [] {
      assert q[|pre| - 1] == '/';
      assert LastIndexOf(q, '/') == |pre| - 1;
    } else {
      assert LastIndexOf(q, '/') == -1;
    }
    assert q[|pre|..] == f;
  }

  /** `with_extension("md")` on `pre + f` replaces only the extension of `f`. */
  lemma WithMdPlain(pre: string, f: string)
    requires PlainName(f)
    requires pre == [] || pre[|pre| - 1] == '/'
    ensures WithMdExtension(pre + f) == pre + (Stem(f) + ".md")
  {
    LastComponent(pre, f);
    assert (pre + f)[..|pre + f| - |f|] == pre;
  }

  /**
   * For a plain file name, `create_note` works on the path of `dir` joined
   * with `NoteFileName(filename)`, which ends in `.md`, `.uml` or `.puml`.
   */
  lemma CreateNotePlacement(dir: string, filename: string, existing: set<string>, writeError: Option<string>)
    requires PlainName(filename)
    ensures var p := BackendRefs.PathJoin(dir, NoteFileName(filename));
      KeepsName(p)
      && CreateNote(dir, filename, existing, writeError)
         == if p in existing then Err("File already exists") else if writeError.Some? then Err(writeError.value) else Ok(p)
  {
    var pre := DirPrefix(dir);
    var n := NoteFileName(filename);
    ThreeEndings(pre, n);
    CreatedPath(dir, filename);
  }

  /** The path `create_note` writes for a plain name is `DirPrefix(dir) + NoteFileName(filename)`. */
  lemma CreatedPath(dir: string, filename: string)
    requires PlainName(filename)
    ensures (if KeepsName(filename) then JoinPath(dir, filename) else WithMdExtension(JoinPath(dir, filename)))
      == DirPrefix(dir) + NoteFileName(filename)
  {
    JoinPlain(dir, filename);
    if !KeepsName(filename) {
      WithMdPlain(DirPrefix(dir), filename);
    }
  }

  lemma JoinPlain(dir: string, f: string)
    requires PlainName(f)
    ensures JoinPath(dir, f) == DirPrefix(dir) + f
  {
    assert f[0] != '/' by { assert f[0] in f; }
  }

  /** A path keeps the note or diagram ending of its last part. */
  lemma ThreeEndings(base: string, n: string)
    requires KeepsName(n)
    ensures KeepsName(base + n)
  {
    var p := base + n;
    if EndsWith(n, ".md") {
      assert p[|p| - 3..] == n[|n| - 3..];
    } else if EndsWith(n, ".uml") {
      assert p[|p| - 4..] == n[|n| - 4..];
    } else {
      assert p[|p| - 5..] == n[|n| - 5..];
    }
  }

  // ---------------------------------------------------------------------
  // WalkDir and search_text
  // ---------------------------------------------------------------------

  /** One entry a `WalkDir` iteration yields: its path, its file name and whether it is a directory. */
  datatype Visit = Visit(path: string, name: string, isDir: bool)

  /** The `filter_entry` of a walk: none, the one that keeps asset folders, or the one that skips them. */
  datatype Prune = NoPrune | KeepAssets | SkipAssets

  /** Whether the walk skips a directory (and everything below it) below the root. */
  predicate Pruned(rule: Prune, name: string) {
    match rule
    case NoPrune => false
    case KeepAssets => name != ".xnote_assets" && StartsWith(name, ".")
    case SkipAssets => StartsWith(name, ".")
  }

  function WalkEntry(base: string, e: Entry, rule: Prune): seq<Visit>
    decreases e, 0
  {
    var path := JoinPath(base, e.name);
    match e
    case File(name, _) => [Visit(path, name, false)]
    case Dir(name, entries) => if Pruned(rule, name) then [] else [Visit(path, name, true)] + Walk(path, entries, rule)
  }

  /** The entries below `base`, depth first in directory order, a directory before its contents. */
  function Walk(base: string, es: seq<Entry>, rule: Prune): seq<Visit>
    decreases es, 1
  {
    if es == [] then [] else WalkEntry(base, es[0], rule) + Walk(base, es[1..], rule)
  }

  /** `WalkDir::new(root)`: the root itself, then everything below it. */
  function WalkRoot(root: string, es: seq<Entry>, rule: Prune): (r: seq<Visit>)
    ensures |r| >= 1 && r[0].isDir
  {
    [Visit(root, AfterLast(root, '/'), true)] + Walk(root, es, rule)
  }

  /** `max_hits`: the requested limit (50 by default), at most 200. */
  function MaxHits(limit: Option<nat>): (n: nat)
    ensures n <= 200
    ensures limit.None? ==> n == 50
    ensures limit.Some? && limit.value <= 200 ==> n == limit.value
  {
    var l := if limit.Some? then limit.value else 50;
    if l < 200 then l else 200
  }

  /** A `\r` that ends a line before its `\n` is not part of the line. */
  function DropCr(line: string): string {
    if line != [] && line[|line| - 1] == '\r' then line[..|line| - 1] else line
  }

  function LinesOf(pieces: seq<string>): seq<string>
    requires |pieces| >= 1
  {
    if |pieces| == 1 then (if pieces[0] == "" then [] else [pieces[0]])
    else [DropCr(pieces[0])] + LinesOf(pieces[1..])
  }

  /** `str::lines`: the text split at `\n`, each `\r\n` ending dropped, and no empty line after a final `\n`. */
  function Lines(s: string): seq<string> {
    LinesOf(Split(s, '\n'))
  }

  /** One result of `search_text`: the file, its name, a 1-based line number and the line itself. */
  datatype Hit = Hit(path: string, name: string, line: nat, preview: string)

  /** A text file: a file whose extension, lower-cased, is `md`, `txt`, `uml` or `puml`. */
  predicate TextFile(v: Visit) {
    !v.isDir && BackendRefs.IsTextExt(ToLower(Extension(v.name)))
  }

  /** A hit is a line of a searched, readable file, at its number, that contains the lower-cased query. */
  predicate Genuine(h: Hit, contents: map<string, string>, q: string) {
    h.path in contents
    && BackendRefs.IsTextExt(ToLower(Extension(h.name)))
    && 1 <= h.line <= |Lines(contents[h.path])|
    && Lines(contents[h.path])[h.line - 1] == h.preview
    && Contains(ToLower(h.preview), q)
  }

  /** The hits among the first `n` lines of the file `v`. */
  function LineHits(v: Visit, lines: seq<string>, q: string, n: nat): seq<Hit>
    requires n <= |lines|
  {
    if n == 0 then []
    else
      var hit := if Contains(ToLower(lines[n - 1]), q) then [Hit(v.path, v.name, n, lines[n - 1])] else [];
      LineHits(v, lines, q, n - 1) + hit
  }

  /** Every hit of one visited entry: none for a directory, a file of another kind or an unreadable file. */
  function FileHits(v: Visit, contents: map<string, string>, q: string): seq<Hit> {
    if TextFile(v) && v.path in contents then LineHits(v, Lines(contents[v.path]), q, |Lines(contents[v.path])|)
    else []
  }

  /** The hits of each visited entry, in walk order. */
  function HitsPerVisit(visits: seq<Visit>, contents: map<string, string>, q: string): (r: seq<seq<Hit>>)
    ensures |r| == |visits|
  {
    seq(|visits|, i requires 0 <= i < |visits| => FileHits(visits[i], contents, q))
  }

  /** The first `n` lists, one after the other. */
  function Flatten<T>(ss: seq<seq<T>>, n: nat): seq<T>
    requires n <= |ss|
  {
    if n == 0 then [] else Flatten(ss, n - 1) + ss[n - 1]
  }

  /** At most the first `n` elements. */
  function Take<T>(s: seq<T>, n: nat): (r: seq<T>)
    ensures |r| <= n && (|s| <= n ==> r == s) && (|s| > n ==> r == s[..n])
  {
    if |s| <= n then s else s[..n]
  }

  /**
   * `search_text`: nothing for a blank query; otherwise the first `max_hits`
   * lines, in walk order, that contain the trimmed query once both are
   * lower-cased.
   */
  function Search(root: string, tree: seq<Entry>, contents: map<string, string>, query: string, limit: Option<nat>): (r: seq<Hit>)
    ensures Trim(query, Rust) == [] ==> r == []
    ensures |r| <= MaxHits(limit)
  {
    var q := Trim(query, Rust);
    if q == [] then []
    else
      var visits := WalkRoot(root, tree, NoPrune);
      Take(Flatten(HitsPerVisit(visits, contents, ToLower(q)), |visits|), MaxHits(limit))
  }

  lemma {:induction false} FlattenPrefix<T>(ss: seq<seq<T>>, i: nat, k: nat)
    requires i <= k <= |ss|
    ensures Flatten(ss, i) <= Flatten(ss, k)
    decreases k - i
  {
    if i < k {
      FlattenPrefix(ss, i, k - 1);
    }
  }

  lemma {:induction false} FlattenMember<T>(ss: seq<seq<T>>, n: nat, x: T)
    requires n <= |ss| && x in Flatten(ss, n)
    ensures exists i :: 0 <= i < n && x in ss[i]
  {
    if x !in ss[n - 1] {
      FlattenMember(ss, n - 1, x);
    }
  }

  lemma {:induction false} FlattenHas<T>(ss: seq<seq<T>>, n: nat, i: nat, x: T)
    requires i < n <= |ss| && x in ss[i]
    ensures x in Flatten(ss, n)
  {
    if i < n - 1 {
      FlattenHas(ss, n - 1, i, x);
    }
  }

  /** A hit among the first `n` lines names the file, a line number up to `n`, and that line, which matches. */
  lemma {:induction false} LineHitsGenuine(v: Visit, lines: seq<string>, q: string, n: nat)
    requires n <= |lines|
    ensures forall h :: h in LineHits(v, lines, q, n) ==>
      h.path == v.path && h.name == v.name && 1 <= h.line <= n && lines[h.line - 1] == h.preview
      && Contains(ToLower(h.preview), q)
  {
    if n > 0 {
      LineHitsGenuine(v, lines, q, n - 1);
    }
  }

  lemma FileHitsGenuine(v: Visit, contents: map<string, string>, q: string)
    ensures forall h :: h in FileHits(v, contents, q) ==> Genuine(h, contents, q)
  {
    if TextFile(v) && v.path in contents {
      LineHitsGenuine(v, Lines(contents[v.path]), q, |Lines(contents[v.path])|);
    }
  }

  /** Every hit of `search_text` is a line of a searched file, at its number, that contains the query. */
  lemma SearchGenuine(root: string, tree: seq<Entry>, contents: map<string, string>, query: string, limit: Option<nat>)
    ensures forall h :: h in Search(root, tree, contents, query, limit) ==> Genuine(h, contents, ToLower(Trim(query, Rust)))
  {
    var q := Trim(query, Rust);
    if q != [] {
      var visits := WalkRoot(root, tree, NoPrune);
      var per := HitsPerVisit(visits, contents, ToLower(q));
      forall h | h in Search(root, tree, contents, query, limit)
        ensures Genuine(h, contents, ToLower(q))
      {
        assert h in Flatten(per, |visits|);
        FlattenMember(per, |visits|, h);
        var i :| 0 <= i < |visits| && h in per[i];
        FileHitsGenuine(visits[i], contents, ToLower(q));
      }
    }
  }

  /** Cutting a prefix at `n` first changes nothing about the cut of the whole. */
  lemma TakeAppend<T>(a: seq<T>, b: seq<T>, n: nat)
    ensures Take(Take(a, n) + b, n) == Take(a + b, n)
  {
    if |a| > n {
      assert (a + b)[..n] == a[..n];
      assert (a[..n] + b)[..n] == a[..n];
    }
  }

  /** Once the cut is full, more elements change nothing. */
  lemma TakeFull<T>(a: seq<T>, b: seq<T>, n: nat)
    requires |Take(a, n)| >= n
    ensures Take(a + b, n) == Take(a, n)
  {
    assert (a + b)[..n] == a[..n];
  }

  /** Appending at most one element to a cut that is not full. */
  lemma TakeGrow<T>(r: seq<T>, p: seq<T>, x: seq<T>, n: nat)
    requires r == Take(p, n) && |r| < n && |x| <= 1
    ensures r + x == Take(p + x, n)
  {
  }

  /** Once the cut of the first lists is full, the later lists change nothing. */
  lemma CutStays<T>(ss: seq<seq<T>>, i: nat, n: nat)
    requires i <= |ss| && |Take(Flatten(ss, i), n)| >= n
    ensures Take(Flatten(ss, |ss|), n) == Take(Flatten(ss, i), n)
  {
    FlattenPrefix(ss, i, |ss|);
    var whole := Flatten(ss, |ss|);
    var rest := whole[|Flatten(ss, i)|..];
    assert whole == Flatten(ss, i) + rest;
    TakeFull(Flatten(ss, i), rest, n);
  }

  /** The hits of fewer lines start the hits of more. */
  lemma {:induction false} LineHitsPrefix(v: Visit, lines: seq<string>, q: string, j: nat, k: nat)
    requires j <= k <= |lines|
    ensures LineHits(v, lines, q, j) <= LineHits(v, lines, q, k)
    decreases k - j
  {
    if j < k {
      LineHitsPrefix(v, lines, q, j, k - 1);
    }
  }

  /** Once the cut is full within a file, its later lines change nothing. */
  lemma LineCutStays(before: seq<Hit>, v: Visit, lines: seq<string>, q: string, j: nat, n: nat)
    requires j <= |lines| && |Take(before + LineHits(v, lines, q, j), n)| >= n
    ensures Take(before + LineHits(v, lines, q, |lines|), n) == Take(before + LineHits(v, lines, q, j), n)
  {
    LineHitsPrefix(v, lines, q, j, |lines|);
    var all := LineHits(v, lines, q, |lines|);
    var part := LineHits(v, lines, q, j);
    var rest := all[|part|..];
    assert all == part + rest;
    assert before + all == (before + part) + rest;
    TakeFull(before + part, rest, n);
  }

  /** `search_text` as it runs: a walk over every entry, and a scan of each searched file's lines, until `max_hits` hits. */
  method SearchText(root: string, tree: seq<Entry>, contents: map<string, string>, query: string, limit: Option<nat>)
    returns (results: seq<Hit>)
    ensures results == Search(root, tree, contents, query, limit)
  {
    var q := Trim(query, Rust);
    if q == [] {
      return [];
    }
    var visits := WalkRoot(root, tree, NoPrune);
    results := CollectHits(visits, contents, ToLower(q), MaxHits(limit));
    SearchUnfold(root, tree, contents, query, limit);
  }

  /** The loop of `search_text` over the walk: each file's hits in turn, stopping once `maxHits` are found. */
  method CollectHits(visits: seq<Visit>, contents: map<string, string>, qLower: string, maxHits: nat)
    returns (results: seq<Hit>)
    ensures results == Take(Flatten(HitsPerVisit(visits, contents, qLower), |visits|), maxHits)
  {
    ghost var per := HitsPerVisit(visits, contents, qLower);
    results := [];
    var i := 0;
    while i < |visits|
      invariant 0 <= i <= |visits|
      invariant results == Take(Flatten(per, i), maxHits)
    {
      if |results| >= maxHits {
        CutStays(per, i, maxHits);
        break;
      }
      assert Flatten(per, i + 1) == Flatten(per, i) + per[i];
      assert per[i] == FileHits(visits[i], contents, qLower);
      results := VisitEntry(visits[i], contents, qLower, maxHits, Flatten(per, i), results);
      i := i + 1;
    }
  }

  lemma SearchUnfold(root: string, tree: seq<Entry>, contents: map<string, string>, query: string, limit: Option<nat>)
    requires Trim(query, Rust) != []
    ensures Search(root, tree, contents, query, limit)
      == Take(Flatten(HitsPerVisit(WalkRoot(root, tree, NoPrune), contents, ToLower(Trim(query, Rust))),
                      |WalkRoot(root, tree, NoPrune)|), MaxHits(limit))
  {
  }

  /** One entry of the walk: directories, files of other kinds and unreadable files are skipped, others scanned. */
  method VisitEntry(v: Visit, contents: map<string, string>, q: string, maxHits: nat, ghost before: seq<Hit>, found: seq<Hit>)
    returns (results: seq<Hit>)
    requires found == Take(before, maxHits) && |found| < maxHits
    ensures results == Take(before + FileHits(v, contents, q), maxHits)
  {
    if v.isDir {
      assert before + FileHits(v, contents, q) == before;
      return found;
    }
    var ext := ToLower(Extension(v.name));
    if !BackendRefs.IsTextExt(ext) || v.path !in contents {
      assert before + FileHits(v, contents, q) == before;
      return found;
    }
    var lines := Lines(contents[v.path]);
    results := ScanLines(v, lines, q, maxHits, before, found);
  }

  /** The line loop of `search_text` over one file, which stops once `max_hits` hits are found. */
  method ScanLines(v: Visit, lines: seq<string>, q: string, maxHits: nat, ghost before: seq<Hit>, found: seq<Hit>)
    returns (results: seq<Hit>)
    requires found == Take(before, maxHits)
    ensures results == Take(before + LineHits(v, lines, q, |lines|), maxHits)
  {
    results := found;
    assert before + LineHits(v, lines, q, 0) == before;
    var j := 0;
    while j < |lines|
      invariant 0 <= j <= |lines|
      invariant results == Take(before + LineHits(v, lines, q, j), maxHits)
    {
      if |results| >= maxHits {
        LineCutStays(before, v, lines, q, j, maxHits);
        return;
      }
      var hit := if Contains(ToLower(lines[j]), q) then [Hit(v.path, v.name, j + 1, lines[j])] else [];
      ghost var sofar := before + LineHits(v, lines, q, j);
      TakeGrow(results, sofar, hit, maxHits);
      AppendAssoc(before, LineHits(v, lines, q, j), hit);
      results := results + hit;
      j := j + 1;
    }
  }

  lemma {:induction false} LineHitsHas(v: Visit, lines: seq<string>, q: string, n: nat, line: nat)
    requires 1 <= line <= n <= |lines|
    requires Contains(ToLower(lines[line - 1]), q)
    ensures Hit(v.path, v.name, line, lines[line - 1]) in LineHits(v, lines, q, n)
  {
    if line < n {
      LineHitsHas(v, lines, q, n - 1, line);
    }
  }

  /** When the search stops short of `max_hits`, it has found every matching line of every searched file. */
  lemma SearchComplete(root: string, tree: seq<Entry>, contents: map<string, string>, query: string, limit: Option<nat>, i: nat, line: nat)
    requires Trim(query, Rust) != []
    requires |Search(root, tree, contents, query, limit)| < MaxHits(limit)
    requires i < |WalkRoot(root, tree, NoPrune)|
    requires var v := WalkRoot(root, tree, NoPrune)[i];
      TextFile(v) && v.path in contents && 1 <= line <= |Lines(contents[v.path])|
      && Contains(ToLower(Lines(contents[v.path])[line - 1]), ToLower(Trim(query, Rust)))
    ensures var v := WalkRoot(root, tree, NoPrune)[i];
      Hit(v.path, v.name, line, Lines(contents[v.path])[line - 1]) in Search(root, tree, contents, query, limit)
  {
    var visits := WalkRoot(root, tree, NoPrune);
    var q := ToLower(Trim(query, Rust));
    var per := HitsPerVisit(visits, contents, q);
    var v := visits[i];
    var lines := Lines(contents[v.path]);
    LineHitsHas(v, lines, q, |lines|, line);
    assert per[i] == LineHits(v, lines, q, |lines|);
    FlattenHas(per, |visits|, i, Hit(v.path, v.name, line, lines[line - 1]));
  }
}
