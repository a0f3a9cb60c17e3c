/**
 * The clean-up of unused images (`src-tauri/src/lib.rs`): the job controller
 * that lets the front end cancel a running scan, the scan that lists images no
 * note refers to, and the deletion of the images the user confirms.
 *
 * Cancellation arrives from another thread. A run is given `stopAt`: the
 * number of `is_cancelled(job_id)` checks that answer false before one answers
 * true (none when the job is never cancelled while it runs).
 */
module BackendClean {
  import opened Common
  import opened Strings
  import PathUtil
  import BackendRefs
  import opened BackendFs

  // ---------------------------------------------------------------------
  // CleanTaskController
  // ---------------------------------------------------------------------

  /** What happened to the controller: a job started, or the front end asked to cancel. */
  datatype Event = Start | CancelRequest

  datatype Control = Control(jobId: nat, cancel: bool)

  /** The controller after the events of `h`, from job 0 and no request. */
  function Replay(h: seq<Event>): Control {
    if h == [] then Control(0, false) else Apply(Replay(h[..|h| - 1]), h[|h| - 1])
  }

  /** One event: a start takes the next job number and clears the flag; a request sets it once a job exists. */
  function Apply(c: Control, e: Event): Control {
    match e
    case Start => Control(c.jobId + 1, false)
    case CancelRequest => if c.jobId == 0 then c else Control(c.jobId, true)
  }

  lemma ReplaySnoc(h: seq<Event>, e: Event)
    ensures Replay(h + [e]) == Apply(Replay(h), e)
  {
    assert (h + [e])[..|h|] == h;
  }

  function Starts(h: seq<Event>): nat {
    if h == [] then 0 else Starts(h[..|h| - 1]) + (if h[|h| - 1] == Start then 1 else 0)
  }

  /** `CleanTaskController` behind `CLEAN_TASK`: the latest job number and its cancel flag. */
  class CleanTaskController {
    var jobId: nat
    var cancel: bool
    /** The events so far. */
    ghost var history: seq<Event>

    ghost predicate Valid()
      reads this
    {
      Control(jobId, cancel) == Replay(history)
    }

    /** The controller `clean_task()` creates on first use. */
    constructor()
      ensures Valid() && history == [] && jobId == 0 && !cancel
    {
      jobId := 0;
      cancel := false;
      history := [];
    }

    /** `start_new_job`: the next job number, with the cancel flag cleared. */
    method StartNewJob() returns (id: nat)
      modifies this
      requires Valid()
      ensures Valid() && history == old(history) + [Start]
      ensures id == jobId == old(jobId) + 1 && !cancel
    {
      jobId := jobId + 1;
      cancel := false;
      history := history + [Start];
      assert history[..|history| - 1] == old(history);
      id := jobId;
    }

    /** `request_cancel`: refused while no job has started, otherwise the flag is set. */
    method RequestCancel() returns (accepted: bool)
      modifies this
      requires Valid()
      ensures Valid() && history == old(history) + [CancelRequest]
      ensures accepted <==> old(jobId) != 0
      ensures jobId == old(jobId)
      ensures cancel == (old(cancel) || accepted)
    {
      history := history + [CancelRequest];
      assert history[..|history| - 1] == old(history);
      if jobId == 0 {
        return false;
      }
      cancel := true;
      return true;
    }

    /** `is_cancelled(job_id)`. */
    predicate IsCancelled(id: nat)
      reads this
    {
      id == jobId && cancel
    }
  }

  /** The job number is the number of jobs started. */
  lemma {:induction false} ReplayCountsStarts(h: seq<Event>)
    ensures Replay(h).jobId == Starts(h)
  {
    if h != [] {
      ReplayCountsStarts(h[..|h| - 1]);
    }
  }

  /**
   * The job started by the `Start` after `pre` is reported cancelled after
   * `rest` exactly when a cancel request came after it and no later job
   * started: a superseded job is never reported cancelled.
   */
  lemma {:induction false} JobCancelledIff(pre: seq<Event>, rest: seq<Event>)
    ensures var c := Replay(pre + [Start] + rest);
      (c.jobId == Starts(pre) + 1 && c.cancel) <==> (Start !in rest && CancelRequest in rest)
    ensures Start in rest ==> Replay(pre + [Start] + rest).jobId > Starts(pre) + 1
    ensures Start !in rest ==> Replay(pre + [Start] + rest).jobId == Starts(pre) + 1
  {
    if rest == [] {
      assert pre + [Start] + rest == pre + [Start];
      ReplaySnoc(pre, Start);
      ReplayCountsStarts(pre);
    } else {
      var rest', e := rest[..|rest| - 1], rest[|rest| - 1];
      JobCancelledIff(pre, rest');
      assert rest == rest' + [e];
      assert pre + [Start] + rest == (pre + [Start] + rest') + [e];
      ReplaySnoc(pre + [Start] + rest', e);
      assert Start in rest <==> Start in rest' || e == Start;
      assert CancelRequest in rest <==> CancelRequest in rest' || e == CancelRequest;
    }
  }

  // ---------------------------------------------------------------------
  // compute_unused_images
  // ---------------------------------------------------------------------

  /** A file whose extension, lower-cased, is one of the image extensions. */
  predicate ImageFile(v: Visit) {
    !v.isDir && BackendRefs.IsImageExt(ToLower(Extension(v.name)))
  }

  /** The image files of a walk, in walk order (`canonicalize` is the identity here). */
  function ImagePaths(vs: seq<Visit>): seq<string> {
    if vs == [] then []
    else
      var last := vs[|vs| - 1];
      ImagePaths(vs[..|vs| - 1]) + (if ImageFile(last) then [last.path] else [])
  }

  /** The text files of a walk, in walk order. */
  function TextPaths(vs: seq<Visit>): seq<string> {
    if vs == [] then []
    else
      var last := vs[|vs| - 1];
      TextPaths(vs[..|vs| - 1]) + (if TextFile(last) then [last.path] else [])
  }

  /** The image paths are the paths of the walk's image files. */
  lemma {:induction false} ImagePathsIff(vs: seq<Visit>, x: string)
    ensures x in ImagePaths(vs) <==> exists v :: v in vs && ImageFile(v) && v.path == x
  {
    if vs != [] {
      var init, last := vs[..|vs| - 1], vs[|vs| - 1];
      assert vs == init + [last];
      ImagePathsIff(init, x);
      assert ImagePaths(vs) == ImagePaths(init) + (if ImageFile(last) then [last.path] else []);
      if x in ImagePaths(vs) && x !in ImagePaths(init) {
        assert last in vs && ImageFile(last) && last.path == x;
      }
      if exists v :: v in vs && ImageFile(v) && v.path == x {
        var v :| v in vs && ImageFile(v) && v.path == x;
        if v != last {
          assert v in init;
        }
      }
    }
  }

  /** The text paths are the paths of the walk's text files. */
  lemma {:induction false} TextPathsIff(vs: seq<Visit>, x: string)
    ensures x in TextPaths(vs) <==> exists v :: v in vs && TextFile(v) && v.path == x
  {
    if vs != [] {
      var init, last := vs[..|vs| - 1], vs[|vs| - 1];
      assert vs == init + [last];
      TextPathsIff(init, x);
      assert TextPaths(vs) == TextPaths(init) + (if TextFile(last) then [last.path] else []);
      if x in TextPaths(vs) && x !in TextPaths(init) {
        assert last in vs && TextFile(last) && last.path == x;
      }
      if exists v :: v in vs && TextFile(v) && v.path == x {
        var v :| v in vs && TextFile(v) && v.path == x;
        if v != last {
          assert v in init;
        }
      }
    }
  }

  predicate NoDup(s: seq<string>) {
    forall i, j :: 0 <= i < j < |s| ==> s[i] != s[j]
  }

  /** The first occurrence of each string, in order: what the `image_set.insert` guard keeps. */
  function Dedup(s: seq<string>): seq<string> {
    if s == [] then []
    else
      var d := Dedup(s[..|s| - 1]);
      if s[|s| - 1] in d then d else d + [s[|s| - 1]]
  }

  /** Each string is kept once, and nothing else is kept. */
  lemma {:induction false} DedupSpec(s: seq<string>)
    ensures NoDup(Dedup(s))
    ensures forall x :: x in Dedup(s) <==> x in s
  {
    if s != [] {
      DedupSpec(s[..|s| - 1]);
      assert s == s[..|s| - 1] + [s[|s| - 1]];
    }
  }

  /** `Path::parent`: the path without its last component; none for an empty path or the root. */
  function Parent(p: string): Option<string> {
    var q := PathUtil.NormalizePath(p);
    if q == "" then None
    else
      var k := LastIndexOf(q, '/');
      if k < 0 then Some("")
      else if k == 0 then Some("/")
      else
        var up := PathUtil.NormalizePath(q[..k]);
        Some(if up == "" then "/" else up)
  }

  /** The path one candidate of the note `file` refers to, if it passes the `://` and image filters and resolves. */
  function RefOf(root: string, file: string, raw: string): (r: set<string>)
    ensures |r| <= 1
  {
    var p := BackendRefs.NormalizeRefPath(root, Parent(file), raw);
    if BackendRefs.CountsAsReference(raw) && p.Some? then {p.value} else {}
  }

  /** The paths the candidates `raws` of the note `file` refer to. */
  function RefsOf(root: string, file: string, raws: seq<string>): set<string> {
    Gather((raw: string) => RefOf(root, file, raw), raws)
  }

  /** The union of what `ref` gives for each of `raws`. */
  function Gather(ref: string -> set<string>, raws: seq<string>): set<string> {
    if raws == [] then {} else Gather(ref, raws[..|raws| - 1]) + ref(raws[|raws| - 1])
  }

  lemma {:induction false} GatherIff(ref: string -> set<string>, raws: seq<string>, x: string)
    ensures x in Gather(ref, raws) <==> exists raw :: raw in raws && x in ref(raw)
  {
    if raws != [] {
      GatherIff(ref, raws[..|raws| - 1], x);
      assert raws == raws[..|raws| - 1] + [raws[|raws| - 1]];
    }
  }

  lemma GatherSnoc(ref: string -> set<string>, raws: seq<string>, k: nat)
    requires k < |raws|
    ensures Gather(ref, raws[..k + 1]) == Gather(ref, raws[..k]) + ref(raws[k])
  {
    assert raws[..k + 1][..k] == raws[..k];
  }

  /** The references of one text file: none when it cannot be read. */
  function FileRefs(root: string, file: string, contents: map<string, string>): set<string> {
    if file in contents then RefsOf(root, file, BackendRefs.CandidatePaths(contents[file])) else {}
  }

  /** Every path the text files refer to. */
  function Referenced(root: string, files: seq<string>, contents: map<string, string>): set<string> {
    if files == [] then {}
    else Referenced(root, files[..|files| - 1], contents) + FileRefs(root, files[|files| - 1], contents)
  }

  /** The images no reference names, in their order: `images.into_iter().filter(…).collect()`. */
  function Unused(images: seq<string>, referenced: set<string>): (r: seq<string>)
    ensures |r| <= |images|
  {
    if images == [] then []
    else
      var last := images[|images| - 1];
      Unused(images[..|images| - 1], referenced) + (if last in referenced then [] else [last])
  }

  /** One of the `n` checks after the first `from` reports cancellation. */
  predicate StopsWithin(stopAt: Option<nat>, from: nat, n: nat) {
    stopAt.Some? && from <= stopAt.value < from + n
  }

  /** A check that does not report cancellation extends the run of checks that did not. */
  lemma NoStopYet(stopAt: Option<nat>, from: nat, n: nat)
    requires !StopsWithin(stopAt, from, n) && stopAt != Some(from + n)
    ensures !StopsWithin(stopAt, from, n + 1)
  {
  }

  /**
   * `compute_unused_images`: an error for a missing workspace; an empty list
   * when a check reports cancellation (one check per entry of the image walk,
   * per entry of the text walk and per text file); otherwise the images, each
   * once, that no reference names.
   */
  function UnusedImages(root: string, tree: Option<seq<Entry>>, contents: map<string, string>, stopAt: Option<nat>)
    : (r: Result<seq<string>>)
    ensures r.Err? <==> tree.None?
    ensures r.Err? ==> r.error == "Workspace path does not exist"
  {
    if tree.None? then Err("Workspace path does not exist")
    else
      var imageWalk := WalkRoot(root, tree.value, KeepAssets);
      var textWalk := WalkRoot(root, tree.value, SkipAssets);
      var files := TextPaths(textWalk);
      if StopsWithin(stopAt, 0, |imageWalk| + |textWalk| + |files|) then Ok([])
      else Ok(Unused(Dedup(ImagePaths(imageWalk)), Referenced(root, files, contents)))
  }

  /** An unused image is a walked image that no reference names, and each is listed once. */
  lemma {:induction false} UnusedMembers(images: seq<string>, referenced: set<string>)
    ensures forall x :: x in Unused(images, referenced) <==> x in images && x !in referenced
    ensures NoDup(images) ==> NoDup(Unused(images, referenced))
  {
    if images != [] {
      var init := images[..|images| - 1];
      UnusedMembers(init, referenced);
      assert images == init + [images[|images| - 1]];
      if NoDup(images) {
        assert NoDup(init);
      }
    }
  }

  /** Filtering keeps the order: the unused images of two runs of images follow each other. */
  lemma {:induction false} UnusedAppend(a: seq<string>, b: seq<string>, referenced: set<string>)
    ensures Unused(a + b, referenced) == Unused(a, referenced) + Unused(b, referenced)
    decreases |b|
  {
    if b == [] {
      assert a + b == a;
    } else {
      var b' := b[..|b| - 1];
      UnusedAppend(a, b', referenced);
      assert (a + b)[..|a + b| - 1] == a + b';
      AppendAssoc(Unused(a, referenced), Unused(b', referenced), if b[|b| - 1] in referenced then [] else [b[|b| - 1]]);
    }
  }

  /** A candidate refers to a path exactly when it passes the filters and resolves to it. */
  lemma RefOfIff(root: string, file: string, raw: string, x: string)
    ensures x in RefOf(root, file, raw) <==>
      BackendRefs.CountsAsReference(raw) && BackendRefs.NormalizeRefPath(root, Parent(file), raw) == Some(x)
  {
  }

  /** The references of a note are those of its candidates. */
  lemma RefsOfIff(root: string, file: string, raws: seq<string>, x: string)
    ensures x in RefsOf(root, file, raws) <==> exists raw :: raw in raws && x in RefOf(root, file, raw)
  {
    GatherIff((raw: string) => RefOf(root, file, raw), raws, x);
  }

  /** A path is referenced exactly when some readable text file refers to it. */
  lemma {:induction false} ReferencedIff(root: string, files: seq<string>, contents: map<string, string>, x: string)
    ensures x in Referenced(root, files, contents) <==>
      exists f :: f in files && f in contents && x in RefsOf(root, f, BackendRefs.CandidatePaths(contents[f]))
  {
    if files != [] {
      ReferencedIff(root, files[..|files| - 1], contents, x);
      assert files == files[..|files| - 1] + [files[|files| - 1]];
    }
  }

  /** A candidate whose lower-cased text contains `://` never counts as a reference. */
  lemma ExternalNeverCounts(raw: string)
    requires Contains(ToLower(raw), "://")
    ensures !BackendRefs.CountsAsReference(raw)
  {
  }

  /**
   * Without cancellation, the result lists each image file of the walk once,
   * and exactly those that no reference names.
   */
  lemma UnusedImagesMembers(root: string, tree: seq<Entry>, contents: map<string, string>, stopAt: Option<nat>, x: string)
    requires UnusedImages(root, Some(tree), contents, stopAt) != Ok([])
    ensures var r := UnusedImages(root, Some(tree), contents, stopAt);
      r.Ok? && NoDup(r.value)
      && (x in r.value <==>
          (exists v :: v in WalkRoot(root, tree, KeepAssets) && ImageFile(v) && v.path == x)
          && x !in Referenced(root, TextPaths(WalkRoot(root, tree, SkipAssets)), contents))
  {
    var images := Dedup(ImagePaths(WalkRoot(root, tree, KeepAssets)));
    DedupSpec(ImagePaths(WalkRoot(root, tree, KeepAssets)));
    UnusedMembers(images, Referenced(root, TextPaths(WalkRoot(root, tree, SkipAssets)), contents));
    ImagePathsIff(WalkRoot(root, tree, KeepAssets), x);
  }

  /** The image walk: every entry is one check, and each new image file is kept. */
  method CollectImages(walk: seq<Visit>, stopAt: Option<nat>, polls: nat) returns (stopped: bool, images: seq<string>)
    ensures stopped <==> StopsWithin(stopAt, polls, |walk|)
    ensures !stopped ==> images == Dedup(ImagePaths(walk))
  {
    images := [];
    var imageSet: set<string> := {};
    for i := 0 to |walk|
      invariant !StopsWithin(stopAt, polls, i)
      invariant images == Dedup(ImagePaths(walk[..i]))
      invariant forall x :: x in imageSet <==> x in images
    {
      if stopAt == Some(polls + i) {
        return true, images;
      }
      NoStopYet(stopAt, polls, i);
      ImageStep(walk, i, images, imageSet);
      images, imageSet := KeepImage(walk[i], images, imageSet);
    }
    assert walk[..|walk|] == walk;
    return false, images;
  }

  /** One entry of the image walk: a file with an image extension is added unless the set has it already. */
  method KeepImage(v: Visit, images: seq<string>, imageSet: set<string>) returns (images': seq<string>, imageSet': set<string>)
    requires forall x :: x in imageSet <==> x in images
    ensures images' == if ImageFile(v) && v.path !in imageSet then images + [v.path] else images
    ensures forall x :: x in imageSet' <==> x in images'
  {
    images', imageSet' := images, imageSet;
    if v.isDir {
      return;
    }
    var ext := ToLower(Extension(v.name));
    if !BackendRefs.IsImageExt(ext) {
      return;
    }
    if v.path !in imageSet {
      imageSet' := imageSet + {v.path};
      images' := images + [v.path];
    }
  }

  /** One entry of the image walk: an image file's path is kept unless it was seen already. */
  lemma ImageStep(walk: seq<Visit>, i: nat, images: seq<string>, imageSet: set<string>)
    requires i < |walk| && images == Dedup(ImagePaths(walk[..i]))
    requires forall x :: x in imageSet <==> x in images
    ensures Dedup(ImagePaths(walk[..i + 1]))
      == if ImageFile(walk[i]) && walk[i].path !in imageSet then images + [walk[i].path] else images
  {
    var s := walk[..i + 1];
    assert s[..|s| - 1] == walk[..i] && s[|s| - 1] == walk[i];
    if ImageFile(walk[i]) {
      var t := ImagePaths(walk[..i]) + [walk[i].path];
      assert t[..|t| - 1] == ImagePaths(walk[..i]);
    } else {
      assert ImagePaths(walk[..i]) + [] == ImagePaths(walk[..i]);
    }
  }

  /** The text walk: every entry is one check, and each text file is kept. */
  method CollectTextFiles(walk: seq<Visit>, stopAt: Option<nat>, polls: nat) returns (stopped: bool, files: seq<string>)
    ensures stopped <==> StopsWithin(stopAt, polls, |walk|)
    ensures !stopped ==> files == TextPaths(walk)
  {
    files := [];
    for i := 0 to |walk|
      invariant !StopsWithin(stopAt, polls, i)
      invariant files == TextPaths(walk[..i])
    {
      if stopAt == Some(polls + i) {
        return true, files;
      }
      NoStopYet(stopAt, polls, i);
      var v := walk[i];
      assert walk[..i + 1][..i] == walk[..i] && walk[..i + 1][i] == v;
      if v.isDir {
        continue;
      }
      var ext := ToLower(Extension(v.name));
      if !BackendRefs.IsTextExt(ext) {
        continue;
      }
      files := files + [v.path];
    }
    assert walk[..|walk|] == walk;
    return false, files;
  }

  /** The candidates of one note that pass the filters, added to `referenced`. */
  method AddReferences(root: string, file: string, raws: seq<string>, referenced: set<string>) returns (out: set<string>)
    ensures out == referenced + RefsOf(root, file, raws)
  {
    out := referenced;
    for k := 0 to |raws|
      invariant out == referenced + RefsOf(root, file, raws[..k])
    {
      GatherSnoc((raw: string) => RefOf(root, file, raw), raws, k);
      out := AddReference(root, file, raws[k], out);
    }
    assert raws[..|raws|] == raws;
  }

  /** One candidate: skipped when it names a URL scheme or fails the filters, else its resolved path is added. */
  method AddReference(root: string, file: string, raw: string, referenced: set<string>) returns (out: set<string>)
    ensures out == referenced + RefOf(root, file, raw)
  {
    out := referenced;
    var lower := ToLower(raw);
    if Contains(lower, "://") {
      ExternalNeverCounts(raw);
      return;
    }
    if !BackendRefs.CountsAsReference(raw) {
      return;
    }
    var p := BackendRefs.NormalizeRefPath(root, Parent(file), raw);
    if p.Some? {
      out := out + {p.value};
    }
  }

  /** The reference scan: every text file is one check; unreadable files are skipped. */
  method ScanReferences(root: string, files: seq<string>, contents: map<string, string>, stopAt: Option<nat>, polls: nat)
    returns (stopped: bool, referenced: set<string>)
    ensures stopped <==> StopsWithin(stopAt, polls, |files|)
    ensures !stopped ==> referenced == Referenced(root, files, contents)
  {
    referenced := {};
    for i := 0 to |files|
      invariant !StopsWithin(stopAt, polls, i)
      invariant referenced == Referenced(root, files[..i], contents)
    {
      if stopAt == Some(polls + i) {
        return true, referenced;
      }
      NoStopYet(stopAt, polls, i);
      var file := files[i];
      assert files[..i + 1][..i] == files[..i] && files[..i + 1][i] == file;
      if file !in contents {
        continue;
      }
      var raws := BackendRefs.ExtractCandidatePaths(contents[file]);
      referenced := AddReferences(root, file, raws, referenced);
    }
    assert files[..|files|] == files;
    return false, referenced;
  }

  /** `compute_unused_images`, phase by phase. */
  method ComputeUnusedImages(root: string, tree: Option<seq<Entry>>, contents: map<string, string>, stopAt: Option<nat>)
    returns (r: Result<seq<string>>)
    ensures r == UnusedImages(root, tree, contents, stopAt)
  {
    if tree.None? {
      return Err("Workspace path does not exist");
    }
    var imageWalk := WalkRoot(root, tree.value, KeepAssets);
    var stopped, images := CollectImages(imageWalk, stopAt, 0);
    if stopped {
      return Ok([]);
    }
    var textWalk := WalkRoot(root, tree.value, SkipAssets);
    var stoppedText, files := CollectTextFiles(textWalk, stopAt, |imageWalk|);
    if stoppedText {
      return Ok([]);
    }
    var stoppedRefs, referenced := ScanReferences(root, files, contents, stopAt, |imageWalk| + |textWalk|);
    if stoppedRefs {
      return Ok([]);
    }
    return Ok(Unused(images, referenced));
  }

  /** `find_unused_images`: a new job, then the scan under its number. */
  method FindUnusedImages(ctl: CleanTaskController, root: string, tree: Option<seq<Entry>>, contents: map<string, string>, stopAt: Option<nat>)
    returns (r: Result<seq<string>>)
    modifies ctl
    requires ctl.Valid()
    ensures ctl.Valid() && ctl.history == old(ctl.history) + [Start]
    ensures r == UnusedImages(root, tree, contents, stopAt)
  {
    var job := ctl.StartNewJob();
    r := ComputeUnusedImages(root, tree, contents, stopAt);
  }

  // ---------------------------------------------------------------------
  // delete_files
  // ---------------------------------------------------------------------

  /** The components `Path::starts_with` compares: `/` for an absolute path, then the non-empty segments. */
  function Components(p: string): seq<string> {
    (if StartsWith(p, "/") then ["/"] else []) + PathUtil.Segments(p)
  }

  /** `candidate.starts_with(&root)`: the root's components begin the candidate's. */
  predicate UnderRoot(root: string, p: string) {
    PathUtil.SegPrefix(Components(root), Components(p))
  }

  /** What the first `n` paths do to the files: how many were deleted, and the files left. */
  function Deletion(root: string, paths: seq<string>, files: set<string>, failing: set<string>, n: nat): (r: (nat, set<string>))
    requires n <= |paths|
  {
    if n == 0 then (0, files)
    else
      var prev := Deletion(root, paths, files, failing, n - 1);
      var p := paths[n - 1];
      if UnderRoot(root, p) && p in prev.1 && p !in failing then (prev.0 + 1, prev.1 - {p}) else prev
  }

  /** `f` may be deleted by a run that has seen the paths `seen`: it is under the root, among them, and its removal succeeds. */
  predicate Deletable(root: string, failing: set<string>, seen: seq<string>, f: string) {
    UnderRoot(root, f) && f in seen && f !in failing
  }

  /**
   * The deletion counts only removed files, removes only files under the
   * root, never more than one per path, and leaves every other file alone.
   */
  lemma {:induction false} DeletionSafe(root: string, paths: seq<string>, files: set<string>, failing: set<string>, n: nat)
    requires n <= |paths|
    ensures DeletionSound(root, failing, files, paths[..n], Deletion(root, paths, files, failing, n))
  {
    if n > 0 {
      DeletionSafe(root, paths, files, failing, n - 1);
      DeletionUnfold(root, paths, files, failing, n);
      DeletionStep(root, failing, files, paths[..n - 1], paths[n - 1],
        Deletion(root, paths, files, failing, n - 1), Deletion(root, paths, files, failing, n));
      TakeOneMore(paths, n - 1);
    }
  }

  lemma DeletionUnfold(root: string, paths: seq<string>, files: set<string>, failing: set<string>, n: nat)
    requires 0 < n <= |paths|
    ensures Deletion(root, paths, files, failing, n)
      == if UnderRoot(root, paths[n - 1]) && paths[n - 1] in Deletion(root, paths, files, failing, n - 1).1
            && paths[n - 1] !in failing
         then (Deletion(root, paths, files, failing, n - 1).0 + 1, Deletion(root, paths, files, failing, n - 1).1 - {paths[n - 1]})
         else Deletion(root, paths, files, failing, n - 1)
  {
  }

  /** A deletion result after the paths `seen`: a count of the removed files, each of them deletable. */
  predicate DeletionSound(root: string, failing: set<string>, files: set<string>, seen: seq<string>, r: (nat, set<string>)) {
    r.0 <= |seen| && r.1 <= files && r.0 == |files - r.1|
    && forall f :: f in files && f !in r.1 ==> Deletable(root, failing, seen, f)
  }

  lemma DeletionStep(root: string, failing: set<string>, files: set<string>, seen: seq<string>, p: string,
                     prev: (nat, set<string>), next: (nat, set<string>))
    requires DeletionSound(root, failing, files, seen, prev)
    requires next == if UnderRoot(root, p) && p in prev.1 && p !in failing then (prev.0 + 1, prev.1 - {p}) else prev
    ensures DeletionSound(root, failing, files, seen + [p], next)
  {
    if next.1 != prev.1 {
      assert files - (prev.1 - {p}) == (files - prev.1) + {p};
    }
  }

  /**
   * `delete_files`: a new job; each path is one check; a path outside the
   * root or not a file is skipped; a file is counted when its removal succeeds
   * (`failing` lists those whose removal fails). A cancelled run returns the
   * count so far.
   */
  method DeleteFiles(ctl: CleanTaskController, root: string, paths: seq<string>, files: set<string>, failing: set<string>, stopAt: Option<nat>)
    returns (deleted: nat, left: set<string>)
    modifies ctl
    requires ctl.Valid()
    ensures ctl.Valid() && ctl.history == old(ctl.history) + [Start]
    ensures var n := if stopAt.Some? && stopAt.value < |paths| then stopAt.value else |paths|;
      (deleted, left) == Deletion(root, paths, files, failing, n)
  {
    var job := ctl.StartNewJob();
    deleted, left := 0, files;
    for idx := 0 to |paths|
      invariant !StopsWithin(stopAt, 0, idx)
      invariant (deleted, left) == Deletion(root, paths, files, failing, idx)
      modifies {}
    {
      if stopAt == Some(idx) {
        return;
      }
      NoStopYet(stopAt, 0, idx);
      var candidate := paths[idx];
      if !UnderRoot(root, candidate) {
        continue;
      }
      if candidate in left {
        if candidate !in failing {
          left := left - {candidate};
          deleted := deleted + 1;
        }
      }
    }
  }
}
