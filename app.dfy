/**
 * The application shell: the status bar that reports a scan for unused
 * images and their deletion, the sidebar resize bounds, and the start-up
 * fallback to the mock workspace. The host's events arrive as method calls;
 * the host commands they send (start a scan, cancel it, delete files) have
 * no effect on this state except where their outcome is a parameter.
 */
module App {
  import opened Common
  import opened Strings

  /** What the bar shows: a message and a `current` of `total` count. */
  datatype Progress = Progress(message: string, current: int, total: int)

  /** The payload of a `clean-unused-images-progress` event. */
  datatype ProgressEvent = ProgressEvent(message: string, current: int, total: int, phase: string)

  /** The phases after which the scan or deletion is no longer running. */
  predicate IsFinalPhase(phase: string) {
    phase == "done" || phase == "cancelled" || phase == "error"
  }

  const NoneFoundLog := "Clean: no unused images found"
  const CancellingLog := "Clean: cancelling…"

  /** The log line after a deletion: `Clean: deleted d / t`. */
  function DeletedLog(deleted: nat, total: nat): (line: string)
    ensures StartsWith(line, "Clean: deleted ") && EndsWith(line, " / " + NatToString(total))
  {
    var head := "Clean: deleted " + NatToString(deleted);
    var line := head + (" / " + NatToString(total));
    assert line[..|"Clean: deleted "|] == "Clean: deleted ";
    assert line[|line| - |" / " + NatToString(total)|..] == " / " + NatToString(total);
    line
  }

  /** The log line names both counts, so distinct outcomes give distinct lines. */
  lemma DeletedLogDistinct(d1: nat, t1: nat, d2: nat, t2: nat)
    requires DeletedLog(d1, t1) == DeletedLog(d2, t2)
    ensures d1 == d2 && t1 == t2
  {
    var w1 := NatToString(d1) + (" / " + NatToString(t1));
    var w2 := NatToString(d2) + (" / " + NatToString(t2));
    DeletedLogShape(d1, t1);
    DeletedLogShape(d2, t2);
    SamePrefixRest("Clean: deleted ", w1, w2);
    NatDigitsOnly(d1);
    NatDigitsOnly(d2);
    SplitAtFirstSpace(NatToString(d1), NatToString(d2), " / " + NatToString(t1), " / " + NatToString(t2));
    SamePrefixRest(" / ", NatToString(t1), NatToString(t2));
    NatToStringInjective(d1, d2);
    NatToStringInjective(t1, t2);
  }

  lemma DeletedLogShape(d: nat, t: nat)
    ensures DeletedLog(d, t) == "Clean: deleted " + (NatToString(d) + (" / " + NatToString(t)))
  {
  }

  lemma SamePrefixRest(prefix: string, x: string, y: string)
    requires prefix + x == prefix + y
    ensures x == y
  {
    assert x == (prefix + x)[|prefix|..];
    assert y == (prefix + y)[|prefix|..];
  }

  lemma NatToStringInjective(a: nat, b: nat)
    requires NatToString(a) == NatToString(b)
    ensures a == b
  {
    DigitsValueOfNatToString(a);
    DigitsValueOfNatToString(b);
  }

  /** No space among the decimal digits of a number. */
  lemma {:induction false} NatDigitsOnly(n: nat)
    ensures ' ' !in NatToString(n)
  {
    if n >= 10 {
      NatDigitsOnly(n / 10);
    }
  }

  /** Two words without spaces, each followed by text that starts with a space, are equal when the joined texts are. */
  lemma SplitAtFirstSpace(a: string, b: string, x: string, y: string)
    requires ' ' !in a && ' ' !in b && |x| > 0 && |y| > 0 && x[0] == ' ' && y[0] == ' '
    requires a + x == b + y
    ensures a == b && x == y
  {
    assert a == (a + x)[..|a|] && b == (b + y)[..|b|];
  }

  /**
   * How full the bar is drawn when `total > 0`: the share of work done as a
   * percentage, clamped to [0, 100].
   */
  function FillPercent(current: int, total: int): (r: real)
    requires total > 0
    ensures 0.0 <= r <= 100.0
    ensures 0 <= current <= total ==> r * (total as real) == (current as real) * 100.0
    ensures current >= total ==> r == 100.0
    ensures current <= 0 ==> r == 0.0
  {
    var share := (current as real / total as real) * 100.0;
    if share > 100.0 then 100.0 else if share < 0.0 then 0.0 else share
  }

  /** The sidebar width after the mouse moves to `clientX`: taken only while resizing and strictly between 160 and 600. */
  function ResizedWidth(isResizing: bool, width: int, clientX: int): (r: int)
    ensures r == width || r == clientX
    ensures r != width ==> isResizing && 160 < r < 600
    ensures isResizing && 160 < clientX < 600 ==> r == clientX
  {
    if isResizing && clientX > 160 && clientX < 600 then clientX else width
  }

  /** A width inside the bounds stays inside them whatever the mouse does. */
  lemma {:induction false} WidthStaysInBounds(width: int, moves: seq<(bool, int)>)
    requires 160 < width < 600
    ensures 160 < Resized(width, moves) < 600
    decreases |moves|
  {
    if moves != [] {
      WidthStaysInBounds(ResizedWidth(moves[0].0, width, moves[0].1), moves[1..]);
    }
  }

  /** The width after a run of mouse moves, each with whether a resize was under way. */
  function Resized(width: int, moves: seq<(bool, int)>): int
    decreases |moves|
  {
    if moves == [] then width else Resized(ResizedWidth(moves[0].0, width, moves[0].1), moves[1..])
  }

  /** What start-up leaves behind. */
  datatype InitOutcome = InitOutcome(permissionError: bool, initError: Option<string>, loads: seq<string>)

  const MockWorkspace := "/mock"

  /**
   * `initWorkspace`: outside the host the mock workspace is loaded; inside
   * it, `startup` is the outcome of loading the configuration and asking the
   * host for the default workspace, which is loaded when it is not empty. A
   * failure records its message, raises the permission flag when the message
   * mentions `PERMISSION_DENIED`, and falls back to the mock workspace.
   * Loading a folder reports its own failures and never throws.
   */
  function InitWorkspace(inHost: bool, startup: Result<string>): (r: InitOutcome)
    ensures !inHost ==> r == InitOutcome(false, None, [MockWorkspace])
    ensures r.initError.Some? ==> r.loads == [MockWorkspace]
    ensures inHost && startup == Ok("") ==> r.loads == []
  {
    if !inHost then InitOutcome(false, None, [MockWorkspace])
    else match startup
      case Ok(defaultPath) => InitOutcome(false, None, if defaultPath != "" then [defaultPath] else [])
      case Err(message) => InitOutcome(Contains(message, "PERMISSION_DENIED"), Some(message), [MockWorkspace])
  }

  /** The permission flag is raised exactly for a failure that mentions `PERMISSION_DENIED`, and every failure ends in the mock workspace. */
  lemma InitFallback(inHost: bool, startup: Result<string>)
    ensures var r := InitWorkspace(inHost, startup);
      (r.permissionError <==> inHost && startup.Err? && Contains(startup.error, "PERMISSION_DENIED"))
      && (r.initError.Some? <==> inHost && startup.Err?)
      && (r.initError.Some? ==> r.initError.value == startup.error && r.loads == [MockWorkspace])
      && (r.loads == [] <==> inHost && startup == Ok(""))
      && |r.loads| <= 1
  {
  }

  /** The bar at the foot of the window and the state behind the unused-images dialog. */
  class CleanBar {
    var progress: Progress
    var log: string
    var barVisible: bool
    var running: bool
    var unusedImages: seq<string>
    var showModal: bool

    /** A running job always has its bar on view, so it can be cancelled. */
    predicate Valid()
      reads this
    {
      running ==> barVisible
    }

    /** The text on the bar: the log line when there is one, else the progress message. */
    function Status(): (r: string)
      reads this
      ensures log != "" ==> r == log
      ensures log == "" ==> r == progress.message
    {
      if log != "" then log else progress.message
    }

    /** Nothing on view and nothing running. */
    constructor ()
      ensures progress == Progress("", 0, 0) && log == "" && !barVisible && !running
      ensures unusedImages == [] && !showModal
      ensures Valid()
    {
      progress := Progress("", 0, 0);
      log := "";
      barVisible := false;
      running := false;
      unusedImages := [];
      showModal := false;
    }

    /** The menu command that starts a scan: clears the last results and shows a running bar at `Starting…`. */
    method StartScan()
      modifies this
      ensures Valid()
      ensures unusedImages == [] && !showModal && log == "" && barVisible && running
      ensures progress == Progress("Starting…", 0, 0)
      ensures Status() == "Starting…"
    {
      unusedImages := [];
      showModal := false;
      log := "";
      barVisible := true;
      running := true;
      progress := Progress("Starting…", 0, 0);
    }

    /** A progress event replaces the progress and shows the bar; the job runs on unless the phase is final. */
    method OnProgress(payload: Option<ProgressEvent>)
      modifies this
      requires Valid()
      ensures Valid()
      ensures log == old(log) && unusedImages == old(unusedImages) && showModal == old(showModal)
      ensures payload.None? ==> progress == old(progress) && running == old(running) && barVisible == old(barVisible)
      ensures payload.Some? ==>
        progress == Progress(payload.value.message, payload.value.current, payload.value.total)
        && barVisible && (running <==> !IsFinalPhase(payload.value.phase))
    {
      if payload.None? {
        return;
      }
      var p := payload.value;
      progress := Progress(p.message, p.current, p.total);
      running := !IsFinalPhase(p.phase);
      barVisible := true;
    }

    /** The scan's result: found images open the dialog, none found is logged. */
    method OnResult(images: seq<string>)
      modifies this
      requires Valid()
      ensures Valid()
      ensures unusedImages == images
      ensures running == old(running) && barVisible == old(barVisible) && progress == old(progress)
      ensures |images| > 0 ==> showModal && log == old(log)
      ensures images == [] ==> showModal == old(showModal) && log == NoneFoundLog
    {
      unusedImages := images;
      if |images| > 0 {
        showModal := true;
      } else {
        log := NoneFoundLog;
      }
    }

    /** A log event replaces the log line unless the message is empty. */
    method OnLog(message: string)
      modifies this
      requires Valid()
      ensures Valid()
      ensures log == (if message != "" then message else old(log))
      ensures running == old(running) && barVisible == old(barVisible) && progress == old(progress)
      ensures unusedImages == old(unusedImages) && showModal == old(showModal)
    {
      if message != "" {
        log := message;
      }
    }

    /**
     * The dialog's delete button: the bar runs again at `Deleting…` over the
     * images found; once the host has accepted the deletion the list is
     * cleared, and if it refuses the list stays.
     */
    method ConfirmDelete(host: Result<()>)
      modifies this
      ensures Valid()
      ensures barVisible && running && progress == Progress("Deleting…", 0, |old(unusedImages)|)
      ensures log == old(log) && showModal == old(showModal)
      ensures unusedImages == (if host.Ok? then [] else old(unusedImages))
    {
      barVisible := true;
      running := true;
      progress := Progress("Deleting…", 0, |unusedImages|);
      if host.Ok? {
        unusedImages := [];
      }
    }

    /** The deletion's result is logged and the job stops. */
    method OnDeleteResult(deleted: nat, total: nat)
      modifies this
      ensures Valid()
      ensures log == DeletedLog(deleted, total) && !running && barVisible
      ensures progress == old(progress) && unusedImages == old(unusedImages) && showModal == old(showModal)
    {
      log := DeletedLog(deleted, total);
      running := false;
      barVisible := true;
    }

    /** The bar's button: cancels a running job, otherwise dismisses the bar and clears it. */
    method BarButton()
      modifies this
      requires Valid()
      ensures Valid()
      ensures unusedImages == old(unusedImages) && showModal == old(showModal) && running == old(running)
      ensures old(running) ==> log == CancellingLog && barVisible && progress == old(progress)
      ensures !old(running) ==> !barVisible && log == "" && progress == Progress("", 0, 0) && Status() == ""
    {
      if running {
        log := CancellingLog;
      } else {
        barVisible := false;
        log := "";
        progress := Progress("", 0, 0);
      }
    }
  }
}
