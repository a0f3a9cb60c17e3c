/**
 * The state of one `MermaidDiagram` component: the zoom of its viewport and
 * the render effect, whose runs are numbered by `renderSeqRef` and cancelled by
 * the effect's cleanup.
 */
module MermaidView {
  import opened Common
  import opened SvgCache

  const MinScale: real := 0.5
  const MaxScale: real := 3.0

  /** `clampScale(value)`: `Math.min(3, Math.max(0.5, value))`. */
  function ClampScale(v: real): (r: real)
    ensures MinScale <= r <= MaxScale
    ensures MinScale <= v <= MaxScale ==> r == v
    ensures v < MinScale ==> r == MinScale
    ensures v > MaxScale ==> r == MaxScale
  {
    if v < MinScale then MinScale else if v > MaxScale then MaxScale else v
  }

  /** Clamping twice is clamping once. */
  lemma ClampScaleIdempotent(v: real)
    ensures ClampScale(ClampScale(v)) == ClampScale(v)
  {
  }

  /** Clamping keeps the order of scales. */
  lemma ClampScaleMonotone(v: real, w: real)
    requires v <= w
    ensures ClampScale(v) <= ClampScale(w)
  {
  }

  /** What the component renders. */
  datatype View =
    | ErrorCard(message: string)
    | Placeholder
    | Diagram(svg: string, errorBanner: Option<string>, renderingBadge: bool)

  class DiagramState {
    var svg: string
    var lastError: Option<string>
    var showErrorDetails: bool
    var hasRendered: bool
    var isRendering: bool
    /** `renderSeqRef.current`: the number of the latest render run. */
    var renderSeq: nat
    /** The runs whose effect cleanup has set their `cancelled` flag. */
    var cancelled: set<nat>
    var scale: real
    var tx: real
    var ty: real

    /** Every run but the latest has been cleaned up, and the scale is clamped. */
    ghost predicate Valid()
      reads this
    {
      (forall run :: 0 < run < renderSeq ==> run in cancelled)
      && MinScale <= scale <= MaxScale
    }

    /** The initial state: the cached picture for the key, if any, and no run yet. */
    constructor(key: Option<string>, cache: Cache)
      ensures Valid()
      ensures svg == (if key.None? then "" else match cache.Get(key.value) case Some(s) => s case None => "")
      ensures lastError.None? && !showErrorDetails && !hasRendered && !isRendering && renderSeq == 0 && cancelled == {}
      ensures scale == 1.0 && tx == 0.0 && ty == 0.0
    {
      svg := if key.None? then "" else match cache.Get(key.value) case Some(s) => s case None => "";
      lastError := None;
      showErrorDetails := false;
      hasRendered := false;
      isRendering := false;
      renderSeq := 0;
      cancelled := {};
      scale := 1.0;
      tx := 0.0;
      ty := 0.0;
    }

    /** What the component renders in this state. */
    function Shown(): View
      reads this
    {
      if svg == "" && !hasRendered then
        match lastError
        case Some(e) => ErrorCard(e)
        case None => Placeholder
      else Diagram(svg, lastError, isRendering && svg != "")
    }

    /**
     * The effect on a new key: a non-empty cached picture is shown unless one
     * is already, and counts as rendered.
     */
    method AdoptCached(key: Option<string>, cache: Cache)
      modifies this
      requires Valid()
      ensures Valid()
      ensures key.None? || cache.Get(key.value).None? || cache.Get(key.value).value == ""
        ==> svg == old(svg) && hasRendered == old(hasRendered)
      ensures key.Some? && cache.Get(key.value).Some? && cache.Get(key.value).value != "" ==>
        svg == (if old(svg) != "" then old(svg) else cache.Get(key.value).value) && hasRendered
      ensures lastError == old(lastError) && showErrorDetails == old(showErrorDetails) && isRendering == old(isRendering)
      ensures renderSeq == old(renderSeq) && cancelled == old(cancelled)
      ensures scale == old(scale) && tx == old(tx) && ty == old(ty)
    {
      if key.None? {
        return;
      }
      var cached := cache.Get(key.value);
      if cached.None? || cached.value == "" {
        return;
      }
      if svg == "" {
        svg := cached.value;
      }
      hasRendered := true;
    }

    /**
     * The render effect runs again: the previous run's cleanup sets its
     * `cancelled` flag, the new run takes the next number, and rendering starts.
     */
    method StartRender() returns (run: nat)
      modifies this
      requires Valid()
      ensures Valid()
      ensures run == renderSeq == old(renderSeq) + 1
      ensures cancelled == old(cancelled) + (if old(renderSeq) > 0 then {old(renderSeq)} else {})
      ensures isRendering
      ensures svg == old(svg) && lastError == old(lastError) && hasRendered == old(hasRendered)
      ensures showErrorDetails == old(showErrorDetails) && scale == old(scale) && tx == old(tx) && ty == old(ty)
    {
      if renderSeq > 0 {
        cancelled := cancelled + {renderSeq};
      }
      renderSeq := renderSeq + 1;
      run := renderSeq;
      isRendering := true;
    }

    /** The component unmounts: the latest run's cleanup sets its flag. */
    method Unmount()
      modifies this
      requires Valid()
      ensures Valid()
      ensures cancelled == old(cancelled) + {renderSeq}
      ensures renderSeq == old(renderSeq) && isRendering == old(isRendering) && svg == old(svg)
      ensures lastError == old(lastError) && showErrorDetails == old(showErrorDetails) && hasRendered == old(hasRendered)
      ensures scale == old(scale) && tx == old(tx) && ty == old(ty)
    {
      cancelled := cancelled + {renderSeq};
    }

    /**
     * Run `run` finishes with `result` at time `now`: a cancelled run changes
     * nothing; otherwise a picture is shown, cached under the key and the view
     * reset, or the error is recorded, and the rendering flag is cleared when
     * the run is still the latest.
     */
    method Complete(run: nat, result: Result<string>, key: Option<string>, cache: Cache, now: int)
      modifies this, cache
      requires Valid() && cache.Valid() && 0 < run <= renderSeq
      ensures Valid() && cache.Valid()
      ensures run in old(cancelled) ==> unchanged(this) && unchanged(cache)
      ensures run !in old(cancelled) ==> !isRendering
      ensures run !in old(cancelled) && result.Ok? ==>
        svg == result.value && hasRendered && lastError.None? && !showErrorDetails
        && scale == 1.0 && tx == 0.0 && ty == 0.0
        && cache.items == (if key.Some? then Evict(MapSet(old(cache.items), key.value, CacheEntry(result.value, now)))
                           else old(cache.items))
      ensures run !in old(cancelled) && result.Err? ==>
        svg == old(svg) && hasRendered == old(hasRendered) && lastError == Some(result.error)
        && showErrorDetails == old(showErrorDetails) && scale == old(scale) && tx == old(tx) && ty == old(ty) && unchanged(cache)
      ensures renderSeq == old(renderSeq) && cancelled == old(cancelled)
    {
      if run in cancelled {
        return;
      }
      LiveRunIsLatest(this, run);
      match result {
        case Ok(picture) =>
          ShowPicture(picture, key, cache, now);
        case Err(message) =>
          lastError := Some(message);
      }
      if run == renderSeq {
        isRendering := false;
      }
    }

    /** A finished picture is shown, cached under the key, and the view reset. */
    method ShowPicture(picture: string, key: Option<string>, cache: Cache, now: int)
      modifies this, cache
      requires Valid() && cache.Valid()
      ensures Valid() && cache.Valid()
      ensures svg == picture && hasRendered && lastError.None? && !showErrorDetails
        && scale == 1.0 && tx == 0.0 && ty == 0.0
        && cache.items == (if key.Some? then Evict(MapSet(old(cache.items), key.value, CacheEntry(picture, now)))
                           else old(cache.items))
      ensures isRendering == old(isRendering) && renderSeq == old(renderSeq) && cancelled == old(cancelled)
    {
      svg := picture;
      hasRendered := true;
      lastError := None;
      showErrorDetails := false;
      if key.Some? {
        cache.Save(key.value, picture, now);
      }
      ResetView();
    }

    /** `resetView()`: scale 1 and no translation. */
    method ResetView()
      modifies this
      requires MinScale <= 1.0
      ensures scale == 1.0 && tx == 0.0 && ty == 0.0
      ensures svg == old(svg) && lastError == old(lastError) && showErrorDetails == old(showErrorDetails)
      ensures hasRendered == old(hasRendered) && isRendering == old(isRendering)
      ensures renderSeq == old(renderSeq) && cancelled == old(cancelled)
    {
      scale := 1.0;
      tx := 0.0;
      ty := 0.0;
    }

    /**
     * `zoomAt(raw, …)` about the point `(px, py)` of the viewport: the scale
     * becomes the clamped value; with the viewport mounted and the scale
     * changing, the translation moves so that the diagram point under the
     * anchor stays under it.
     */
    method ZoomAt(raw: real, mounted: bool, px: real, py: real)
      modifies this
      requires Valid()
      ensures Valid()
      ensures scale == ClampScale(raw)
      ensures !mounted || ClampScale(raw) == old(scale) ==> tx == old(tx) && ty == old(ty)
      ensures mounted && ClampScale(raw) != old(scale) ==>
        tx == Shifted(px, old(tx), old(scale), ClampScale(raw)) && ty == Shifted(py, old(ty), old(scale), ClampScale(raw))
      ensures mounted ==> (px - tx) / scale == (px - old(tx)) / old(scale)
      ensures mounted ==> (py - ty) / scale == (py - old(ty)) / old(scale)
      ensures svg == old(svg) && lastError == old(lastError) && hasRendered == old(hasRendered)
      ensures showErrorDetails == old(showErrorDetails)
      ensures isRendering == old(isRendering) && renderSeq == old(renderSeq) && cancelled == old(cancelled)
    {
      var next := ClampScale(raw);
      var prev := scale;
      if mounted && next != prev {
        var nx := Shifted(px, tx, prev, next);
        var ny := Shifted(py, ty, prev, next);
        AnchorKept(px, tx, nx, prev, next);
        AnchorKept(py, ty, ny, prev, next);
        tx, ty := nx, ny;
      }
      scale := next;
    }
  }

  /** A run that has not been cancelled is the latest one. */
  lemma LiveRunIsLatest(d: DiagramState, run: nat)
    requires d.Valid() && 0 < run <= d.renderSeq && run !in d.cancelled
    ensures run == d.renderSeq
  {
  }

  /** The translation `zoomAt` gives an axis with anchor `p` when the scale goes from `prev` to `next`. */
  function Shifted(p: real, t: real, prev: real, next: real): real
    requires prev > 0.0
  {
    p - ((p - t) * next) / prev
  }

  /** The translation formula of `zoomAt` keeps the anchored diagram coordinate. */
  lemma AnchorKept(p: real, t: real, nt: real, prev: real, next: real)
    requires prev > 0.0 && next > 0.0
    requires nt == Shifted(p, t, prev, next)
    ensures (p - nt) / next == (p - t) / prev
  {
    var d := p - t;
    var q := (d * next) / prev;
    assert p - nt == q;
    assert q * prev == d * next;
    var x := q / next;
    assert x * next == q;
    assert (x * prev) * next == d * next;
    assert x * prev == d;
  }

  /**
   * After a live run succeeds the diagram is shown without the rendering badge
   * and without an error banner.
   */
  lemma LiveSuccessShown(d: DiagramState)
    requires d.svg != "" && d.lastError.None? && !d.isRendering
    ensures d.Shown() == Diagram(d.svg, None, false)
  {
  }

  /** Before any picture, an error shows the error card and otherwise the placeholder shows. */
  lemma NothingRenderedShown(d: DiagramState)
    requires d.svg == "" && !d.hasRendered
    ensures d.lastError.Some? ==> d.Shown() == ErrorCard(d.lastError.value)
    ensures d.lastError.None? ==> d.Shown() == Placeholder
  {
  }
}
