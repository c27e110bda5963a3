/** The drag-selection service of the grid. Pointer-down on the backdrop
    anchors a drag rectangle; every pointer move re-spans it from the anchor
    to the pointer and re-highlights exactly the elements whose bounding box
    meets it; pointer-up turns highlights into selections.

    The browser's part is passed in: the bounding boxes of the elements,
    the page's scroll offset, and `layout`, which gives the bounding box of
    the overlay element drawn with a given style rectangle. */
module Highlight {
  import opened Geometry
  import opened Cells

  // ------------------------------------------------------ the two passes

  /** One element at pointer-up: a highlighted element becomes selected and
      loses its highlight; any other element is left alone. */
  function Committed(c: CellState): (r: CellState)
    ensures r.selected == (c.selected || c.highlighted)
    ensures !r.highlighted
  {
    if c.highlighted then CellState(true, false) else c
  }

  /** The pointer-up pass over every element. */
  function CommitAll(cs: seq<CellState>): seq<CellState> {
    seq(|cs|, k requires 0 <= k < |cs| => Committed(cs[k]))
  }

  /** A drag never clears a selection, selects exactly what was selected
      or highlighted, and leaves no highlight behind. */
  lemma CommitAllEffect(cs: seq<CellState>)
    ensures |CommitAll(cs)| == |cs|
    ensures forall k | 0 <= k < |cs| ::
      CommitAll(cs)[k].selected == (cs[k].selected || cs[k].highlighted) &&
      !CommitAll(cs)[k].highlighted
  {
  }

  /** Committing twice is committing once; this is why the pointer-up
      listeners that pile up, one per pointer-down, do no harm. */
  lemma CommitAllIdempotent(cs: seq<CellState>)
    ensures CommitAll(CommitAll(cs)) == CommitAll(cs)
  {
  }

  /** Which elements the drag rectangle's box `selectBox`, moved by the
      page's scroll offset, meets; `boxes` are the elements' bounding boxes. */
  function Hits(selectBox: Rect, scroll: Point, boxes: seq<Rect>): (hits: seq<bool>)
    ensures |hits| == |boxes|
  {
    var shifted := Translate(selectBox, scroll.x, scroll.y);
    seq(|boxes|, k requires 0 <= k < |boxes| => Intersects(shifted, boxes[k]))
  }

  /** The highlight pass: each element's highlight becomes its hit, and its
      selection stays. */
  function Highlighted(cs: seq<CellState>, hits: seq<bool>): (r: seq<CellState>)
    requires |hits| == |cs|
  {
    seq(|cs|, k requires 0 <= k < |cs| => CellState(cs[k].selected, hits[k]))
  }

  /** The highlight pass changes no selection and keeps the number of
      elements; afterwards the highlighted elements are exactly the hits. */
  lemma HighlightedEffect(cs: seq<CellState>, hits: seq<bool>)
    requires |hits| == |cs|
    ensures |Highlighted(cs, hits)| == |cs|
    ensures forall k | 0 <= k < |cs| ::
      Highlighted(cs, hits)[k].selected == cs[k].selected &&
      Highlighted(cs, hits)[k].highlighted == hits[k]
  {
  }

  /** Each highlight pass overwrites every highlight: only the last counts. */
  lemma HighlightedTwice(cs: seq<CellState>, h1: seq<bool>, h2: seq<bool>)
    requires |h1| == |cs| && |h2| == |cs|
    ensures Highlighted(Highlighted(cs, h1), h2) == Highlighted(cs, h2)
  {
  }

  /** With the page not scrolled, an element is hit exactly when its box and
      the drag rectangle's box share a point. */
  lemma HitsUnscrolled(selectBox: Rect, boxes: seq<Rect>, k: nat)
    requires k < |boxes|
    requires selectBox.width >= 0 && selectBox.height >= 0
    requires boxes[k].width >= 0 && boxes[k].height >= 0
    ensures Hits(selectBox, Point(0, 0), boxes)[k] <==>
      exists p :: Contains(selectBox, p) && Contains(boxes[k], p)
  {
    assert Translate(selectBox, 0, 0) == selectBox;
    IntersectsIffCommonPoint(selectBox, boxes[k]);
  }

  /** The highlight pass over the elements themselves. */
  method CheckSelected(selectBox: Rect, scroll: Point,
                       elements: seq<InteractiveArrayElement>, boxes: seq<Rect>)
    requires |boxes| == |elements| && Distinct(elements)
    modifies elements`highlighted
    ensures States(elements) == Highlighted(old(States(elements)), Hits(selectBox, scroll, boxes))
  {
    ghost var hits := Hits(selectBox, scroll, boxes);
    var shifted := Translate(selectBox, scroll.x, scroll.y);
    for k := 0 to |elements|
      invariant forall m | 0 <= m < k ::
        elements[m].State() == CellState(old(elements[m].selected), hits[m])
      invariant forall m | k <= m < |elements| :: elements[m].State() == old(elements[m].State())
    {
      if Intersects(shifted, boxes[k]) {
        elements[k].highlighted := true;
      } else {
        elements[k].highlighted := false;
      }
    }
  }

  /** The pointer-up pass over the elements themselves. */
  method CommitHighlights(elements: seq<InteractiveArrayElement>)
    requires Distinct(elements)
    modifies elements`selected, elements`highlighted
    ensures States(elements) == CommitAll(old(States(elements)))
  {
    for k := 0 to |elements|
      invariant forall m | 0 <= m < k :: elements[m].State() == Committed(old(elements[m].State()))
      invariant forall m | k <= m < |elements| :: elements[m].State() == old(elements[m].State())
    {
      if elements[k].highlighted {
        elements[k].selected := true;
        elements[k].highlighted := false;
      }
    }
  }

  // ------------------------------------------------------------ the gesture

  /** `r` has non-negative extents and `p` at one of its corners. */
  ghost predicate AnchoredAt(r: Rect, p: Point) {
    r.width >= 0 && r.height >= 0 &&
    (p.x == r.x || p.x == r.x + r.width) && (p.y == r.y || p.y == r.y + r.height)
  }

  class HighlightService {
    /** Anchors of the pointer-move listeners still attached, oldest first:
        one per pointer-down since the last pointer-up. */
    var anchors: seq<Point>
    /** The style rectangle of the overlay element each of those listeners
        draws and resizes. */
    var overlays: seq<Rect>
    /** Pointer-up listeners attached so far, one per pointer-down; none is
        ever removed. */
    var upListeners: nat

    /** Every overlay has its anchor at a corner; a listener is attached
        for each pointer-down since the last pointer-up. */
    ghost predicate Valid()
      reads this
    {
      |overlays| == |anchors| <= upListeners &&
      forall k | 0 <= k < |anchors| :: AnchoredAt(overlays[k], anchors[k])
    }

    /** A new service listens for pointer-down only. */
    constructor ()
      ensures Valid()
      ensures anchors == [] && overlays == [] && upListeners == 0
    {
      anchors := [];
      overlays := [];
      upListeners := 0;
    }

    /** Pointer-down at `p`: a zero-size overlay at `p`, a move listener
        anchored at `p`, and one more pointer-up listener. */
    method OnPointerDown(p: Point)
      requires Valid()
      modifies this
      ensures Valid()
      ensures anchors == old(anchors) + [p]
      ensures overlays == old(overlays) + [Rect(p.x, p.y, 0, 0)]
      ensures upListeners == old(upListeners) + 1
    {
      anchors := anchors + [p];
      overlays := overlays + [Rect(p.x, p.y, 0, 0)];
      upListeners := upListeners + 1;
    }

    /** Pointer move to `current`: every attached move listener, in the
        order attached, re-spans its overlay from its anchor to `current`
        and runs the highlight pass with that overlay's box; the last pass
        decides every highlight. With no listener attached (before the first
        pointer-down, or after a pointer-up) nothing changes. */
    method OnPointerMove(current: Point, scroll: Point, layout: Rect -> Rect,
                         elements: seq<InteractiveArrayElement>, boxes: seq<Rect>)
      requires Valid()
      requires |boxes| == |elements| && Distinct(elements)
      modifies this`overlays, elements`highlighted
      ensures Valid()
      ensures |overlays| == |anchors| &&
        forall k | 0 <= k < |anchors| :: overlays[k] == DragRect(anchors[k], current)
      ensures if anchors == [] then States(elements) == old(States(elements))
              else States(elements) == Highlighted(old(States(elements)),
                     Hits(layout(DragRect(anchors[|anchors| - 1], current)), scroll, boxes))
    {
      for k := 0 to |anchors|
        invariant |overlays| == |anchors|
        invariant forall m | 0 <= m < k :: overlays[m] == DragRect(anchors[m], current)
        invariant forall m | k <= m < |anchors| :: overlays[m] == old(overlays[m])
        invariant k == 0 ==> States(elements) == old(States(elements))
        invariant k > 0 ==> States(elements) == Highlighted(old(States(elements)),
                    Hits(layout(DragRect(anchors[k - 1], current)), scroll, boxes))
      {
        ghost var before := States(elements);
        overlays := overlays[k := DragRect(anchors[k], current)];
        CheckSelected(layout(overlays[k]), scroll, elements, boxes);
        if k > 0 {
          HighlightedTwice(old(States(elements)),
            Hits(layout(DragRect(anchors[k - 1], current)), scroll, boxes),
            Hits(layout(overlays[k]), scroll, boxes));
        }
      }
    }

    /** Pointer-up: every pointer-up listener attached so far runs, each
        detaching its move listener, removing its overlay and committing the
        highlights. Committing is idempotent, so the grid ends as after a
        single commit; with no listener attached, nothing happens. */
    method OnPointerUp(elements: seq<InteractiveArrayElement>)
      requires Valid()
      requires Distinct(elements)
      modifies this`anchors, this`overlays, elements`selected, elements`highlighted
      ensures Valid()
      ensures anchors == [] && overlays == []
      ensures States(elements) ==
        if upListeners == 0 then old(States(elements)) else CommitAll(old(States(elements)))
    {
      anchors := [];
      overlays := [];
      for n := 0 to upListeners
        invariant anchors == [] && overlays == []
        invariant States(elements) ==
          if n == 0 then old(States(elements)) else CommitAll(old(States(elements)))
      {
        CommitHighlights(elements);
        if n > 0 {
          CommitAllIdempotent(old(States(elements)));
        }
      }
    }
  }
}
