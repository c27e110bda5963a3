/** A drag over the top row of a 2 x 2 grid and clicks on one of its
    cells, checked from the contracts of the highlight service and the
    elements alone. */
module DragScenario {
  import opened Geometry
  import opened Cells
  import opened Highlight

  /** Cells 8 pixels wide and high, 10 pixels apart, in row-major order. */
  function TwoByTwoBoxes(): seq<Rect> {
    [Rect(0, 0, 8, 8), Rect(10, 0, 8, 8), Rect(0, 10, 8, 8), Rect(10, 10, 8, 8)]
  }

  /** A drag rectangle from the top-left corner to a point right of the top
      row meets the two top cells and neither bottom cell. */
  lemma TopRowHits(r: Rect, scroll: Point, boxes: seq<Rect>)
    requires r == Rect(0, 0, 18, 4) && scroll == Point(0, 0) && boxes == TwoByTwoBoxes()
    ensures Hits(r, scroll, boxes) == [true, true, false, false]
  {
    var hits := Hits(r, scroll, boxes);
    assert hits[0] && hits[1] && !hits[2] && !hits[3];
  }

  /** The highlight pass over a clear grid with the top row hit. */
  lemma TopRowHighlighted(cs: seq<CellState>, hits: seq<bool>)
    requires cs == Clear4() && hits == [true, true, false, false]
    ensures Highlighted(cs, hits) ==
      [CellState(false, true), CellState(false, true), CellState(false, false), CellState(false, false)]
  {
    var h := Highlighted(cs, hits);
    assert h[0] == CellState(false, true) && h[1] == CellState(false, true);
    assert h[2] == CellState(false, false) && h[3] == CellState(false, false);
  }

  /** Pointer-up after that pass selects the top row. */
  lemma TopRowCommitted(cs: seq<CellState>)
    requires cs == [CellState(false, true), CellState(false, true), CellState(false, false), CellState(false, false)]
    ensures CommitAll(cs) ==
      [CellState(true, false), CellState(true, false), CellState(false, false), CellState(false, false)]
  {
    var c := CommitAll(cs);
    assert c[0] == CellState(true, false) && c[1] == CellState(true, false);
    assert c[2] == CellState(false, false) && c[3] == CellState(false, false);
  }

  /** Four elements neither selected nor highlighted. */
  function Clear4(): seq<CellState> {
    [CellState(false, false), CellState(false, false), CellState(false, false), CellState(false, false)]
  }

  /** Four elements whose flags are all down read as `Clear4()`. */
  lemma AllClear(elements: seq<InteractiveArrayElement>)
    requires |elements| == 4
    requires forall k | 0 <= k < 4 :: elements[k].State() == CellState(false, false)
    ensures States(elements) == Clear4()
  {
    var states := States(elements);
    assert states[0] == elements[0].State() && states[1] == elements[1].State();
    assert states[2] == elements[2].State() && states[3] == elements[3].State();
  }

  /** Pointer-down at `anchor` on a new service, then a move to `current`
      with the page unscrolled: the elements' highlights become the hits of
      the drag rectangle between the two points. */
  method DragFrom(anchor: Point, current: Point, elements: seq<InteractiveArrayElement>, boxes: seq<Rect>)
    returns (service: HighlightService)
    requires |boxes| == |elements| && Distinct(elements)
    modifies elements`selected, elements`highlighted
    ensures fresh(service) && service.Valid() && service.upListeners == 1
    ensures States(elements) ==
      Highlighted(old(States(elements)), Hits(DragRect(anchor, current), Point(0, 0), boxes))
  {
    service := new HighlightService();
    service.OnPointerDown(anchor);
    service.OnPointerMove(current, Point(0, 0), r => r, elements, boxes);
  }

  /** On a clear 2 x 2 grid, pointer-down at the top-left corner and a move
      to the right of the top row highlight the top row and nothing else. */
  method HighlightTopRow(elements: seq<InteractiveArrayElement>) returns (service: HighlightService)
    requires |elements| == 4 && Distinct(elements)
    requires States(elements) == Clear4()
    modifies elements`selected, elements`highlighted
    ensures fresh(service) && service.Valid() && service.upListeners == 1
    ensures States(elements) ==
      [CellState(false, true), CellState(false, true), CellState(false, false), CellState(false, false)]
  {
    var boxes, anchor, current := TwoByTwoBoxes(), Point(0, 0), Point(18, 4);
    assert DragRect(anchor, current) == Rect(0, 0, 18, 4);
    TopRowHits(DragRect(anchor, current), Point(0, 0), boxes);
    TopRowHighlighted(States(elements), [true, true, false, false]);
    service := DragFrom(anchor, current, elements, boxes);
  }

  /** Then pointer-up selects the top row, and a later move, with no drag
      under way, changes nothing. */
  method DragOverTopRow(elements: seq<InteractiveArrayElement>)
    requires |elements| == 4 && Distinct(elements)
    requires States(elements) == Clear4()
    modifies elements`selected, elements`highlighted
    ensures States(elements) ==
      [CellState(true, false), CellState(true, false), CellState(false, false), CellState(false, false)]
  {
    var service := HighlightTopRow(elements);
    TopRowCommitted(States(elements));
    service.OnPointerUp(elements);
    service.OnPointerMove(Point(18, 18), Point(0, 0), r => r, elements, TwoByTwoBoxes());
  }

  /** Two clicks on a cell leave the grid as it was; a third selects that
      cell and no other. */
  method ClickThrice(elements: seq<InteractiveArrayElement>)
    requires |elements| == 4 && Distinct(elements)
    requires States(elements) ==
      [CellState(true, false), CellState(true, false), CellState(false, false), CellState(false, false)]
    modifies elements`selected, elements`highlighted
    ensures States(elements) ==
      [CellState(true, false), CellState(true, false), CellState(false, false), CellState(true, false)]
  {
    assert elements[3].State() == States(elements)[3];
    ClickCell(elements, 3);
    assert elements[3].State() == States(elements)[3];
    ClickCell(elements, 3);
    assert elements[3].State() == States(elements)[3];
    ClickCell(elements, 3);
  }

}

/** The whole session: the grid of shape `(2,2)` is typed in, rendered and
    mounted, then dragged over and clicked. */
module GridScenario {
  import opened ShapeDescriptor
  import opened Cells
  import opened App
  import opened DragScenario

  /** Typing `(2,2)` into the default app gives dimensions 2 by 2. */
  method TypeTwoByTwo() returns (app: AppElement)
    ensures fresh(app) && app.dimensions == [2, 2]
  {
    var two := '2';
    var shape := ['(', two, ',', two, ')'];
    app := new AppElement();
    ParseTwoDigitShape(two, two);
    ContainsShapeIff(shape);
    app.OnShapeKeyup(shape);
  }

  /** Rendering that app lists the cells (0,0), (0,1), (1,0), (1,1), in
      that order. */
  method RenderTwoByTwo() returns (cells: seq<CellIndex>)
    ensures cells == [(0, 0), (0, 1), (1, 0), (1, 1)]
  {
    var app := TypeTwoByTwo();
    var rowTemplates := app.Render();
    FlattenRowMajor(rowTemplates, 2, 2);
    cells := Flatten(rowTemplates);
    assert cells[0] == (0, 0) && cells[1] == (0, 1);
    assert cells[2] == (1, 0) && cells[3] == (1, 1);
  }

  /** Mounting those cells gives four fresh, clear elements indexed (0,0),
      (0,1), (1,0), (1,1) in that order. */
  method MountTwoByTwo() returns (elements: seq<InteractiveArrayElement>)
    ensures |elements| == 4 && Distinct(elements)
    ensures forall k | 0 <= k < 4 :: fresh(elements[k])
    ensures States(elements) == Clear4()
    ensures elements[0].indecies == [0, 0] && elements[1].indecies == [0, 1]
    ensures elements[2].indecies == [1, 0] && elements[3].indecies == [1, 1]
  {
    var cells := RenderTwoByTwo();
    elements := MountCells(cells);
    AllClear(elements);
  }

  /** The three steps in a row. */
  method Session() returns (elements: seq<InteractiveArrayElement>)
    ensures |elements| == 4
    ensures elements[0].indecies == [0, 0] && elements[1].indecies == [0, 1]
    ensures elements[2].indecies == [1, 0] && elements[3].indecies == [1, 1]
    ensures States(elements) ==
      [CellState(true, false), CellState(true, false), CellState(false, false), CellState(true, false)]
  {
    elements := MountTwoByTwo();
    DragOverTopRow(elements);
    ClickThrice(elements);
  }
}
