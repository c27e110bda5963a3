# Selectable grid: a verified model

This project models the widget's core: a grid of cells that can be selected by clicking one cell or by dragging a rectangle across several. It covers three parts:

- **The app element** (`App`, `ShapeDescriptor`). The user types a shape descriptor such as `(3,4)`. An unanchored regular expression validates it. A second regular expression, with look-behind and look-ahead, extracts its numbers. Only a valid descriptor replaces the grid's dimensions. Rendering walks the rows and then the columns to produce one index pair per cell. The validation pattern and the extraction pattern are scanners over the characters. Each scanner is proved equal to a declarative reading of its pattern.
- **The highlight service** (`Geometry`, `Highlight`):
  - Pointer-down on the backdrop anchors a drag overlay.
  - Each pointer move re-spans the overlay from the anchor to the pointer. It then sets every element's `highlighted` flag to whether the element's bounding box meets the overlay's box, shifted by the page's scroll offset.
  - Pointer-up turns highlights into selections.
  - The service is a class. It records the move listeners that are attached (their anchors and overlays) and how many pointer-up listeners have accumulated.
- **The interactive array element** (`Cells`). This is a class with the fields `indecies`, `selected` and `highlighted`. A click flips `selected`.

Elements are objects that the operations update in place. A list of elements (what a query over the rendered grid returns) is a `seq` of distinct objects. `States` reads their flags as values. Browser facts are parameters: bounding boxes, the scroll offset, and the box the browser lays out for an overlay. Two scenario modules run whole sessions on a 2 × 2 grid: type `(2,2)`, render, drag over the top row, release, click one cell three times. Their outcomes are proved from the operations' contracts alone.

## Model

| member | source | states |
|---|---|---|
| ShapeDescriptor.SpanEnd | src/app-element.ts:83 | a greedy `[\d]+` or `\s*?` run from `i` ends at the first character outside the class: every character before the end is in the class, the one at the end is not |
| ShapeDescriptor.ScanGroups | src/app-element.ts:83 | the backtracking match of `(?:,\s*?[\d]+)+[)]` from a comma, read group by group; `ScanGroupsSound` and `ScanGroupsComplete` state what it decides |
| ShapeDescriptor.ScanShape | src/app-element.ts:83 | the match of the whole validation pattern at one position; `ScanShapeIff` states what it decides |
| ShapeDescriptor.ContainsShapeFrom | src/app-element.ts:83-85 | the unanchored search, trying the pattern at each position from `i` on; `ContainsShapeFromIff` states what it decides |
| ShapeDescriptor.ContainsShape | src/app-element.ts:83-86 | `this.shape.match(pattern)` is non-null; `ContainsShapeIff` states what it decides |
| ShapeDescriptor.ScanGroupsSound | src/app-element.ts:83 | a successful scan of `(?:,\s*?[\d]+)+[)]` from `i` has read groups up to a `)` |
| ShapeDescriptor.ScanGroupsComplete | src/app-element.ts:83 | groups that end just before a `)` are always found by the scan, whatever white space follows the commas |
| ShapeDescriptor.ScanShapeIff | src/app-element.ts:83 | the scan at position `i` succeeds exactly when a word of the validation pattern starts at `i` |
| ShapeDescriptor.ContainsShapeFromSound | src/app-element.ts:83-85 | a successful search from `i` has found a word of the pattern starting at `i` or later |
| ShapeDescriptor.ContainsShapeFromComplete | src/app-element.ts:83-85 | a word of the pattern at `i'` is found by a search starting anywhere up to `i'` |
| ShapeDescriptor.ContainsShapeFromIff | src/app-element.ts:83-85 | the search from `i` succeeds exactly when a word of the pattern starts at `i` or later |
| ShapeDescriptor.ContainsShapeIff | src/app-element.ts:83-86 | `String.match` with the validation pattern succeeds exactly when some substring is a word of `[(][\d]+(?:,\s*?[\d]+)+[)]` |
| ShapeDescriptor.EmbeddedShapeAccepted | src/app-element.ts:83-85 | the search is unanchored: text before and after an accepted descriptor leaves it accepted |
| ShapeDescriptor.ShapeAtEmbedded | src/app-element.ts:83 | a word of the pattern stays one at the shifted position when text is added on either side |
| ShapeDescriptor.GroupsEmbedded | src/app-element.ts:83 | the groups part of a word stays groups at the shifted position when text is added on either side |
| ShapeDescriptor.AllInEmbedded | src/app-element.ts:83 | a run of digits or white space stays one at the shifted position when text is added on either side |
| ShapeDescriptor.NoParenthesisRejected | src/app-element.ts:83 | text without `(`, such as `3,4`, is refused |
| ShapeDescriptor.NoCommaRejected | src/app-element.ts:83 | text without a comma, such as `(3)`, is refused |
| ShapeDescriptor.ShapeAtLayout | src/app-element.ts:83 | inside a word of the pattern, a digit follows `(` and a digit precedes every comma, so white space after `(` or before a comma is refused |
| ShapeDescriptor.GroupsLayout | src/app-element.ts:83 | inside the groups part, a digit precedes every comma after the first |
| ShapeDescriptor.DefaultShapeAccepted | src/app-element.ts:83 | `(3,4)` is accepted |
| ShapeDescriptor.SpacedShapeAccepted | src/app-element.ts:83 | `(3, 4, 5)` is accepted: white space after commas and more than two numbers |
| ShapeDescriptor.IncompleteShapesRejected | src/app-element.ts:83 | `(3)` and `3,4` are refused |
| ShapeDescriptor.LeadingSpaceRejected | src/app-element.ts:83 | `( 3,4)` is refused |
| ShapeDescriptor.SpaceBeforeCommaRejected | src/app-element.ts:83 | `(3 ,4)` is refused |
| ShapeDescriptor.NumberTokensFrom | src/app-element.ts:94 | every match the global search returns from `i` on is a maximal digit run, preceded by `(`, `,` or white space and followed by `(`, `,`, white space or `)`; the matches are in left-to-right order and do not overlap |
| ShapeDescriptor.NumberTokensFromComplete | src/app-element.ts:94 | every such run at or after `i` is among the matches of the search from `i` |
| ShapeDescriptor.NumberTokensExact | src/app-element.ts:94 | the matches of the extraction pattern are exactly the bounded digit runs, in left-to-right order |
| ShapeDescriptor.EdgeRunsNotParsed | src/app-element.ts:94 | a digit run at the very start or very end of the text is never matched |
| ShapeDescriptor.DecimalValue | src/app-element.ts:96-98 | `parseInt` of a run of decimal digits, as an exact natural number; `ParseDefaultShape` and `ParseSpacedShape` pin examples |
| ShapeDescriptor.ParseShape | src/app-element.ts:93-100 | `parseShape` returns one natural number per match of the extraction pattern, and none when nothing matches |
| ShapeDescriptor.ShapeAtNumbers | src/app-element.ts:82-100 | the first two numbers of a word of the validation pattern are matches of the extraction pattern, in order |
| ShapeDescriptor.ValidShapeParsesTwoNumbers | src/app-element.ts:82-100 | every descriptor the validation accepts yields at least two numbers |
| ShapeDescriptor.ParseDefaultShape | src/app-element.ts:94-99 | `(3,4)` yields [3, 4] |
| ShapeDescriptor.ParseSpacedShape | src/app-element.ts:94-99 | `(10, 2)` yields [10, 2]: multi-digit runs, white space after the comma |
| ShapeDescriptor.ParseWithoutDigits | src/app-element.ts:95-99 | text without digits yields no numbers |
| App.Flatten | src/app-element.ts:48 | the rows' cells in document order, the order the grid is drawn and queried in; the Flatten lemmas below state it |
| App.FlattenRowMajor | src/app-element.ts:41-50 | the rendered rows list `rows * cols` cells, and cell `(i, j)` is at position `i * cols + j` |
| App.FlattenLength | src/app-element.ts:41-50 | the rendered rows list `rows * cols` cells |
| App.FlattenCell | src/app-element.ts:41-50 | cell `(i, j)` is listed at position `i * cols + j` |
| App.FlattenMembers | src/app-element.ts:41-50 | the rendered cells are exactly the pairs with `i < rows` and `j < cols` |
| App.AppElement.constructor | src/app-element.ts:30-33 | the default shape `(3,4)` is valid and gives dimensions [3, 4] |
| App.ParseTwoDigitShape | src/app-element.ts:93-100 | a descriptor `(a,b)` of two single digits is accepted and parses to those two digits |
| App.AppElement.ValidateShape | src/app-element.ts:82-91 | `shapeIsInvalid` is set exactly when the validation pattern occurs nowhere in `shape` |
| App.AppElement.OnShapeKeyup | src/app-element.ts:73-80 | the new text is always stored; an invalid descriptor leaves `dimensions` unchanged; a valid one replaces them with its parsed numbers, at least two |
| App.AppElement.Render | src/app-element.ts:39-50 | when `dimensions[0]` and `dimensions[1]` exist and are non-zero, there are `dimensions[0]` rows of `dimensions[1]` cells, with `(i, j)` in row `i` and column `j`; otherwise there are no rows |
| App.MountCells | src/app-element.ts:45-46 | each rendered cell becomes a new, distinct element that carries its index pair and is neither selected nor highlighted |
| Cells.InteractiveArrayElement.constructor | src/interactive-array-element.ts:17-22 | a new element has empty `indecies` and is neither selected nor highlighted |
| Cells.InteractiveArrayElement.OnClick | src/interactive-array-element.ts:35-37 | a click negates `selected` and changes neither `highlighted` nor `indecies` |
| Cells.Toggled | src/interactive-array-element.ts:35-37 | after a click, the selection is flipped and the highlight is kept |
| Cells.ToggledTwice | src/interactive-array-element.ts:35-37 | two clicks restore the original flags |
| Cells.ClickCell | src/interactive-array-element.ts:35-37 | clicking one element of a grid flips its selection and no other element's flags; only `selected` fields may change, so every `highlighted` and `indecies` is kept |
| Geometry.Intersects | src/drag-highlight-event-service.ts:57-62 | `checkRectIntersection`, the separating-axis test with strict comparisons; the lemmas below state what it decides |
| Geometry.IntersectsIffIntervalsOverlap | src/drag-highlight-event-service.ts:57-62 | the test holds exactly when the closed x-intervals overlap and the closed y-intervals overlap |
| Geometry.IntersectsIffCommonPoint | src/drag-highlight-event-service.ts:57-62 | for rectangles of non-negative size, the test holds exactly when the closed rectangles share a point |
| Geometry.IntersectsSymmetric | src/drag-highlight-event-service.ts:58-61 | the test does not depend on the order of its arguments |
| Geometry.TouchingRectsIntersect | src/drag-highlight-event-service.ts:58-61 | rectangles sharing only an edge or a corner intersect, and a gap of one pixel separates them |
| Geometry.PointRectIntersects | src/drag-highlight-event-service.ts:58-61 | a zero-size rectangle meets a rectangle exactly when its point lies inside it or on its boundary |
| Geometry.IntersectsTranslated | src/drag-highlight-event-service.ts:58-61 | moving both rectangles by the same offset keeps the answer |
| Geometry.DragRect | src/drag-highlight-event-service.ts:35-41 | the overlay's left and top are the minimum of anchor and pointer, its right and bottom edges the maximum, and its extents are non-negative |
| Geometry.DragRectCorners | src/drag-highlight-event-service.ts:35-41 | the anchor and the pointer are opposite corners of the overlay, whatever the drag direction |
| Geometry.DragRectSymmetric | src/drag-highlight-event-service.ts:35-41 | swapping anchor and pointer gives the same overlay |
| Geometry.DragRectAtAnchor | src/drag-highlight-event-service.ts:26-31 | before the pointer moves, the overlay has zero size and sits at the anchor |
| Highlight.Committed | src/drag-highlight-event-service.ts:48-53 | at pointer-up an element is selected if it was selected or highlighted, and is no longer highlighted |
| Highlight.CommitAll | src/drag-highlight-event-service.ts:48-53 | the pointer-up pass over every element's flags; `CommitAllEffect` and `CommitAllIdempotent` state it |
| Highlight.CommitAllEffect | src/drag-highlight-event-service.ts:48-53 | the pointer-up pass keeps every selection, selects every highlighted element and leaves no highlight |
| Highlight.CommitAllIdempotent | src/drag-highlight-event-service.ts:45-54 | committing twice is committing once |
| Highlight.Hits | src/drag-highlight-event-service.ts:64-68 | one hit flag per element box |
| Highlight.Highlighted | src/drag-highlight-event-service.ts:67-73 | the highlight pass over every element's flags, given each element's hit; `HighlightedEffect` and `HighlightedTwice` state it |
| Highlight.HighlightedEffect | src/drag-highlight-event-service.ts:64-73 | the highlight pass changes no selection and keeps the number of elements; afterwards the highlighted elements are exactly the hits |
| Highlight.HighlightedTwice | src/drag-highlight-event-service.ts:64-73 | a highlight pass overwrites every highlight, so only the last pass counts |
| Highlight.HitsUnscrolled | src/drag-highlight-event-service.ts:66-68 | with the page unscrolled, an element is hit exactly when its box shares a point with the overlay's box |
| Highlight.CheckSelected | src/drag-highlight-event-service.ts:64-74 | each element's `highlighted` becomes whether its box meets the overlay's box shifted by the scroll offset; only `highlighted` fields may change, so `selected` and `indecies` are kept |
| Highlight.CommitHighlights | src/drag-highlight-event-service.ts:48-53 | the elements' flags become the pointer-up pass applied to their old flags; `indecies` is outside the frame and kept |
| Highlight.HighlightService.constructor | src/drag-highlight-event-service.ts:6-19 | a new service has no drag under way and no pointer-up listener |
| Highlight.HighlightService.OnPointerDown | src/drag-highlight-event-service.ts:21-33 | adds a move listener anchored at the pointer with a zero-size overlay there, and one more pointer-up listener |
| Highlight.HighlightService.OnPointerMove | src/drag-highlight-event-service.ts:35-44 | every attached listener re-spans its overlay from its anchor to the pointer; the highlights become the hits of the last listener's overlay box; with no listener attached nothing changes; only `highlighted` fields of the elements may change |
| Highlight.HighlightService.OnPointerUp | src/drag-highlight-event-service.ts:44-54 | every move listener is detached and every overlay removed; the elements end as after one pointer-up pass, or unchanged if no pointer-down came before; `indecies` is outside the frame and kept |
| DragScenario.TopRowHits | src/drag-highlight-event-service.ts:64-74 | on a 2 × 2 grid, an overlay spanning the top row meets the two top cells and neither bottom cell |
| DragScenario.TopRowHighlighted | src/drag-highlight-event-service.ts:64-74 | the highlight pass on a clear grid with those hits highlights exactly the top row |
| DragScenario.TopRowCommitted | src/drag-highlight-event-service.ts:48-53 | pointer-up after that selects exactly the top row |
| DragScenario.AllClear | src/interactive-array-element.ts:17-22 | four elements with both flags down read as a clear grid |
| DragScenario.DragFrom | src/drag-highlight-event-service.ts:21-44 | pointer-down and one move on a new service set each highlight to the hit of the overlay between the two points |
| DragScenario.HighlightTopRow | src/drag-highlight-event-service.ts:21-44 | on a clear 2 × 2 grid, a drag from the corner past the top row highlights that row and nothing else |
| DragScenario.DragOverTopRow | src/drag-highlight-event-service.ts:21-54 | pointer-up after that selects the top row, and a later move changes nothing |
| DragScenario.ClickThrice | src/interactive-array-element.ts:35-37 | two clicks on a cell leave the grid unchanged, and a third selects that cell alone |
| GridScenario.TypeTwoByTwo | src/app-element.ts:73-80 | typing `(2,2)` gives dimensions [2, 2] |
| GridScenario.RenderTwoByTwo | src/app-element.ts:39-50 | rendering dimensions [2, 2] lists (0,0), (0,1), (1,0), (1,1), in that order |
| GridScenario.MountTwoByTwo | src/app-element.ts:45-46 | mounting that grid gives four clear elements indexed (0,0), (0,1), (1,0), (1,1), in that order |
| GridScenario.Session | src/app-element.ts:39-50 | typing, rendering, dragging over the top row and clicking one cell three times leaves the top row and that cell selected, and every element keeps the index pair it was mounted with |

## Left out

- Lit rendering, templates, `classMap`, styles and custom-element registration are presentational. Only the index pairs the render loops produce are modelled.
- `firstUpdated`, which creates the highlight service once the element is first drawn, is left out. The scenarios create the service directly.
- Creating the backdrop and the overlay `div`s, their `style` assignments, `append`/`remove` and `preventDefault` are left out. The overlay is its style rectangle. Removing it is dropping it from `overlays`.
- Event listener wiring is left out. The gesture is explicit calls to `OnPointerDown`, `OnPointerMove` and `OnPointerUp`, made in the order the browser delivers events. Which element receives an event (z-index, the backdrop covering the cells) is not modelled.
- `getBoundingClientRect`, `offsetX/Y` and `window.scrollX/Y` are browser calls, so they become parameters. `layout` stands for the box the browser computes for an overlay with a given style rectangle, including its 1-pixel border.
- Pixel coordinates are floating point in the browser. Here they are integers.
- `DecimalValue`: `parseInt` is exact over the naturals. The loss of precision on digit strings longer than a double can hold is not modelled.
- `IsSpace`: JavaScript's `\s` is a fixed list of characters (the white-space and line-terminator code points). It does not follow the Unicode version of a particular engine.
- The command text input has no logic and is not modelled.
- `queryAll` over the rendered grid is a given `seq` of distinct elements. How Lit reuses element instances across renders is not modelled. That means a new descriptor's grid may in practice keep the flags of elements Lit reuses.
- The code adds the scroll offset to the overlay's box only, not to the elements' boxes (src/drag-highlight-event-service.ts:68). The model keeps that exactly as written. No corrected variant is given, because nothing in the code says which coordinate space was intended.
- The code has none of these, so neither does the model:
  - a reset of the grid's flags when the shape changes;
  - cancelling a drag (lost pointer capture);
  - a bounds check on cell indices;
  - refusing a second pointer-down during a drag.
  A second pointer-down attaches another move listener. All attached listeners then run on every move, which the model keeps.
