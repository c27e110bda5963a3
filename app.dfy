/** The app element: the shape descriptor the user types, whether it is
    valid, the grid dimensions taken from the last valid descriptor, and the
    row-by-row enumeration of cell indices that the grid is drawn from. */
module App {
  import opened ShapeDescriptor
  import opened Cells

  /** The (row, column) pair of a cell. */
  type CellIndex = (nat, nat)

  /** `dimensions[0] && dimensions[1]` in JavaScript: both entries exist
      and neither is zero. */
  predicate ShowsGrid(dims: seq<nat>) {
    |dims| >= 2 && dims[0] != 0 && dims[1] != 0
  }

  /** `rowTemplates` has `rows` rows of `cols` entries, the entry in row
      `i` and column `j` being `(i, j)`. */
  ghost predicate IsGrid(rowTemplates: seq<seq<CellIndex>>, rows: nat, cols: nat) {
    |rowTemplates| == rows &&
    forall i | 0 <= i < rows ::
      |rowTemplates[i]| == cols &&
      forall j | 0 <= j < cols :: rowTemplates[i][j] == (i, j)
  }

  /** The rows laid end to end: the order of the cells in the document. */
  function Flatten(rowTemplates: seq<seq<CellIndex>>): seq<CellIndex> {
    if |rowTemplates| == 0 then []
    else Flatten(rowTemplates[..|rowTemplates| - 1]) + rowTemplates[|rowTemplates| - 1]
  }

  /** Laid end to end, a grid lists its `rows * cols` cells in row-major
      order: cell `(i, j)` comes at position `i * cols + j`. */
  lemma FlattenRowMajor(rowTemplates: seq<seq<CellIndex>>, rows: nat, cols: nat)
    requires IsGrid(rowTemplates, rows, cols)
    ensures |Flatten(rowTemplates)| == rows * cols
    ensures forall i, j | 0 <= i < rows && 0 <= j < cols ::
      i * cols + j < rows * cols && Flatten(rowTemplates)[i * cols + j] == (i, j)
  {
    FlattenLength(rowTemplates, rows, cols);
    forall i, j | 0 <= i < rows && 0 <= j < cols
      ensures i * cols + j < rows * cols && Flatten(rowTemplates)[i * cols + j] == (i, j)
    {
      FlattenCell(rowTemplates, rows, cols, i, j);
    }
  }

  lemma {:induction false} FlattenLength(rowTemplates: seq<seq<CellIndex>>, rows: nat, cols: nat)
    requires IsGrid(rowTemplates, rows, cols)
    ensures |Flatten(rowTemplates)| == rows * cols
  {
    if rows > 0 {
      var init := rowTemplates[..rows - 1];
      assert IsGrid(init, rows - 1, cols);
      FlattenLength(init, rows - 1, cols);
      NextMultiple(rows - 1, cols);
    }
  }

  lemma {:induction false} FlattenCell(rowTemplates: seq<seq<CellIndex>>, rows: nat, cols: nat, i: nat, j: nat)
    requires IsGrid(rowTemplates, rows, cols) && i < rows && j < cols
    ensures |Flatten(rowTemplates)| == rows * cols
    ensures i * cols + j < rows * cols && Flatten(rowTemplates)[i * cols + j] == (i, j)
  {
    FlattenLength(rowTemplates, rows, cols);
    var init := rowTemplates[..rows - 1];
    assert IsGrid(init, rows - 1, cols);
    FlattenLength(init, rows - 1, cols);
    NextMultiple(rows - 1, cols);
    var n := (rows - 1) * cols;
    assert Flatten(rowTemplates) == Flatten(init) + rowTemplates[rows - 1];
    if i < rows - 1 {
      NextMultiple(i, cols);
      MultiplyMonotonic(i + 1, rows - 1, cols);
      assert i * cols + j < n;
      FlattenCell(init, rows - 1, cols, i, j);
    } else {
      assert i * cols + j == n + j;
    }
  }

  lemma NextMultiple(a: nat, c: nat)
    ensures (a + 1) * c == a * c + c
  {
  }

  lemma MultiplyMonotonic(a: nat, b: nat, c: nat)
    requires a <= b
    ensures a * c <= b * c
  {
  }

  /** A grid lists exactly the index pairs inside its bounds. */
  lemma {:induction false} FlattenMembers(rowTemplates: seq<seq<CellIndex>>, rows: nat, cols: nat)
    requires IsGrid(rowTemplates, rows, cols)
    ensures forall c: CellIndex :: c in Flatten(rowTemplates) <==> c.0 < rows && c.1 < cols
  {
    if rows > 0 {
      var init := rowTemplates[..rows - 1];
      assert IsGrid(init, rows - 1, cols);
      FlattenMembers(init, rows - 1, cols);
      var last := rowTemplates[rows - 1];
      assert Flatten(rowTemplates) == Flatten(init) + last;
      forall c: CellIndex ensures c in last <==> c.0 == rows - 1 && c.1 < cols {
        if c.0 == rows - 1 && c.1 < cols {
          assert last[c.1] == c;
        }
      }
    }
  }

  class AppElement {
    var shape: string
    var shapeIsInvalid: bool
    var dimensions: seq<nat>

    /** The default descriptor is `(3,4)`, parsed into three rows of four. */
    constructor ()
      ensures shape == "(3,4)" && !shapeIsInvalid && dimensions == [3, 4]
    {
      shape := "(3,4)";
      shapeIsInvalid := false;
      dimensions := [];
      new;
      dimensions := ParseShape(shape);
      ParseTwoDigitShape('3', '4');
    }

    /** Marks the descriptor invalid exactly when the validation pattern
        occurs nowhere in it. */
    method ValidateShape()
      modifies this`shapeIsInvalid
      ensures shapeIsInvalid <==> !MatchesShapePattern(shape)
    {
      ContainsShapeIff(shape);
      if ContainsShape(shape) {
        shapeIsInvalid := false;
      } else {
        shapeIsInvalid := true;
      }
    }

    /** A change of the shape field: the text is always kept; the dimensions
        are replaced by the parsed numbers, at least two of them, only when
        the text validates, and are left as they were otherwise. */
    method OnShapeKeyup(value: string)
      modifies this`shape, this`shapeIsInvalid, this`dimensions
      ensures shape == value
      ensures shapeIsInvalid <==> !MatchesShapePattern(value)
      ensures shapeIsInvalid ==> dimensions == old(dimensions)
      ensures !shapeIsInvalid ==> dimensions == ParseShape(value) && |dimensions| >= 2
    {
      shape := value;
      ValidateShape();
      if !shapeIsInvalid {
        dimensions := ParseShape(shape);
        ContainsShapeIff(shape);
        ValidShapeParsesTwoNumbers(shape);
      }
    }

    /** The rows of cells to draw: `dimensions[0]` rows of `dimensions[1]`
        cells, cell `(i, j)` in row `i` and column `j`, when both numbers are
        present and non-zero; no rows otherwise. */
    method Render() returns (rowTemplates: seq<seq<CellIndex>>)
      ensures ShowsGrid(dimensions) ==> IsGrid(rowTemplates, dimensions[0], dimensions[1])
      ensures !ShowsGrid(dimensions) ==> rowTemplates == []
    {
      rowTemplates := [];
      if ShowsGrid(dimensions) {
        var rows, cols := dimensions[0], dimensions[1];
        for i := 0 to rows
          invariant IsGrid(rowTemplates, i, cols)
        {
          var buttonTemplates: seq<CellIndex> := [];
          for j := 0 to cols
            invariant |buttonTemplates| == j
            invariant forall j' | 0 <= j' < j :: buttonTemplates[j'] == (i, j')
          {
            buttonTemplates := buttonTemplates + [(i, j)];
          }
          rowTemplates := rowTemplates + [buttonTemplates];
        }
      }
    }
  }

  /** A descriptor of two one-digit numbers, such as the default `(3,4)`,
      validates and gives those two numbers. */
  lemma ParseTwoDigitShape(a: char, b: char)
    requires IsDigit(a) && IsDigit(b)
    ensures ContainsShape(['(', a, ',', b, ')'])
    ensures ParseShape(['(', a, ',', b, ')']) == [(a as int - '0' as int) as nat, (b as int - '0' as int) as nat]
  {
    var s := ['(', a, ',', b, ')'];
    assert InClass(s[1], Digit) && InClass(s[3], Digit);
    SpanEndIs(s, 1, Digit, 2);
    SpanEndIs(s, 3, Space, 3);
    SpanEndIs(s, 3, Digit, 4);
    assert ScanShape(s, 0);
    SpanEndIs(s, 4, Digit, 4);
    SpanEndIs(s, 2, Digit, 2);
    SpanEndIs(s, 0, Digit, 0);
    assert NumberTokensFrom(s, 4) == [];
    assert NumberTokensFrom(s, 3) == [(3, 4)];
    assert NumberTokensFrom(s, 2) == [(3, 4)];
    assert NumberTokensFrom(s, 1) == [(1, 2), (3, 4)];
    assert NumberTokensFrom(s, 0) == [(1, 2), (3, 4)];
  }

  /** The elements the grid's rows produce, in document order: one new
      element per cell, carrying that cell's index pair, neither selected
      nor highlighted. */
  method MountCells(cells: seq<CellIndex>) returns (elements: seq<InteractiveArrayElement>)
    ensures |elements| == |cells| && Distinct(elements)
    ensures forall k | 0 <= k < |cells| ::
      fresh(elements[k]) && elements[k].indecies == [cells[k].0, cells[k].1] &&
      elements[k].State() == CellState(false, false)
  {
    elements := [];
    for k := 0 to |cells|
      invariant |elements| == k && Distinct(elements)
      invariant forall m | 0 <= m < k ::
        fresh(elements[m]) && elements[m].indecies == [cells[m].0, cells[m].1] &&
        elements[m].State() == CellState(false, false)
    {
      var element := new InteractiveArrayElement();
      element.indecies := [cells[k].0, cells[k].1];
      elements := elements + [element];
    }
  }
}
