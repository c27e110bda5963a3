/** One cell of the grid: an interactive array element with its two flags.
    `selected` is the persistent choice, `highlighted` the preview shown
    while a drag rectangle covers the cell. Each element owns its flags, so
    changing one element leaves every other element as it was. */
module Cells {

  /** The flags of one element, as a value. */
  datatype CellState = CellState(selected: bool, highlighted: bool)

  class InteractiveArrayElement {
    /** The (row, column) pair the grid assigns when it renders the element. */
    var indecies: seq<int>
    var selected: bool
    var highlighted: bool

    function State(): CellState
      reads this
    {
      CellState(selected, highlighted)
    }

    /** A new element has no index, and is neither selected nor highlighted. */
    constructor ()
      ensures indecies == [] && !selected && !highlighted
    {
      indecies := [];
      selected := false;
      highlighted := false;
    }

    /** A click flips the selection and touches nothing else. */
    method OnClick()
      modifies this`selected
      ensures State() == Toggled(old(State()))
    {
      selected := !selected;
    }
  }

  /** The state after a click: selection negated, highlight kept. */
  function Toggled(c: CellState): (r: CellState)
    ensures r.selected != c.selected && r.highlighted == c.highlighted
  {
    CellState(!c.selected, c.highlighted)
  }

  /** Two clicks restore the original state. */
  lemma ToggledTwice(c: CellState)
    ensures Toggled(Toggled(c)) == c
  {
  }

  /** The elements of a list are pairwise different objects, as the
      elements a query over the rendered grid returns are. */
  ghost predicate Distinct(cells: seq<InteractiveArrayElement>) {
    forall i, j | 0 <= i < j < |cells| :: cells[i] != cells[j]
  }

  /** The flags of every element of `cells`, in order. */
  function States(cells: seq<InteractiveArrayElement>): (r: seq<CellState>)
    reads cells
  {
    seq(|cells|, k reads cells requires 0 <= k < |cells| => cells[k].State())
  }

  /** Clicking the element at `k` of a grid flips that element's selection
      and no other element's flags. */
  method ClickCell(cells: seq<InteractiveArrayElement>, k: nat)
    requires k < |cells| && Distinct(cells)
    modifies cells`selected
    ensures States(cells) == old(States(cells))[k := Toggled(old(cells[k].State()))]
  {
    cells[k].OnClick();
  }
}
