/**
 * `TableViewCellsPresenter.EnsureGridLines`: how a row's cell presenter paints its
 * horizontal and vertical grid lines from the owning table's settings, and then
 * asks each of its cells to do the same.
 */
module CellsPresenter {
  import W = Wrappers
  import opened Xaml

  /** TableViewGridLinesVisibility. */
  datatype GridLinesVisibility = All | Horizontal | None | Vertical

  datatype Axis = HorizontalAxis | VerticalAxis

  /** The directions in which a grid-lines setting asks for lines. */
  function Axes(g: GridLinesVisibility): set<Axis> {
    match g
    case All => {HorizontalAxis, VerticalAxis}
    case Horizontal => {HorizontalAxis}
    case None => {}
    case Vertical => {VerticalAxis}
  }

  /** A brush: the table's configured strokes, or the transparent one the presenter creates. */
  datatype Brush = Transparent | Stroke(id: nat)

  /** The table properties EnsureGridLines reads. */
  datatype LineSettings = LineSettings(
    gridLinesVisibility: GridLinesVisibility,
    headerGridLinesVisibility: GridLinesVisibility,
    horizontalStroke: Brush,
    horizontalThickness: real,
    verticalStroke: Brush,
    verticalThickness: real)

  function HorizontalLineVisibility(grid: GridLinesVisibility): (v: Visibility)
    ensures v == Visible <==> HorizontalAxis in Axes(grid)
  {
    if grid == All || grid == Horizontal then Visible else Collapsed
  }

  function VerticalLineVisibility(header: GridLinesVisibility, grid: GridLinesVisibility): (v: Visibility)
    ensures v == Visible <==> VerticalAxis in Axes(header) + Axes(grid)
  {
    if header == All || header == Vertical || grid == All || grid == Vertical then Visible else Collapsed
  }

  function VerticalLineFill(header: GridLinesVisibility, stroke: Brush): (b: Brush)
    ensures VerticalAxis in Axes(header) ==> b == stroke
    ensures VerticalAxis !in Axes(header) ==> b == Transparent
  {
    if header == All || header == Vertical then stroke else Transparent
  }

  /** The vertical line is only ever painted with the table's stroke while it is visible. */
  lemma VerticalFillOnlyWhenVisible(header: GridLinesVisibility, grid: GridLinesVisibility, stroke: Brush)
    requires VerticalLineFill(header, stroke) != Transparent
    ensures VerticalLineVisibility(header, grid) == Visible
  {
  }

  /**
   * When only the body setting asks for vertical lines, the presenter's vertical
   * line is visible but transparent.
   */
  lemma BodyOnlyVerticalIsTransparent(header: GridLinesVisibility, grid: GridLinesVisibility, stroke: Brush)
    requires VerticalAxis !in Axes(header) && VerticalAxis in Axes(grid)
    ensures VerticalLineVisibility(header, grid) == Visible
    ensures VerticalLineFill(header, stroke) == Transparent
  {
  }

  /** A child of the presenter's stack panel: a TableViewCell or any other element. */
  datatype Child = Cell(id: nat) | OtherElement(id: nat)

  /** `Cells`: the children that are cells, in their order. */
  function Cells(children: seq<Child>): (cells: seq<nat>)
    ensures |cells| <= |children|
    ensures forall id :: id in cells <==> Cell(id) in children
  {
    if children == [] then []
    else if children[0].Cell? then [children[0].id] + Cells(children[1..])
    else Cells(children[1..])
  }

  /** Keeping the cells distributes over concatenation, so their relative order is kept. */
  lemma {:induction false} CellsAppend(a: seq<Child>, b: seq<Child>)
    ensures Cells(a + b) == Cells(a) + Cells(b)
  {
    if a == [] {
      assert a + b == b;
    } else {
      assert (a + b)[0] == a[0];
      assert (a + b)[1..] == a[1..] + b;
      CellsAppend(a[1..], b);
    }
  }

  /** A presenter's children that holds only cells is its own list of cells. */
  lemma {:induction false} CellsOfOnlyCells(children: seq<Child>)
    requires forall k :: 0 <= k < |children| ==> children[k].Cell?
    ensures |Cells(children)| == |children|
    ensures forall k :: 0 <= k < |children| ==> Cells(children)[k] == children[k].id
  {
    if children != [] {
      CellsOfOnlyCells(children[1..]);
    }
  }

  /** A grid-line template part (a Rectangle). */
  class Rectangle {
    var fill: Brush
    var width: real
    var height: real
    var visibility: Visibility

    constructor (fill: Brush, width: real, height: real, visibility: Visibility)
      ensures this.fill == fill && this.width == width && this.height == height && this.visibility == visibility
    {
      this.fill, this.width, this.height, this.visibility := fill, width, height, visibility;
    }
  }

  datatype Exception = NullReferenceException

  class TableViewCellsPresenter {
    /** TableView, the owning table; absent until the template finds one. */
    var tableView: W.Option<LineSettings>
    /** The template parts; null when the template lacks them. */
    var hLine: Rectangle?
    var vLine: Rectangle?
    /** _stackPanel?.Children; absent when the template lacks the stack panel. */
    var stackPanel: W.Option<seq<Child>>
    /** The cells whose own EnsureGridLines has been called, in call order. */
    var cellCalls: seq<nat>

    /** Two template parts are two distinct objects. */
    ghost predicate Valid()
      reads this
    {
      hLine != null && vLine != null ==> hLine != vLine
    }

    constructor (tableView: W.Option<LineSettings>, hLine: Rectangle?, vLine: Rectangle?, stackPanel: W.Option<seq<Child>>)
      requires hLine != null && vLine != null ==> hLine != vLine
      ensures Valid() && this.tableView == tableView && this.hLine == hLine && this.vLine == vLine
      ensures this.stackPanel == stackPanel && cellCalls == []
    {
      this.tableView, this.hLine, this.vLine, this.stackPanel := tableView, hLine, vLine, stackPanel;
      cellCalls := [];
    }

    method EnsureGridLines() returns (outcome: W.Outcome<Exception>)
      requires Valid()
      modifies hLine, vLine, this`cellCalls
      ensures Valid()
      // without a table nothing is touched
      ensures tableView.None? ==> outcome.Pass? && cellCalls == old(cellCalls)
      ensures tableView.None? && hLine != null ==> unchanged(hLine)
      ensures tableView.None? && vLine != null ==> unchanged(vLine)
      // the horizontal line follows the body setting
      ensures tableView.Some? && hLine != null ==>
        && hLine.fill == tableView.value.horizontalStroke
        && hLine.height == tableView.value.horizontalThickness
        && hLine.visibility == HorizontalLineVisibility(tableView.value.gridLinesVisibility)
        && hLine.width == old(hLine.width)
      // the vertical line is only updated when the horizontal one exists
      ensures tableView.Some? && hLine != null && vLine != null ==>
        && vLine.fill == VerticalLineFill(tableView.value.headerGridLinesVisibility, tableView.value.verticalStroke)
        && vLine.width == tableView.value.verticalThickness
        && vLine.visibility == VerticalLineVisibility(tableView.value.headerGridLinesVisibility, tableView.value.gridLinesVisibility)
        && vLine.height == old(vLine.height)
      ensures tableView.Some? && hLine == null && vLine != null ==> unchanged(vLine)
      // then every cell is visited once, in order; a missing stack panel makes Cells null
      ensures tableView.Some? && stackPanel.Some? ==>
        outcome.Pass? && cellCalls == old(cellCalls) + Cells(stackPanel.value)
      ensures tableView.Some? && stackPanel.None? ==>
        outcome == W.Fail(NullReferenceException) && cellCalls == old(cellCalls)
    {
      if tableView.None? {
        return W.Pass;
      }
      var table := tableView.value;

      if hLine != null {
        hLine.fill := table.horizontalStroke;
        hLine.height := table.horizontalThickness;
        hLine.visibility := HorizontalLineVisibility(table.gridLinesVisibility);

        if vLine != null {
          vLine.fill := VerticalLineFill(table.headerGridLinesVisibility, table.verticalStroke);
          vLine.width := table.verticalThickness;
          vLine.visibility := VerticalLineVisibility(table.headerGridLinesVisibility, table.gridLinesVisibility);
        }
      }

      if stackPanel.None? {
        return W.Fail(NullReferenceException);
      }
      var cells := Cells(stackPanel.value);
      for k := 0 to |cells|
        modifies this`cellCalls
        invariant cellCalls == old(cellCalls) + cells[..k]
      {
        // cell.EnsureGridLines()
        cellCalls := cellCalls + [cells[k]];
      }
      assert cells[..|cells|] == cells;
      return W.Pass;
    }
  }
}
