/**
 * `TableViewColumnHeader`: how a column header turns taps into sort changes and
 * pointer drags and double-taps into column widths.
 *
 * The header sees its table (absent until the template finds one), the table's
 * columns and its ordered list of sort descriptions; its own column and the
 * column of the header to its left are indices into that list of columns.
 */
module ColumnHeader {
  import opened Wrappers

  // ---------------------------------------------------------------------------
  // Sort directions and the tap cycle

  /** SortDirection; an unsorted column has no direction. */
  datatype SortDirection = Ascending | Descending

  /** GetNextSortDirection: never the current direction; unsorted only after descending. */
  function NextSortDirection(d: Option<SortDirection>): (r: Option<SortDirection>)
    ensures r != d
    ensures r.None? <==> d == Some(Descending)
  {
    match d
    case Some(Ascending) => Some(Descending)
    case Some(Descending) => None
    case None => Some(Ascending)
  }

  /** Tapping cycles through three states: every state comes back after three taps and not sooner. */
  lemma SortCycleHasPeriodThree(d: Option<SortDirection>)
    ensures NextSortDirection(NextSortDirection(NextSortDirection(d))) == d
    ensures NextSortDirection(d) != d && NextSortDirection(NextSortDirection(d)) != d
  {
  }

  /** CoreVirtualKeyStates of the Ctrl key, as its two flags. */
  datatype KeyStates = KeyStates(down: bool, locked: bool)

  /** Ctrl counts as held when its state is Down or Down | Locked. */
  predicate IsCtrlDown(k: KeyStates) {
    k == KeyStates(true, false) || k == KeyStates(true, true)
  }

  lemma CtrlDownIgnoresLock(k: KeyStates)
    ensures IsCtrlDown(k) <==> k.down
  {
  }

  // ---------------------------------------------------------------------------
  // Columns, the table and sort descriptions

  /** A width bound that may be infinite, as the table's MaxColumnWidth is by default. */
  datatype Limit = Pixels(value: real) | Unbounded

  datatype Column = Column(
    canSort: bool,
    canResize: bool,
    canFilter: bool,
    propertyPath: Option<string>,         // the binding path of a bound column
    sortDirection: Option<SortDirection>,
    minWidth: Option<real>,
    maxWidth: Option<Limit>,
    width: real,                          // Width, in pixels
    actualWidth: real,                    // ActualWidth, as laid out
    desiredWidth: real)                   // DesiredWidth, the measured content width

  /** The table properties the header reads. */
  datatype TableSettings = TableSettings(
    canSortColumns: bool,
    canResizeColumns: bool,
    canFilterColumns: bool,
    minColumnWidth: real,
    maxColumnWidth: Limit)

  /**
   * An entry of the table's SortDescriptions: one a header adds for a column, or
   * one by property path that other code may have added.
   */
  datatype SortDescription =
    | ColumnSort(column: nat, propertyPath: Option<string>, direction: SortDirection)
    | PathSort(path: string, direction: SortDirection)

  predicate IsSortOf(x: SortDescription, c: nat) {
    x.ColumnSort? && x.column == c
  }

  /** How many descriptions sort by column c. */
  function CountFor(ds: seq<SortDescription>, c: nat): (n: nat)
    ensures n <= |ds|
    ensures n == 0 <==> forall i :: 0 <= i < |ds| ==> !IsSortOf(ds[i], c)
  {
    if ds == [] then 0
    else
      var rest := CountFor(ds[1..], c);
      assert forall i :: 1 <= i < |ds| ==> ds[i] == ds[1..][i - 1];
      (if IsSortOf(ds[0], c) then 1 else 0) + rest
  }

  /** RemoveWhere(x => x is ColumnSortDescription for column c). */
  function WithoutColumn(ds: seq<SortDescription>, c: nat): (r: seq<SortDescription>)
    ensures |r| + CountFor(ds, c) == |ds|
    ensures forall i :: 0 <= i < |r| ==> !IsSortOf(r[i], c)
  {
    if ds == [] then []
    else if IsSortOf(ds[0], c) then WithoutColumn(ds[1..], c)
    else [ds[0]] + WithoutColumn(ds[1..], c)
  }

  lemma {:induction false} CountForAppend(a: seq<SortDescription>, b: seq<SortDescription>, c: nat)
    ensures CountFor(a + b, c) == CountFor(a, c) + CountFor(b, c)
  {
    if a == [] {
      assert a + b == b;
    } else {
      assert (a + b)[0] == a[0];
      assert (a + b)[1..] == a[1..] + b;
      CountForAppend(a[1..], b, c);
    }
  }

  /** Removal distributes over concatenation: what stays keeps its order. */
  lemma {:induction false} WithoutColumnAppend(a: seq<SortDescription>, b: seq<SortDescription>, c: nat)
    ensures WithoutColumn(a + b, c) == WithoutColumn(a, c) + WithoutColumn(b, c)
  {
    if a == [] {
      assert a + b == b;
    } else {
      assert (a + b)[0] == a[0];
      assert (a + b)[1..] == a[1..] + b;
      WithoutColumnAppend(a[1..], b, c);
    }
  }

  /** A list without descriptions for c is left as it is. */
  lemma {:induction false} WithoutColumnNoop(ds: seq<SortDescription>, c: nat)
    requires CountFor(ds, c) == 0
    ensures WithoutColumn(ds, c) == ds
  {
    if ds != [] {
      assert !IsSortOf(ds[0], c);
      assert ds == [ds[0]] + ds[1..];
      WithoutColumnNoop(ds[1..], c);
    }
  }

  /** Removal takes every description of c and none of any other column. */
  lemma {:induction false} WithoutColumnCounts(ds: seq<SortDescription>, c: nat, other: nat)
    ensures CountFor(WithoutColumn(ds, c), other) == if other == c then 0 else CountFor(ds, other)
  {
    if ds != [] {
      WithoutColumnCounts(ds[1..], c, other);
      if !IsSortOf(ds[0], c) {
        CountForAppend([ds[0]], WithoutColumn(ds[1..], c), other);
      }
    }
  }

  /**
   * A description of another column stays, between what is kept of the entries
   * before it and what is kept of the entries after it: removal keeps the
   * relative order of everything else.
   */
  lemma WithoutColumnKeeps(ds: seq<SortDescription>, c: nat, k: nat)
    requires k < |ds| && !IsSortOf(ds[k], c)
    ensures WithoutColumn(ds, c) == WithoutColumn(ds[..k], c) + [ds[k]] + WithoutColumn(ds[k + 1..], c)
  {
    assert ds == ds[..k] + ([ds[k]] + ds[k + 1..]);
    WithoutColumnAppend(ds[..k], [ds[k]] + ds[k + 1..], c);
    WithoutColumnAppend([ds[k]], ds[k + 1..], c);
    WithoutColumnNoop([ds[k]], c);
  }

  lemma WithoutColumnIdempotent(ds: seq<SortDescription>, c: nat)
    ensures WithoutColumn(WithoutColumn(ds, c), c) == WithoutColumn(ds, c)
  {
    WithoutColumnCounts(ds, c, c);
    WithoutColumnNoop(WithoutColumn(ds, c), c);
  }

  // ---------------------------------------------------------------------------
  // The sort state and what DoSort does to it

  /** The part of the table that sorting changes. */
  datatype SortState = SortState(columns: seq<Column>, descriptions: seq<SortDescription>)

  function Unsorted(col: Column): Column {
    col.(sortDirection := None)
  }

  /**
   * The table's ClearAllSortingWithEvent when its event is not handled. That
   * method is not part of this model: this definition is an assumption about it,
   * not a proved property. It takes every column's direction and empties the
   * whole description list, including descriptions by path alone.
   */
  function ClearAllSorting(s: SortState): (r: SortState)
    ensures r.descriptions == []
    ensures |r.columns| == |s.columns|
    ensures forall i :: 0 <= i < |r.columns| ==> r.columns[i] == Unsorted(s.columns[i])
  {
    SortState(seq(|s.columns|, i requires 0 <= i < |s.columns| => Unsorted(s.columns[i])), [])
  }

  /** ClearSortingWithEvent's effect on column c when its event is not handled. */
  function ClearColumnSorting(s: SortState, c: nat): (r: SortState)
    requires c < |s.columns|
    ensures |r.columns| == |s.columns| && r.columns[c].sortDirection.None?
    ensures forall i :: 0 <= i < |s.columns| ==>
              r.columns[i] == if i == c then s.columns[i].(sortDirection := None) else s.columns[i]
    // every description of c goes, and only those (WithoutColumnKeeps: the others keep their places)
    ensures forall i :: 0 <= i < |r.descriptions| ==> !IsSortOf(r.descriptions[i], c)
    ensures |r.descriptions| + CountFor(s.descriptions, c) == |s.descriptions|
  {
    SortState(s.columns[c := Unsorted(s.columns[c])], WithoutColumn(s.descriptions, c))
  }

  /** DoSort(direction, singleSorting) on column c, the clearing event handled or not. */
  function SortColumn(s: SortState, c: nat, direction: Option<SortDirection>, singleSorting: bool, clearHandled: bool): (r: SortState)
    requires c < |s.columns|
    // only directions change, and the sorted column ends with the requested one
    ensures |r.columns| == |s.columns|
    ensures forall i :: 0 <= i < |s.columns| ==> r.columns[i] == s.columns[i].(sortDirection := r.columns[i].sortDirection)
    ensures direction.Some? || !clearHandled ==> r.columns[c].sortDirection == direction
    // a handled clear keeps every old description as a prefix
    ensures clearHandled ==> |s.descriptions| <= |r.descriptions| && r.descriptions[..|s.descriptions|] == s.descriptions
    ensures |r.descriptions| <= |s.descriptions| + 1
  {
    var cleared :=
      if clearHandled then s
      else if singleSorting then ClearAllSorting(s)
      else ClearColumnSorting(s, c);
    match direction
    case None => cleared
    case Some(d) =>
      SortState(cleared.columns[c := cleared.columns[c].(sortDirection := direction)],
                cleared.descriptions + [ColumnSort(c, cleared.columns[c].propertyPath, d)])
  }

  /** With a direction, DoSort gives the column that direction and appends one description for it. */
  lemma SortColumnAppendsOne(s: SortState, c: nat, d: SortDirection, singleSorting: bool, clearHandled: bool)
    requires c < |s.columns|
    ensures var r := SortColumn(s, c, Some(d), singleSorting, clearHandled);
            && |r.columns| == |s.columns|
            && r.columns[c].sortDirection == Some(d)
            && |r.descriptions| > 0
            && r.descriptions[|r.descriptions| - 1] == ColumnSort(c, s.columns[c].propertyPath, d)
            && CountFor(r.descriptions, c) == CountFor(r.descriptions[..|r.descriptions| - 1], c) + 1
  {
    var r := SortColumn(s, c, Some(d), singleSorting, clearHandled);
    var n := |r.descriptions| - 1;
    assert r.descriptions == r.descriptions[..n] + [r.descriptions[n]];
    CountForAppend(r.descriptions[..n], [r.descriptions[n]], c);
  }

  /** Without Ctrl, sorting a column leaves it the only sorted column and its description the only one. */
  lemma SingleSortReplacesAll(s: SortState, c: nat, d: SortDirection)
    requires c < |s.columns|
    ensures var r := SortColumn(s, c, Some(d), true, false);
            && r.descriptions == [ColumnSort(c, s.columns[c].propertyPath, d)]
            && |r.columns| == |s.columns|
            && forall i :: 0 <= i < |s.columns| ==>
                 r.columns[i] == s.columns[i].(sortDirection := if i == c then Some(d) else None)
  {
  }

  /** A plain tap that cycles to no direction clears all sorting and stops: the third tap of the cycle. */
  lemma SingleSortToNoneClearsAll(s: SortState, c: nat)
    requires c < |s.columns|
    ensures var r := SortColumn(s, c, None, true, false);
            && r.descriptions == []
            && |r.columns| == |s.columns|
            && forall i :: 0 <= i < |s.columns| ==> r.columns[i] == s.columns[i].(sortDirection := None)
  {
  }

  /**
   * A handled clear leaves every other column as it was, and with no direction
   * to apply it leaves the whole sort state as it was.
   */
  lemma HandledClearKeepsOtherColumns(s: SortState, c: nat, direction: Option<SortDirection>, singleSorting: bool)
    requires c < |s.columns|
    ensures var r := SortColumn(s, c, direction, singleSorting, true);
            && (forall i :: 0 <= i < |s.columns| && i != c ==> r.columns[i] == s.columns[i])
            && (direction.None? ==> r == s)
  {
  }

  /**
   * With Ctrl, only column c changes: every other column is kept; the list starts
   * with every description of another column, path-only ones included, unchanged
   * and in its old order (its sort priority, see WithoutColumnKeeps); and c ends
   * with one description, at the end, exactly when it gets a direction.
   */
  lemma MultiSortKeepsOtherColumns(s: SortState, c: nat, direction: Option<SortDirection>)
    requires c < |s.columns|
    ensures var r := SortColumn(s, c, direction, false, false);
            && |r.columns| == |s.columns|
            && r.columns[c] == s.columns[c].(sortDirection := direction)
            && (forall i :: 0 <= i < |s.columns| && i != c ==> r.columns[i] == s.columns[i])
            && r.descriptions ==
               WithoutColumn(s.descriptions, c) +
               (if direction.Some? then [ColumnSort(c, s.columns[c].propertyPath, direction.value)] else [])
            && CountFor(r.descriptions, c) == (if direction.Some? then 1 else 0)
            && (forall other :: other != c ==> CountFor(r.descriptions, other) == CountFor(s.descriptions, other))
  {
    var r := SortColumn(s, c, direction, false, false);
    var kept := WithoutColumn(s.descriptions, c);
    assert r.descriptions == if direction.Some? then kept + [ColumnSort(c, s.columns[c].propertyPath, direction.value)] else kept;
    forall other: nat
      ensures CountFor(r.descriptions, other) ==
              (if other == c then 0 else CountFor(s.descriptions, other)) + (if direction.Some? && other == c then 1 else 0)
    {
      WithoutColumnCounts(s.descriptions, c, other);
      if direction.Some? {
        CountForAppend(kept, [ColumnSort(c, s.columns[c].propertyPath, direction.value)], other);
      }
    }
  }

  /**
   * When the clearing event is handled nothing is cleared, yet the description
   * is still appended: the column gains one more description than it had.
   */
  lemma HandledClearStillAppends(s: SortState, c: nat, d: SortDirection, singleSorting: bool)
    requires c < |s.columns|
    ensures var r := SortColumn(s, c, Some(d), singleSorting, true);
            && r.descriptions == s.descriptions + [ColumnSort(c, s.columns[c].propertyPath, d)]
            && CountFor(r.descriptions, c) == CountFor(s.descriptions, c) + 1
  {
    CountForAppend(s.descriptions, [ColumnSort(c, s.columns[c].propertyPath, d)], c);
  }

  /** An unhandled tap on column c: DoSort with the next direction. */
  function Tap(s: SortState, c: nat, singleSorting: bool): (r: SortState)
    requires c < |s.columns|
    ensures |r.columns| == |s.columns|
    ensures r.columns[c].sortDirection == NextSortDirection(s.columns[c].sortDirection)
  {
    SortColumn(s, c, NextSortDirection(s.columns[c].sortDirection), singleSorting, false)
  }

  /** Three unhandled taps with the same modifier bring the tapped column back to its direction. */
  lemma ThreeTapsRestoreDirection(s: SortState, c: nat, singleSorting: bool)
    requires c < |s.columns|
    ensures Tap(Tap(Tap(s, c, singleSorting), c, singleSorting), c, singleSorting).columns[c].sortDirection ==
            s.columns[c].sortDirection
  {
    SortCycleHasPeriodThree(s.columns[c].sortDirection);
  }

  // ---------------------------------------------------------------------------
  // Resize hit-testing and width rules

  /** A pointer position relative to the header, and whether the pointer is a touch. */
  datatype PointerPoint = PointerPoint(touch: bool, x: real, y: real)

  /** The resize hit margin: 8 px for touch, 4 px for mouse and pen. */
  function ResizeMargin(touch: bool): real {
    if touch then 8.0 else 4.0
  }

  /**
   * Near the right edge, above the part of the header the options button takes
   * when the column is filterable (`reserved`).
   */
  predicate InRightResizeArea(width: real, height: real, reserved: real, p: PointerPoint) {
    width - p.x <= ResizeMargin(p.touch) && p.y < height - reserved
  }

  /** Near the left edge, anywhere above the header's bottom. */
  predicate InLeftResizeArea(height: real, p: PointerPoint) {
    p.x <= ResizeMargin(p.touch) && p.y < height
  }

  /** A touch pointer is in a resize area wherever a precise pointer at that point is. */
  lemma TouchWidensResizeAreas(width: real, height: real, reserved: real, x: real, y: real)
    ensures InRightResizeArea(width, height, reserved, PointerPoint(false, x, y)) ==>
            InRightResizeArea(width, height, reserved, PointerPoint(true, x, y))
    ensures InLeftResizeArea(height, PointerPoint(false, x, y)) ==> InLeftResizeArea(height, PointerPoint(true, x, y))
  {
  }

  /** On a header wider than two margins, no point is in both resize areas. */
  lemma ResizeAreasDisjoint(width: real, height: real, reserved: real, p: PointerPoint)
    requires width > 2.0 * ResizeMargin(p.touch)
    ensures !(InRightResizeArea(width, height, reserved, p) && InLeftResizeArea(height, p))
  {
  }

  /** The options button only shrinks the right area. */
  lemma OptionsButtonShrinksRightArea(width: real, height: real, reserved: real, p: PointerPoint)
    requires reserved >= 0.0
    ensures InRightResizeArea(width, height, reserved, p) ==> InRightResizeArea(width, height, 0.0, p)
  {
  }

  /** The column's own bound, else the table's. */
  function EffectiveMinWidth(col: Column, t: TableSettings): real {
    col.minWidth.GetOr(t.minColumnWidth)
  }

  function EffectiveMaxWidth(col: Column, t: TableSettings): Limit {
    col.maxWidth.GetOr(t.maxColumnWidth)
  }

  /** The drag rule: raise to the minimum, then lower to the maximum. */
  function DragWidth(x: real, min: real, max: Limit): (w: real)
    ensures max.Pixels? ==> w <= max.value
    ensures (max.Unbounded? || min <= max.value) ==> min <= w
    ensures min <= x && (max.Unbounded? || x <= max.value) ==> w == x
    ensures x < min && (max.Unbounded? || min <= max.value) ==> w == min
    ensures max.Pixels? && min > max.value ==> w == max.value
    ensures max.Pixels? && x > max.value && min <= max.value ==> w == max.value
  {
    var raised := if x < min then min else x;
    if max.Pixels? && raised > max.value then max.value else raised
  }

  datatype ClampError = ArgumentException

  /** Math.Clamp: throws when the minimum exceeds the maximum. */
  function MathClamp(value: real, min: real, max: Limit): (r: Result<real, ClampError>)
    ensures r.Failure? <==> max.Pixels? && min > max.value
    ensures r.Success? ==> min <= r.value && (max.Pixels? ==> r.value <= max.value)
    ensures r.Success? && min <= value && (max.Unbounded? || value <= max.value) ==> r.value == value
    ensures r.Success? && value < min ==> r.value == min
    ensures r.Success? && max.Pixels? && value > max.value ==> r.value == max.value
  {
    if max.Pixels? && min > max.value then Failure(ArgumentException)
    else if value < min then Success(min)
    else if max.Pixels? && value > max.value then Success(max.value)
    else Success(value)
  }

  /**
   * Dragging and double-tapping bound a width alike while the bounds are ordered;
   * with crossed bounds a drag yields the maximum but a double-tap throws.
   */
  lemma DragAndClampAgree(x: real, min: real, max: Limit)
    ensures (max.Unbounded? || min <= max.value) ==> MathClamp(x, min, max) == Success(DragWidth(x, min, max))
    ensures max.Pixels? && min > max.value ==>
            MathClamp(x, min, max).Failure? && DragWidth(x, min, max) == max.value
  {
  }

  /** The width a double-tap fits a column to. */
  function FitWidth(col: Column, t: TableSettings): Result<real, ClampError> {
    MathClamp(col.desiredWidth, EffectiveMinWidth(col, t), EffectiveMaxWidth(col, t))
  }

  function WithWidth(cols: seq<Column>, i: nat, w: real): seq<Column>
    requires i < |cols|
  {
    cols[i := cols[i].(width := w)]
  }

  // ---------------------------------------------------------------------------
  // The header

  class TableViewColumnHeader {
    /** _tableView; None until the template finds the owning table. */
    var table: Option<TableSettings>
    var columns: seq<Column>
    var sortDescriptions: seq<SortDescription>
    /** Column, as an index into columns. */
    var column: Option<nat>
    /** The column of the header row's previous header, when there is one with a column. */
    var previous: Option<nat>
    var actualWidth: real
    var actualHeight: real
    /** _optionsButton?.ActualHeight. */
    var optionsButtonHeight: Option<real>
    var resizeStarted: bool
    var resizePreviousStarted: bool
    /** Whether ProtectedCursor is the SizeWestEast system cursor. */
    var sizingCursor: bool

    ghost predicate Valid()
      reads this`columns, this`column, this`previous
    {
      && (column.Some? ==> column.value < |columns|)
      && (previous.Some? ==> previous.value < |columns|)
    }

    /** While a resize is in progress the sizing cursor shows. */
    predicate ResizeShowsSizingCursor()
      reads this`resizeStarted, this`resizePreviousStarted, this`sizingCursor
    {
      resizeStarted || resizePreviousStarted ==> sizingCursor
    }

    function State(): SortState
      reads this`columns, this`sortDescriptions
    {
      SortState(columns, sortDescriptions)
    }

    constructor (table: Option<TableSettings>, columns: seq<Column>, sortDescriptions: seq<SortDescription>,
                 column: Option<nat>, previous: Option<nat>,
                 actualWidth: real, actualHeight: real, optionsButtonHeight: Option<real>)
      requires column.Some? ==> column.value < |columns|
      requires previous.Some? ==> previous.value < |columns|
      ensures Valid() && ResizeShowsSizingCursor()
      ensures this.table == table && this.columns == columns && this.sortDescriptions == sortDescriptions
      ensures this.column == column && this.previous == previous
      ensures this.actualWidth == actualWidth && this.actualHeight == actualHeight
      ensures this.optionsButtonHeight == optionsButtonHeight
      ensures !resizeStarted && !resizePreviousStarted && !sizingCursor
    {
      this.table, this.columns, this.sortDescriptions := table, columns, sortDescriptions;
      this.column, this.previous := column, previous;
      this.actualWidth, this.actualHeight, this.optionsButtonHeight := actualWidth, actualHeight, optionsButtonHeight;
      resizeStarted, resizePreviousStarted, sizingCursor := false, false, false;
    }

    predicate CanSort()
      requires Valid()
      reads this`table, this`columns, this`column, this`previous
    {
      table.Some? && table.value.canSortColumns && column.Some? && columns[column.value].canSort
    }

    predicate CanResize()
      requires Valid()
      reads this`table, this`columns, this`column, this`previous
    {
      table.Some? && table.value.canResizeColumns && column.Some? && columns[column.value].canResize
    }

    predicate CanFilter()
      requires Valid()
      reads this`table, this`columns, this`column, this`previous
    {
      table.Some? && table.value.canFilterColumns && column.Some? && columns[column.value].canFilter
    }

    /** The previous header's CanResize; it belongs to the same table. */
    predicate CanResizePrevious()
      requires Valid()
      reads this`table, this`columns, this`column, this`previous
    {
      table.Some? && table.value.canResizeColumns && previous.Some? && columns[previous.value].canResize
    }

    predicate CursorInRightResizeArea(p: PointerPoint)
      requires Valid()
      reads this`table, this`columns, this`column, this`previous, this`actualWidth, this`actualHeight, this`optionsButtonHeight
    {
      InRightResizeArea(actualWidth, actualHeight, if CanFilter() then optionsButtonHeight.GetOr(0.0) else 0.0, p)
    }

    predicate CursorInLeftResizeArea(p: PointerPoint)
      reads this`actualHeight
    {
      InLeftResizeArea(actualHeight, p)
    }

    /** The table's ClearAllSortingWithEvent, as this header calls it. */
    method ClearAllSortingWithEvent(handled: bool)
      requires Valid()
      modifies this`columns, this`sortDescriptions
      ensures Valid()
      ensures State() == if handled then old(State()) else ClearAllSorting(old(State()))
    {
      if !handled {
        var cleared := ClearAllSorting(State());
        columns, sortDescriptions := cleared.columns, cleared.descriptions;
      }
    }

    method ClearSortingWithEvent(handled: bool)
      requires Valid()
      modifies this`columns, this`sortDescriptions
      ensures Valid()
      ensures State() == if !handled && old(CanSort()) then ClearColumnSorting(old(State()), column.value) else old(State())
    {
      if handled {
        return;
      }
      if CanSort() {
        var c := column.value;
        columns := columns[c := Unsorted(columns[c])];
        sortDescriptions := WithoutColumn(sortDescriptions, c);
      }
    }

    method DoSort(direction: Option<SortDirection>, singleSorting: bool, clearHandled: bool)
      requires Valid()
      modifies this`columns, this`sortDescriptions
      ensures Valid()
      ensures State() == if old(CanSort()) then SortColumn(old(State()), column.value, direction, singleSorting, clearHandled)
                         else old(State())
    {
      if CanSort() {
        var c := column.value;
        if singleSorting {
          ClearAllSortingWithEvent(clearHandled);
        } else {
          ClearSortingWithEvent(clearHandled);
        }
        if direction.None? {
          return;
        }
        columns := columns[c := columns[c].(sortDirection := direction)];
        sortDescriptions := sortDescriptions + [ColumnSort(c, columns[c].propertyPath, direction.value)];
      }
    }

    /**
     * A tap: `ctrl` is the Ctrl key's state, `sortingHandled` what the Sorting
     * event's handlers answered, `clearHandled` what the ClearSorting event's did.
     */
    method OnTapped(ctrl: KeyStates, sortingHandled: bool, clearHandled: bool)
      requires Valid()
      modifies this`columns, this`sortDescriptions
      ensures Valid()
      ensures State() ==
              if old(CanSort()) && !sizingCursor && !sortingHandled
              then SortColumn(old(State()), column.value, NextSortDirection(old(columns)[column.value].sortDirection),
                              !IsCtrlDown(ctrl), clearHandled)
              else old(State())
    {
      if CanSort() && !sizingCursor {
        if !sortingHandled {
          DoSort(NextSortDirection(columns[column.value].sortDirection), !IsCtrlDown(ctrl), clearHandled);
        }
      }
    }

    method OnPointerMoved(p: PointerPoint)
      requires Valid()
      modifies this`sizingCursor
      ensures sizingCursor ==
              if (CanResize() && CursorInRightResizeArea(p)) || (CanResizePrevious() && CursorInLeftResizeArea(p)) then true
              else if !resizeStarted && !resizePreviousStarted then false
              else old(sizingCursor)
      ensures old(sizingCursor) && !sizingCursor ==> !resizeStarted && !resizePreviousStarted
      ensures old(ResizeShowsSizingCursor()) ==> ResizeShowsSizingCursor()
    {
      if CanResize() && CursorInRightResizeArea(p) {
        sizingCursor := true;
      } else if CanResizePrevious() && CursorInLeftResizeArea(p) {
        sizingCursor := true;
      } else if !resizeStarted && !resizePreviousStarted {
        sizingCursor := false;
      }
    }

    method OnPointerPressed(p: PointerPoint)
      requires Valid()
      modifies this`resizeStarted, this`resizePreviousStarted
      ensures var right := sizingCursor && CanResize() && CursorInRightResizeArea(p);
              var left := sizingCursor && !right && CursorInLeftResizeArea(p);
              resizeStarted == (old(resizeStarted) || right) &&
              resizePreviousStarted == (old(resizePreviousStarted) || left)
      // at most one resize starts, and only under the sizing cursor
      ensures !(resizeStarted != old(resizeStarted) && resizePreviousStarted != old(resizePreviousStarted))
      ensures (resizeStarted != old(resizeStarted) || resizePreviousStarted != old(resizePreviousStarted)) ==> sizingCursor
      ensures old(ResizeShowsSizingCursor()) ==> ResizeShowsSizingCursor()
    {
      if sizingCursor && CanResize() && CursorInRightResizeArea(p) {
        resizeStarted := true;
      } else if sizingCursor && CursorInLeftResizeArea(p) {
        resizePreviousStarted := true;
      }
    }

    /** A drag step; `x` is the manipulation's position relative to the header. */
    method OnManipulationDelta(x: real)
      requires Valid()
      modifies this`columns
      ensures Valid()
      ensures columns ==
              if column.None? || table.None? then old(columns)
              else if resizeStarted then
                WithWidth(old(columns), column.value,
                          DragWidth(x, EffectiveMinWidth(old(columns)[column.value], table.value),
                                       EffectiveMaxWidth(old(columns)[column.value], table.value)))
              else if resizePreviousStarted && previous.Some? then
                WithWidth(old(columns), previous.value,
                          DragWidth(old(columns)[previous.value].actualWidth + x,
                                    EffectiveMinWidth(old(columns)[previous.value], table.value),
                                    EffectiveMaxWidth(old(columns)[previous.value], table.value)))
              else old(columns)
    {
      if column.None? || table.None? {
        return;
      }
      var t := table.value;
      if resizeStarted {
        var c := column.value;
        var minWidth := EffectiveMinWidth(columns[c], t);
        var maxWidth := EffectiveMaxWidth(columns[c], t);
        var width := x;
        width := if width < minWidth then minWidth else width;
        width := if maxWidth.Pixels? && width > maxWidth.value then maxWidth.value else width;
        columns := columns[c := columns[c].(width := width)];
      } else if resizePreviousStarted && previous.Some? {
        var h := previous.value;
        var minWidth := EffectiveMinWidth(columns[h], t);
        var maxWidth := EffectiveMaxWidth(columns[h], t);
        var width := columns[h].actualWidth + x;
        width := if width < minWidth then minWidth else width;
        width := if maxWidth.Pixels? && width > maxWidth.value then maxWidth.value else width;
        columns := columns[h := columns[h].(width := width)];
      }
    }

    method OnManipulationCompleted()
      modifies this`resizeStarted, this`resizePreviousStarted
      ensures !resizeStarted && !resizePreviousStarted
      ensures ResizeShowsSizingCursor()
    {
      resizeStarted := false;
      resizePreviousStarted := false;
    }

    method OnPointerReleased()
      modifies this`resizeStarted, this`resizePreviousStarted
      ensures !resizeStarted && !resizePreviousStarted
      ensures ResizeShowsSizingCursor()
    {
      resizeStarted := false;
      resizePreviousStarted := false;
    }

    /** A double-tap at `x` from the header's left edge fits a column to its content. */
    method OnDoubleTapped(x: real) returns (outcome: Outcome<ClampError>)
      requires Valid()
      modifies this`columns
      ensures Valid()
      ensures !sizingCursor || table.None? ==> outcome == Pass && columns == old(columns)
      ensures sizingCursor && table.Some? ==>
              var target := if x <= 8.0 && previous.Some? then previous else column;
              && (target.None? ==> outcome == Pass && columns == old(columns))
              && (target.Some? && FitWidth(old(columns)[target.value], table.value).Success? ==>
                    outcome == Pass &&
                    columns == WithWidth(old(columns), target.value, FitWidth(old(columns)[target.value], table.value).value))
              && (target.Some? && FitWidth(old(columns)[target.value], table.value).Failure? ==>
                    outcome == Fail(ArgumentException) && columns == old(columns))
    {
      if !sizingCursor || table.None? {
        return Pass;
      }
      var t := table.value;
      var target := if x <= 8.0 && previous.Some? then previous else column;
      if target.None? {
        return Pass;
      }
      var i := target.value;
      var fitted := MathClamp(columns[i].desiredWidth, EffectiveMinWidth(columns[i], t), EffectiveMaxWidth(columns[i], t));
      if fitted.Failure? {
        return Fail(fitted.error);
      }
      columns := columns[i := columns[i].(width := fitted.value)];
      return Pass;
    }
  }
}
