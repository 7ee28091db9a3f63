# MAUI.TableView: header interaction, tree search and grid-line rules in Dafny

This project models the self-contained rules of the WinUI table control that
MAUI.TableView wraps on Windows:

- **Column header** (`ColumnHeader`, `column_header.dfy`). A tap cycles the
  column's sort direction (ascending, descending, none). The table's ordered
  list of sort descriptions changes with it: a plain tap clears all sorting
  first, a Ctrl-tap clears only this column. The Sorting and ClearSorting
  notifications can be handled; the model takes both answers as inputs. The
  resize state machine is a class: two resize flags and the sizing cursor,
  hit areas at the header's edges, drag widths and double-tap fitting. Widths
  are bounded by the column's own limits, else the table's.
- **Visual-tree search** (`VisualTree`, `visual_tree.dfy`). `FindDescendant`,
  `FindDescendants`, `FindAscendant`, `FindAscendants` and the `...OrSelf`
  variants run over a finite tree of elements. An element is named by its
  path of child indices from the root. The source has five predicate structs:
  PredicateByName, PredicateByAny, PredicateByType, PredicateByFunc<T> and
  PredicateByFunc<T, TState>. They are the four constructors of `Query`; both
  PredicateByFunc structs become `ByFunc`, with the state captured in its
  function.
- **Type classification** (`TypeExtensions`, `type_extensions.dfy`). The
  `Is*` tests and `GetNonNullableType` run over a datatype of type tags with
  a `Nullable(t)` constructor.
- **Selection helpers** (`ListViewExtensions`, `list_view_extensions.dfy`).
  `DeselectItem`, `DeselectAll` and `SelectAllSafe` act per selection mode
  on a list holding a selected item and a set of selected indices.
- **Cells presenter grid lines** (`CellsPresenter`, `cells_presenter.dfy`).
  `EnsureGridLines` decides the two lines' fill, size and visibility from the
  two grid-lines settings, then visits every cell.
- **BoolToVisibilityConverter** (`bool_to_visibility_converter.dfy`).

`wrappers.dfy` holds Option, Result and Outcome. `xaml.dfy` holds Visibility.

The table's `ClearAllSortingWithEvent` is not part of this model. The header
calls it, and the model assumes this of it: unless its event is handled,
every column loses its direction and the whole description list is emptied,
descriptions by path alone included (`ColumnHeader.ClearAllSorting`). This is
an assumption about code outside the model, not a proved property.
`GetPreviousHeader` is modelled by the `previous` field: the index of the
column of the header to the left, when there is such a header and it has a
column.

## Model

| member | source | states |
|---|---|---|
| `ColumnHeader.NextSortDirection` | YB.MauiDataGridView/Platforms/Windows/WinUITable/TableViewColumnHeader.cs:172-180 | The next direction is never the current one, and it is none exactly after Descending |
| `ColumnHeader.IsCtrlDown` | YB.MauiDataGridView/Platforms/Windows/WinUITable/TableViewColumnHeader.cs:157-158 | Definition: the key state is Down or Down together with Locked; CtrlDownIgnoresLock states what it means |
| `ColumnHeader.ResizeMargin` | YB.MauiDataGridView/Platforms/Windows/WinUITable/TableViewColumnHeader.cs:329-345 | Definition: 8 px for touch, 4 px otherwise; TouchWidensResizeAreas states its effect |
| `ColumnHeader.InRightResizeArea` | YB.MauiDataGridView/Platforms/Windows/WinUITable/TableViewColumnHeader.cs:329-335 | Definition: within the margin of the right edge and above the options button's height; ResizeAreasDisjoint and OptionsButtonShrinksRightArea state its properties |
| `ColumnHeader.InLeftResizeArea` | YB.MauiDataGridView/Platforms/Windows/WinUITable/TableViewColumnHeader.cs:340-345 | Definition: within the margin of the left edge and above the header's bottom; ResizeAreasDisjoint states its relation to the right area |
| `ColumnHeader.ClearColumnSorting` | YB.MauiDataGridView/Platforms/Windows/WinUITable/TableViewColumnHeader.cs:117-122 | Only column c loses its direction, every description of c is removed and no other description is |
| `ColumnHeader.SortColumn` | YB.MauiDataGridView/Platforms/Windows/WinUITable/TableViewColumnHeader.cs:77-102 | Only sort directions change; the column ends with the requested direction unless a handled clear meets no direction; a handled clear keeps the old list as a prefix; at most one description is added |
| `ColumnHeader.TableViewColumnHeader.CanSort` | YB.MauiDataGridView/Platforms/Windows/WinUITable/TableViewColumnHeader.cs:497 | Definition: table present and sortable, column present and sortable; it guards DoSort, OnTapped and ClearSortingWithEvent |
| `ColumnHeader.TableViewColumnHeader.CanResize` | YB.MauiDataGridView/Platforms/Windows/WinUITable/TableViewColumnHeader.cs:492 | Definition: table present and resizable, column present and resizable; it guards the right resize area |
| `ColumnHeader.TableViewColumnHeader.CanFilter` | YB.MauiDataGridView/Platforms/Windows/WinUITable/TableViewColumnHeader.cs:502 | Definition: table present and filterable, column present and filterable; it decides whether the options button shortens the right area |
| `ColumnHeader.TableViewColumnHeader.CanResizePrevious` | YB.MauiDataGridView/Platforms/Windows/WinUITable/TableViewColumnHeader.cs:507 | Definition: the previous header's CanResize, on the same table; it guards the left resize area |
| `ColumnHeader.TableViewColumnHeader.CursorInRightResizeArea` | YB.MauiDataGridView/Platforms/Windows/WinUITable/TableViewColumnHeader.cs:329-335 | Definition: InRightResizeArea with the options button's height counted only when the column can filter |
| `ColumnHeader.TableViewColumnHeader.CursorInLeftResizeArea` | YB.MauiDataGridView/Platforms/Windows/WinUITable/TableViewColumnHeader.cs:340-345 | Definition: InLeftResizeArea for this header's height |
| `ColumnHeader.SortCycleHasPeriodThree` | YB.MauiDataGridView/Platforms/Windows/WinUITable/TableViewColumnHeader.cs:172-180 | The next direction is never the current one, and three taps bring back any starting state |
| `ColumnHeader.CtrlDownIgnoresLock` | YB.MauiDataGridView/Platforms/Windows/WinUITable/TableViewColumnHeader.cs:157-158 | Ctrl counts as held exactly when its Down flag is set, whatever the Locked flag |
| `ColumnHeader.WithoutColumn` | YB.MauiDataGridView/Platforms/Windows/WinUITable/TableViewColumnHeader.cs:121 | RemoveWhere on a column removes as many entries as the column has and leaves none of them |
| `ColumnHeader.CountForAppend` | YB.MauiDataGridView/Platforms/Windows/WinUITable/TableViewColumnHeader.cs:97 | Counting a column's descriptions distributes over concatenation, so Add adds one |
| `ColumnHeader.WithoutColumnAppend` | YB.MauiDataGridView/Platforms/Windows/WinUITable/TableViewColumnHeader.cs:121 | Removal distributes over concatenation: the remaining descriptions keep their order |
| `ColumnHeader.WithoutColumnNoop` | YB.MauiDataGridView/Platforms/Windows/WinUITable/TableViewColumnHeader.cs:121 | A list with no description for the column is left exactly as it is |
| `ColumnHeader.WithoutColumnCounts` | YB.MauiDataGridView/Platforms/Windows/WinUITable/TableViewColumnHeader.cs:121 | After removal the column has no description and every other column keeps its count |
| `ColumnHeader.WithoutColumnKeeps` | YB.MauiDataGridView/Platforms/Windows/WinUITable/TableViewColumnHeader.cs:121 | Every description of another column survives RemoveWhere in place: after what is kept of the entries before it and before what is kept of the entries after it |
| `ColumnHeader.WithoutColumnIdempotent` | YB.MauiDataGridView/Platforms/Windows/WinUITable/TableViewColumnHeader.cs:121 | Removing a column's descriptions twice is removing them once |
| `ColumnHeader.ClearAllSorting` | YB.MauiDataGridView/Platforms/Windows/WinUITable/TableViewColumnHeader.cs:83 | Clearing all sorting empties the description list and unsorts every column, changing nothing else in them |
| `ColumnHeader.SortColumnAppendsOne` | YB.MauiDataGridView/Platforms/Windows/WinUITable/TableViewColumnHeader.cs:77-101 | With a direction, DoSort gives the column that direction and ends the list with one new description (column, path, direction) |
| `ColumnHeader.SingleSortReplacesAll` | YB.MauiDataGridView/Platforms/Windows/WinUITable/TableViewColumnHeader.cs:81-98 | A sort without Ctrl leaves exactly one description and only the sorted column with a direction |
| `ColumnHeader.SingleSortToNoneClearsAll` | YB.MauiDataGridView/Platforms/Windows/WinUITable/TableViewColumnHeader.cs:81-93 | A plain tap that cycles to no direction empties the description list and leaves every column unsorted, changing nothing else in them |
| `ColumnHeader.HandledClearKeepsOtherColumns` | YB.MauiDataGridView/Platforms/Windows/WinUITable/TableViewColumnHeader.cs:81-115 | When the clear event is handled, every other column keeps its state, and with no direction the whole sort state is unchanged |
| `ColumnHeader.MultiSortKeepsOtherColumns` | YB.MauiDataGridView/Platforms/Windows/WinUITable/TableViewColumnHeader.cs:85-123 | A Ctrl sort changes only this column's direction; the list is every other description, path-only ones included, unchanged and in its old order, followed by the column's new description when it gets a direction; the column ends with one description then and none otherwise |
| `ColumnHeader.HandledClearStillAppends` | YB.MauiDataGridView/Platforms/Windows/WinUITable/TableViewColumnHeader.cs:85-115 | When the clear event is handled nothing is removed, yet DoSort appends, so the column gains one more description |
| `ColumnHeader.Tap` | YB.MauiDataGridView/Platforms/Windows/WinUITable/TableViewColumnHeader.cs:153-170 | An unhandled tap gives the tapped column the next direction and keeps the number of columns |
| `ColumnHeader.ThreeTapsRestoreDirection` | YB.MauiDataGridView/Platforms/Windows/WinUITable/TableViewColumnHeader.cs:153-180 | Three unhandled taps with the same modifier restore the tapped column's direction |
| `ColumnHeader.TouchWidensResizeAreas` | YB.MauiDataGridView/Platforms/Windows/WinUITable/TableViewColumnHeader.cs:329-345 | A touch pointer is inside each resize area wherever a precise pointer would be |
| `ColumnHeader.ResizeAreasDisjoint` | YB.MauiDataGridView/Platforms/Windows/WinUITable/TableViewColumnHeader.cs:329-345 | On a header wider than two margins, no point lies in both resize areas |
| `ColumnHeader.OptionsButtonShrinksRightArea` | YB.MauiDataGridView/Platforms/Windows/WinUITable/TableViewColumnHeader.cs:329-335 | The options button only removes points from the right resize area |
| `ColumnHeader.DragWidth` | YB.MauiDataGridView/Platforms/Windows/WinUITable/TableViewColumnHeader.cs:419-440 | A dragged width is the pointer width when in range, the minimum below it and the maximum above it; it never exceeds the maximum, and with crossed bounds the maximum wins |
| `ColumnHeader.MathClamp` | YB.MauiDataGridView/Platforms/Windows/WinUITable/TableViewColumnHeader.cs:360-372 | Math.Clamp fails exactly when min > max; otherwise it gives min for a value below min, max for a value above max and the value itself in range |
| `ColumnHeader.DragAndClampAgree` | YB.MauiDataGridView/Platforms/Windows/WinUITable/TableViewColumnHeader.cs:347-441 | Drag and double-tap bound a width alike when min <= max; with crossed bounds the drag yields the maximum and the double-tap throws |
| `ColumnHeader.TableViewColumnHeader.ClearAllSortingWithEvent` | YB.MauiDataGridView/Platforms/Windows/WinUITable/TableViewColumnHeader.cs:83 | Unless handled, the sort state becomes ClearAllSorting of the old state; handled, it is unchanged |
| `ColumnHeader.TableViewColumnHeader.ClearSortingWithEvent` | YB.MauiDataGridView/Platforms/Windows/WinUITable/TableViewColumnHeader.cs:107-123 | Handled or not sortable: nothing changes; otherwise this column is unsorted and its descriptions removed |
| `ColumnHeader.TableViewColumnHeader.DoSort` | YB.MauiDataGridView/Platforms/Windows/WinUITable/TableViewColumnHeader.cs:77-102 | When sorting is allowed the new sort state is SortColumn of the old one for this column, direction, modifier and clear answer; otherwise it is unchanged |
| `ColumnHeader.TableViewColumnHeader.OnTapped` | YB.MauiDataGridView/Platforms/Windows/WinUITable/TableViewColumnHeader.cs:153-170 | The state changes only if sorting is allowed, the sizing cursor is off and Sorting is not handled, and then as DoSort with the next direction and single sorting unless Ctrl is held |
| `ColumnHeader.TableViewColumnHeader.OnPointerMoved` | YB.MauiDataGridView/Platforms/Windows/WinUITable/TableViewColumnHeader.cs:376-392 | The cursor is set in an allowed resize area, cleared only when no resize is in progress, and a resize in progress keeps it |
| `ColumnHeader.TableViewColumnHeader.OnPointerPressed` | YB.MauiDataGridView/Platforms/Windows/WinUITable/TableViewColumnHeader.cs:394-408 | At most one resize starts, only under the sizing cursor, the right edge first and only when resizable |
| `ColumnHeader.TableViewColumnHeader.OnManipulationDelta` | YB.MauiDataGridView/Platforms/Windows/WinUITable/TableViewColumnHeader.cs:410-441 | During a right resize this column's width becomes DragWidth of the pointer; during a left resize the previous column's becomes DragWidth of its actual width plus the pointer; nothing else changes |
| `ColumnHeader.TableViewColumnHeader.OnManipulationCompleted` | YB.MauiDataGridView/Platforms/Windows/WinUITable/TableViewColumnHeader.cs:443-449 | Both resize flags are cleared |
| `ColumnHeader.TableViewColumnHeader.OnPointerReleased` | YB.MauiDataGridView/Platforms/Windows/WinUITable/TableViewColumnHeader.cs:451-457 | Both resize flags are cleared |
| `ColumnHeader.TableViewColumnHeader.OnDoubleTapped` | YB.MauiDataGridView/Platforms/Windows/WinUITable/TableViewColumnHeader.cs:347-374 | Only under the sizing cursor with a table: at x <= 8 with a previous column that column, else this column, gets Math.Clamp of its desired width, or the call fails with ArgumentException and nothing changes |
| `VisualTree.Matches` | YB.MauiDataGridView/Platforms/Windows/WinUITable/Extensions/TypeExtensions.cs:707-858 | Definition: each predicate struct's Match together with the type test `is T`; the Predicate lemmas below state its cases |
| `VisualTree.PredicateByAnyAlwaysMatches` | YB.MauiDataGridView/Platforms/Windows/WinUITable/Extensions/TypeExtensions.cs:707-716 | PredicateByAny matches every element of type T |
| `VisualTree.PredicateByTypeIsExact` | YB.MauiDataGridView/Platforms/Windows/WinUITable/Extensions/TypeExtensions.cs:802-824 | PredicateByType rejects an element of another runtime type even when the type test of a supertype would accept it |
| `VisualTree.PredicateByNameNeedsName` | YB.MauiDataGridView/Platforms/Windows/WinUITable/Extensions/TypeExtensions.cs:829-858 | PredicateByName never matches an element whose Name is null |
| `VisualTree.FirstMatchNoneIff` | YB.MauiDataGridView/Platforms/Windows/WinUITable/Extensions/TypeExtensions.cs:297-325 | The first match of a list of elements is null exactly when none of them matches |
| `VisualTree.FirstMatchIndex` | YB.MauiDataGridView/Platforms/Windows/WinUITable/Extensions/TypeExtensions.cs:297-325 | Otherwise it is the element at an index that matches, with no match before that index |
| `VisualTree.FindDescendants` | YB.MauiDataGridView/Platforms/Windows/WinUITable/Extensions/TypeExtensions.cs:439-454 | Every element yielded is a valid strict descendant |
| `VisualTree.DescendantsPreOrdered` | YB.MauiDataGridView/Platforms/Windows/WinUITable/Extensions/TypeExtensions.cs:439-454 | The descendants come in pre-order: each node before its subtree, children left to right |
| `VisualTree.DescendantsComplete` | YB.MauiDataGridView/Platforms/Windows/WinUITable/Extensions/TypeExtensions.cs:439-454 | Every strict descendant is yielded |
| `VisualTree.DescendantsDistinct` | YB.MauiDataGridView/Platforms/Windows/WinUITable/Extensions/TypeExtensions.cs:439-454 | No descendant is yielded twice |
| `VisualTree.FindDescendant` | YB.MauiDataGridView/Platforms/Windows/WinUITable/Extensions/TypeExtensions.cs:297-325 | The recursive depth-first search answers the first match among FindDescendants |
| `VisualTree.FindDescendantNoneIff` | YB.MauiDataGridView/Platforms/Windows/WinUITable/Extensions/TypeExtensions.cs:297-325 | FindDescendant answers null exactly when no strict descendant matches |
| `VisualTree.FindDescendantIsFirstInPreOrder` | YB.MauiDataGridView/Platforms/Windows/WinUITable/Extensions/TypeExtensions.cs:297-325 | Otherwise its answer is a matching strict descendant and no descendant before it in pre-order matches |
| `VisualTree.FindDescendantOrSelf` | YB.MauiDataGridView/Platforms/Windows/WinUITable/Extensions/TypeExtensions.cs:412-425 | The start element when it matches, else FindDescendant's answer |
| `VisualTree.Ancestors` | YB.MauiDataGridView/Platforms/Windows/WinUITable/Extensions/TypeExtensions.cs:687-702 | The parent chain has one entry per level, nearest first, ending at the root |
| `VisualTree.FindAscendants` | YB.MauiDataGridView/Platforms/Windows/WinUITable/Extensions/TypeExtensions.cs:687-702 | The while loop yields exactly the parent chain |
| `VisualTree.FindAscendant` | YB.MauiDataGridView/Platforms/Windows/WinUITable/Extensions/TypeExtensions.cs:549-573 | The while loop answers the first match along the parent chain |
| `VisualTree.FindAscendantOrSelf` | YB.MauiDataGridView/Platforms/Windows/WinUITable/Extensions/TypeExtensions.cs:660-673 | The start element when it matches, else FindAscendant's answer |
| `VisualTree.FindAscendantNoneIff` | YB.MauiDataGridView/Platforms/Windows/WinUITable/Extensions/TypeExtensions.cs:549-573 | FindAscendant answers null exactly when no strict ancestor matches |
| `VisualTree.FindAscendantIsNearest` | YB.MauiDataGridView/Platforms/Windows/WinUITable/Extensions/TypeExtensions.cs:549-573 | Otherwise its answer is a matching strict ancestor and no ancestor between it and the element matches |
| `TypeExtensions.IsBoolean` | YB.MauiDataGridView/Platforms/Windows/WinUITable/Extensions/TypeExtensions.cs:19-22 | Definition: bool or bool?; ClassifiersSeeThroughNullable, NullTypeIsNothing and NullableHidesPrimitiveAndComparable state its properties |
| `TypeExtensions.IsNumeric` | YB.MauiDataGridView/Platforms/Windows/WinUITable/Extensions/TypeExtensions.cs:29-42 | Definition: one of the eleven numeric types or its Nullable form; ClassifiersSeeThroughNullable, NullTypeIsNothing and NullableHidesPrimitiveAndComparable state its properties |
| `TypeExtensions.IsTimeSpan` | YB.MauiDataGridView/Platforms/Windows/WinUITable/Extensions/TypeExtensions.cs:49-52 | Definition: a non-null TimeSpan or TimeSpan?; ClassifiersSeeThroughNullable, NullTypeIsNothing and NullableHidesPrimitiveAndComparable state its properties |
| `TypeExtensions.IsTimeOnly` | YB.MauiDataGridView/Platforms/Windows/WinUITable/Extensions/TypeExtensions.cs:59-62 | Definition: a non-null TimeOnly or TimeOnly?; ClassifiersSeeThroughNullable, NullTypeIsNothing and NullableHidesPrimitiveAndComparable state its properties |
| `TypeExtensions.IsDateOnly` | YB.MauiDataGridView/Platforms/Windows/WinUITable/Extensions/TypeExtensions.cs:69-72 | Definition: a non-null DateOnly or DateOnly?; ClassifiersSeeThroughNullable, NullTypeIsNothing and NullableHidesPrimitiveAndComparable state its properties |
| `TypeExtensions.IsDateTime` | YB.MauiDataGridView/Platforms/Windows/WinUITable/Extensions/TypeExtensions.cs:79-82 | Definition: a non-null DateTime or DateTime?; ClassifiersSeeThroughNullable, NullTypeIsNothing and NullableHidesPrimitiveAndComparable state its properties |
| `TypeExtensions.IsDateTimeOffset` | YB.MauiDataGridView/Platforms/Windows/WinUITable/Extensions/TypeExtensions.cs:89-92 | Definition: a non-null DateTimeOffset or DateTimeOffset?; ClassifiersSeeThroughNullable, NullTypeIsNothing and NullableHidesPrimitiveAndComparable state its properties |
| `TypeExtensions.IsNullableType` | YB.MauiDataGridView/Platforms/Windows/WinUITable/Extensions/TypeExtensions.cs:97-100 | Definition: a non-null Nullable type; ClassifiersSeeThroughNullable, NullTypeIsNothing and NullableHidesPrimitiveAndComparable state its properties |
| `TypeExtensions.IsPrimitive` | YB.MauiDataGridView/Platforms/Windows/WinUITable/Extensions/TypeExtensions.cs:113-120 | Definition: a non-null type that is a CLR primitive, string, decimal or DateTime; ClassifiersSeeThroughNullable, NullTypeIsNothing and NullableHidesPrimitiveAndComparable state its properties |
| `TypeExtensions.IsInheritedFromIComparable` | YB.MauiDataGridView/Platforms/Windows/WinUITable/Extensions/TypeExtensions.cs:125-128 | Definition: a type implementing IComparable; ClassifiersSeeThroughNullable, NullTypeIsNothing and NullableHidesPrimitiveAndComparable state its properties |
| `TypeExtensions.GetNonNullableType` | YB.MauiDataGridView/Platforms/Windows/WinUITable/Extensions/TypeExtensions.cs:105-108 | Nullable(u) gives u and every other type is returned as it is; a well-formed input yields a non-nullable type |
| `TypeExtensions.ClassifiersSeeThroughNullable` | YB.MauiDataGridView/Platforms/Windows/WinUITable/Extensions/TypeExtensions.cs:19-92 | Each of IsBoolean, IsNumeric, IsTimeSpan, IsTimeOnly, IsDateOnly, IsDateTime, IsDateTimeOffset accepts a type exactly when its non-nullable form is the named type |
| `TypeExtensions.NullTypeIsNothing` | YB.MauiDataGridView/Platforms/Windows/WinUITable/Extensions/TypeExtensions.cs:49-120 | Every test that takes a nullable Type answers false for null |
| `TypeExtensions.GetNonNullableTypeIdempotent` | YB.MauiDataGridView/Platforms/Windows/WinUITable/Extensions/TypeExtensions.cs:105-108 | On a well-formed type, stripping Nullable twice is stripping it once |
| `TypeExtensions.NestedNullableNotIdempotent` | YB.MauiDataGridView/Platforms/Windows/WinUITable/Extensions/TypeExtensions.cs:105-108 | Without well-formedness idempotence fails: a nested Nullable loses one layer per call |
| `TypeExtensions.NullableHidesPrimitiveAndComparable` | YB.MauiDataGridView/Platforms/Windows/WinUITable/Extensions/TypeExtensions.cs:113-128 | IsPrimitive and IsInheritedFromIComparable do not look through Nullable |
| `ListViewExtensions.IndexRange` | YB.MauiDataGridView/Platforms/Windows/WinUITable/Extensions/TypeExtensions.cs:172-175 | An ItemIndexRange(first, length) covers exactly the indices first to first + length - 1 |
| `ListViewExtensions.ListView.DeselectItem` | YB.MauiDataGridView/Platforms/Windows/WinUITable/Extensions/TypeExtensions.cs:143-160 | Single: the selection is cleared only if it is the item; Multiple and Extended: exactly the item's index is deselected; None: nothing changes |
| `ListViewExtensions.ListView.DeselectAll` | YB.MauiDataGridView/Platforms/Windows/WinUITable/Extensions/TypeExtensions.cs:166-178 | Single: no selected item; Multiple and Extended: no index in [0, count) stays selected and nothing else changes; None: nothing changes |
| `ListViewExtensions.ListView.SelectAllSafe` | YB.MauiDataGridView/Platforms/Windows/WinUITable/Extensions/TypeExtensions.cs:184-196 | Single: the first item or null when empty; Multiple and Extended: every index in [0, count) becomes selected and nothing else changes; None: nothing changes |
| `CellsPresenter.HorizontalLineVisibility` | YB.MauiDataGridView/Platforms/Windows/WinUITable/TableViewCellsPresenter.cs:53-54 | The horizontal line is visible exactly when the body setting asks for horizontal lines |
| `CellsPresenter.VerticalLineVisibility` | YB.MauiDataGridView/Platforms/Windows/WinUITable/TableViewCellsPresenter.cs:61-63 | The vertical line is visible exactly when the header or the body setting asks for vertical lines |
| `CellsPresenter.VerticalLineFill` | YB.MauiDataGridView/Platforms/Windows/WinUITable/TableViewCellsPresenter.cs:58-59 | The vertical fill is the table's stroke when the header setting asks for vertical lines, else transparent |
| `CellsPresenter.VerticalFillOnlyWhenVisible` | YB.MauiDataGridView/Platforms/Windows/WinUITable/TableViewCellsPresenter.cs:58-63 | A stroked vertical line is always visible |
| `CellsPresenter.BodyOnlyVerticalIsTransparent` | YB.MauiDataGridView/Platforms/Windows/WinUITable/TableViewCellsPresenter.cs:58-63 | With vertical lines asked only by the body setting, the line is visible and transparent |
| `CellsPresenter.Cells` | YB.MauiDataGridView/Platforms/Windows/WinUITable/TableViewCellsPresenter.cs:81 | Cells holds exactly the children that are cells, no more than there are children |
| `CellsPresenter.CellsAppend` | YB.MauiDataGridView/Platforms/Windows/WinUITable/TableViewCellsPresenter.cs:81 | Cells distributes over concatenation of children, so it keeps their order |
| `CellsPresenter.CellsOfOnlyCells` | YB.MauiDataGridView/Platforms/Windows/WinUITable/TableViewCellsPresenter.cs:81 | When every child is a cell, Cells lists all of them in order |
| `CellsPresenter.TableViewCellsPresenter.EnsureGridLines` | YB.MauiDataGridView/Platforms/Windows/WinUITable/TableViewCellsPresenter.cs:45-71 | Without a table nothing changes; otherwise the horizontal line is set, the vertical one only when the horizontal exists, then each cell is visited once in order, or a missing stack panel throws |
| `BoolToVisibilityConverter.Convert` | YB.MauiDataGridView/Platforms/Windows/WinUITable/Converters/BoolToVisibilityConverter.cs:8-11 | The result is Visible exactly when the value is a boxed true |
| `BoolToVisibilityConverter.ConvertBack` | YB.MauiDataGridView/Platforms/Windows/WinUITable/Converters/BoolToVisibilityConverter.cs:13-16 | Always fails with NotImplementedException |
| `BoolToVisibilityConverter.ConvertCollapsesEverythingElse` | YB.MauiDataGridView/Platforms/Windows/WinUITable/Converters/BoolToVisibilityConverter.cs:8-11 | A boxed false, null and any non-bool value collapse |
| `BoolToVisibilityConverter.ConvertIgnoresContext` | YB.MauiDataGridView/Platforms/Windows/WinUITable/Converters/BoolToVisibilityConverter.cs:8-11 | The result does not depend on target type, parameter or language |

## Left out

- Widths are IEEE doubles in the source and `real` here. NaN and rounding are not modelled. An infinite maximum width is `Unbounded`.
- Width is a GridLength in the source. Only its pixel value is modelled; star and auto widths are not.
- Visual states, the options flyout and the filter handler of the header are not modelled. They act through a view model and a filter handler that are not part of this model.
- The header's own `EnsureGridLines` (its vertical line) is not modelled. It applies the same rule as `CellsPresenter.VerticalLineFill` and `CellsPresenter.VerticalLineVisibility`.
- `OnWidthChanged`, which copies the header's Width into the column's ActualWidth, is not modelled. Each column's `actualWidth` is taken as given and is not updated when the header's width changes; the left-edge drag in `OnManipulationDelta` reads it as given.
- `OnPointerReleased` waits 100 ms and then reapplies the current cell's state. That asynchronous tail is not modelled.
- Pointer capture and its release are not modelled.
- `EnsureAlternateRowColors` only repaints rows and is not modelled.
- The table's `DeselectAll`, which `ClearSortingWithEvent` calls, is not modelled. Table selection is outside this model.
- `OnApplyTemplate` and the other template wiring of the header are not modelled. The class's constructor takes the state they produce as parameters.
- The host's Ctrl key state, pointer device, pointer position and event answers are parameters of the methods.
- The name search compares names ordinally. Other StringComparison modes are not modelled.
- `PredicateByFunc<T, TState>` is modelled by `ByFunc` with the state captured in its function.
- The runtime type test `is T` is modelled as membership of the element's runtime type in the set of types assignable to T.
- `DeselectItem`'s range for an index that is not in the list (-1) is modelled as removing that index from the set, which removes nothing.
- `ListViewExtensions.ListView.DeselectAll`, `ListViewExtensions.ListView.SelectAllSafe` and `ListViewExtensions.ListView.DeselectItem`: the selection of a Multiple or Extended list is modelled by the index set that SelectRange and DeselectRange edit, not by the framework's SelectedItems collection; in those modes the methods leave `selectedItem` as it was, so the framework's own synchronisation of SelectedItem with the ranges is not modelled.
- `TypeExtensions`: types outside the named built-in ones are an opaque `Other` tag with a value-type flag and an IComparable flag.
