/**
 * The `ListViewExtensions` selection helpers, over a list whose selection is kept
 * as the single selected item (Single mode) and as the set of selected indices
 * that SelectRange and DeselectRange edit (Multiple and Extended modes).
 */
module ListViewExtensions {
  import W = Wrappers

  /** ListViewSelectionMode. */
  datatype SelectionMode = None | Single | Multiple | Extended

  /** The indices an ItemIndexRange(first, length) covers. */
  function IndexRange(first: int, length: nat): (r: set<int>)
    ensures forall i :: i in r <==> first <= i < first + length
    decreases length
  {
    if length == 0 then {} else {first} + IndexRange(first + 1, length - 1)
  }

  class ListView<Item(==)> {
    var selectionMode: SelectionMode
    var items: seq<Item>
    /** SelectedItem; None is null. */
    var selectedItem: W.Option<Item>
    /** The indices selected through the range operations. */
    var selectedIndices: set<int>

    constructor (mode: SelectionMode, items: seq<Item>)
      ensures selectionMode == mode && this.items == items
      ensures selectedItem == W.None && selectedIndices == {}
    {
      selectionMode, this.items := mode, items;
      selectedItem, selectedIndices := W.None, {};
    }

    /**
     * DeselectItem(item): `containerIndex` is what IndexFromContainer(item) answers
     * (-1 when the item is no container of this list).
     */
    method DeselectItem(item: Item, containerIndex: int)
      modifies this`selectedItem, this`selectedIndices
      ensures selectionMode == Single ==>
        selectedIndices == old(selectedIndices) &&
        selectedItem == (if old(selectedItem) == W.Some(item) then W.None else old(selectedItem))
      ensures (selectionMode == Multiple || selectionMode == Extended) ==>
        selectedItem == old(selectedItem) && selectedIndices == old(selectedIndices) - {containerIndex}
      ensures selectionMode == None ==>
        selectedItem == old(selectedItem) && selectedIndices == old(selectedIndices)
    {
      match selectionMode
      case Single =>
        if selectedItem == W.Some(item) {
          selectedItem := W.None;
        }
      case Multiple =>
        selectedIndices := selectedIndices - IndexRange(containerIndex, 1);
      case Extended =>
        selectedIndices := selectedIndices - IndexRange(containerIndex, 1);
      case None =>
    }

    method DeselectAll()
      modifies this`selectedItem, this`selectedIndices
      ensures selectionMode == Single ==> selectedItem == W.None && selectedIndices == old(selectedIndices)
      ensures (selectionMode == Multiple || selectionMode == Extended) ==>
        && selectedItem == old(selectedItem)
        && (forall i :: 0 <= i < |items| ==> i !in selectedIndices)
        && (forall i :: i in selectedIndices <==> i in old(selectedIndices) && !(0 <= i < |items|))
      ensures selectionMode == None ==>
        selectedItem == old(selectedItem) && selectedIndices == old(selectedIndices)
    {
      match selectionMode
      case Single =>
        selectedItem := W.None;
      case Multiple =>
        selectedIndices := selectedIndices - IndexRange(0, |items|);
      case Extended =>
        selectedIndices := selectedIndices - IndexRange(0, |items|);
      case None =>
    }

    method SelectAllSafe()
      modifies this`selectedItem, this`selectedIndices
      ensures selectionMode == Single ==>
        && selectedIndices == old(selectedIndices)
        && selectedItem == (if items == [] then W.None else W.Some(items[0]))
      ensures (selectionMode == Multiple || selectionMode == Extended) ==>
        && selectedItem == old(selectedItem)
        && (forall i :: 0 <= i < |items| ==> i in selectedIndices)
        && (forall i :: i in selectedIndices <==> i in old(selectedIndices) || 0 <= i < |items|)
      ensures selectionMode == None ==>
        selectedItem == old(selectedItem) && selectedIndices == old(selectedIndices)
    {
      match selectionMode
      case Single =>
        // Items.FirstOrDefault()
        selectedItem := if |items| == 0 then W.None else W.Some(items[0]);
      case Multiple =>
        selectedIndices := selectedIndices + IndexRange(0, |items|);
      case Extended =>
        selectedIndices := selectedIndices + IndexRange(0, |items|);
      case None =>
    }
  }
}
