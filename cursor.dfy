/**
 * The selection of ratatui's `ListState`, which `App` uses as its show cursor.
 *
 * ratatui is not part of this model. Its two moves are taken to behave as follows
 * (an assumption about the library, stated here once): `select_next` selects 0 when
 * nothing is selected and otherwise the next index, saturating at `usize::MAX`;
 * `select_previous` selects `usize::MAX` when nothing is selected and otherwise the
 * previous index, saturating at 0. Rendering a `List` of `count` items into a
 * non-empty area then clamps the selection to the list: with no items the
 * selection is cleared, and a selection past the end moves to the last item.
 */
module ListCursor {
  import opened Wrappers

  const USIZE_MAX: nat := 0xFFFF_FFFF_FFFF_FFFF

  type Index = i: nat | i <= USIZE_MAX

  function SelectNext(selected: Option<Index>): Option<Index> {
    match selected
    case None => Some(0)
    case Some(i) => Some(if i < USIZE_MAX then i + 1 else USIZE_MAX)
  }

  function SelectPrevious(selected: Option<Index>): Option<Index> {
    match selected
    case None => Some(USIZE_MAX)
    case Some(i) => Some(if 0 < i then i - 1 else 0)
  }

  /** Both moves always leave a selection, and move by at most one. */
  lemma MovesSelect(selected: Option<Index>)
    ensures SelectNext(selected).Some? && SelectPrevious(selected).Some?
    ensures selected.Some? ==>
      && selected.value <= SelectNext(selected).value <= selected.value + 1
      && selected.value - 1 <= SelectPrevious(selected).value <= selected.value
  {
  }

  /** Away from the two ends, each move undoes the other. */
  lemma MovesUndo(i: Index)
    ensures i < USIZE_MAX ==> SelectPrevious(SelectNext(Some(i))) == Some(i)
    ensures 0 < i ==> SelectNext(SelectPrevious(Some(i))) == Some(i)
  {
  }

  /** The selection after a `List` of `count` items is rendered with it. */
  function Clamp(selected: Option<Index>, count: nat): (r: Option<Index>)
    ensures r.Some? <==> selected.Some? && 0 < count
    ensures r.Some? ==> r.value < count
    ensures selected.Some? && selected.value < count ==> r == selected
    ensures selected.Some? && 0 < count <= selected.value ==> r == Some(count - 1)
  {
    if count == 0 then None
    else
      match selected
      case Some(i) => if count <= i then Some(count - 1) else selected
      case None => None
  }

  /** Rendering twice changes nothing the first render did not. */
  lemma ClampIdempotent(selected: Option<Index>, count: nat)
    ensures Clamp(Clamp(selected, count), count) == Clamp(selected, count)
  {
  }
}
