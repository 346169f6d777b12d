/**
 * The seat picker of a schedule: a 7-column grid of 70 positions, of which
 * only the bus's layout indices are seats. Seats are numbered from 0 in the
 * selection and in the ledger, and labelled from 1 on screen.
 */
module SeatPicker {
  import opened Text
  import opened Lists

  const GridSize: nat := 70

  /**
   * `toggleSeat`: a seat whose string form is booked is left alone; otherwise
   * it is removed from the selection if selected and appended if not.
   */
  function ToggleSeat(selected: seq<int>, booked: seq<string>, index: int): seq<int>
  {
    if IntToString(index) in booked then selected else Toggle(selected, index)
  }

  /** A booked seat cannot be toggled. */
  lemma ToggleBooked(selected: seq<int>, booked: seq<string>, index: int)
    requires IntToString(index) in booked
    ensures ToggleSeat(selected, booked, index) == selected
  {
  }

  /**
   * Toggling an unbooked seat flips its membership and no other: a selected
   * seat is removed with the rest kept in order and number, an unselected one
   * is appended.
   */
  lemma ToggleFree(selected: seq<int>, booked: seq<string>, index: int)
    requires IntToString(index) !in booked
    ensures var after := ToggleSeat(selected, booked, index);
      && (index in selected ==> index !in after)
      && (index in selected ==> IsSubsequence(after, selected))
      && (index in selected ==> forall s :: s != index ==> multiset(after)[s] == multiset(selected)[s])
      && (index !in selected ==> after == selected + [index])
  {
    ToggleShape(selected, index);
  }

  /** Toggling the same unbooked, unselected seat twice restores the selection. */
  lemma ToggleSeatTwice(selected: seq<int>, booked: seq<string>, index: int)
    requires IntToString(index) !in booked && index !in selected
    ensures ToggleSeat(ToggleSeat(selected, booked, index), booked, index) == selected
  {
    ToggleTwice(selected, index);
  }

  /** No selected seat is booked. */
  predicate SelectionFree(selected: seq<int>, booked: seq<string>)
  {
    forall s :: s in selected ==> IntToString(s) !in booked
  }

  /** Toggling keeps booked seats out of the selection, and keeps it duplicate-free. */
  lemma ToggleKeepsSelectionFree(selected: seq<int>, booked: seq<string>, index: int)
    requires SelectionFree(selected, booked)
    ensures SelectionFree(ToggleSeat(selected, booked, index), booked)
    ensures NoDuplicates(selected) ==> NoDuplicates(ToggleSeat(selected, booked, index))
  {
    if IntToString(index) !in booked {
      forall s | s in ToggleSeat(selected, booked, index) ensures IntToString(s) !in booked {
        ToggleMembership(selected, index, s);
      }
      if NoDuplicates(selected) {
        ToggleNoDuplicates(selected, index);
      }
    }
  }

  datatype SeatState = Booked | Selected | Available

  /** What position `index` of the grid shows: a gap, or a seat labelled `index + 1` in one state. */
  datatype Cell = Gap | Seat(shown: int, state: SeatState)

  /** A seat is shown booked before selected before available. */
  function CellAt(layout: seq<int>, booked: seq<string>, selected: seq<int>, index: int): Cell
  {
    if index !in layout then Gap
    else if IntToString(index) in booked then Seat(index + 1, Booked)
    else if index in selected then Seat(index + 1, Selected)
    else Seat(index + 1, Available)
  }

  /** `Array.from({ length: 70 }).map(...)`. */
  function Grid(layout: seq<int>, booked: seq<string>, selected: seq<int>): (cells: seq<Cell>)
    ensures |cells| == GridSize
  {
    seq(GridSize, i requires 0 <= i < GridSize => CellAt(layout, booked, selected, i))
  }

  /** A seat's button is disabled exactly when it is booked. */
  predicate Disabled(c: Cell)
  {
    c.Seat? && c.state == Booked
  }

  /**
   * Of the 70 positions exactly the layout indices are seats, each labelled one
   * more than its index; a seat is booked iff its string form is in the
   * ledger, selected iff it is not booked and in the selection.
   */
  lemma GridCells(layout: seq<int>, booked: seq<string>, selected: seq<int>, i: int)
    requires 0 <= i < GridSize
    ensures var c := Grid(layout, booked, selected)[i];
      && (c.Seat? <==> i in layout)
      && (c.Seat? ==> c.shown == i + 1)
      && (c.Seat? ==> (c.state == Booked <==> IntToString(i) in booked))
      && (c.Seat? ==> (c.state == Selected <==> IntToString(i) !in booked && i in selected))
      && (Disabled(c) <==> i in layout && IntToString(i) in booked)
  {
  }

  /**
   * Clicking an enabled seat of the grid flips it between selected and
   * available, and leaves every other position as it was.
   */
  lemma ClickFlipsCell(layout: seq<int>, booked: seq<string>, selected: seq<int>, i: int, j: int)
    requires 0 <= i < GridSize && 0 <= j < GridSize
    requires Grid(layout, booked, selected)[i].Seat? && !Disabled(Grid(layout, booked, selected)[i])
    ensures var before := Grid(layout, booked, selected);
      var after := Grid(layout, booked, ToggleSeat(selected, booked, i));
      && (before[i].state == Selected ==> after[i] == Seat(i + 1, Available))
      && (before[i].state == Available ==> after[i] == Seat(i + 1, Selected))
      && (j != i ==> after[j] == before[j])
  {
    ToggleMembership(selected, i, i);
    ToggleMembership(selected, i, j);
  }
}
