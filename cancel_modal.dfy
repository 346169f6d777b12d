/**
 * The cancel dialog of a booking: the seats it lists, the seats the user
 * picks, and the request each button sends to `PATCH /api/bookings/:id/cancel`.
 */
module CancelModal {
  import opened Text
  import opened Lists
  import opened Ledger
  import opened LedgerFixes

  /** `booking.seat_numbers.split(',').map(s => s.trim())`. */
  function SeatList(seatNumbers: string): seq<string>
  {
    TrimAll(Split(seatNumbers, ','))
  }

  /** The dialog lists the seats the corrected cancel releases: at least one, each comma-free and trimmed. */
  lemma SeatListShape(seatNumbers: string)
    ensures SeatList(seatNumbers) == ParseStored(seatNumbers)
    ensures |SeatList(seatNumbers)| >= 1
    ensures forall i :: 0 <= i < |SeatList(seatNumbers)| ==> var seat := SeatList(seatNumbers)[i];
      ',' !in seat && (seat == [] || (!IsJsWhitespace(seat[0]) && !IsJsWhitespace(seat[|seat| - 1])))
  {
    RequestedSeatsShape(SeatText(seatNumbers));
  }

  /** For the text an array of seat indices is stored as, the dialog lists exactly the ledger's seats. */
  lemma SeatListOfIndexArray(indices: seq<int>)
    requires |indices| >= 1
    ensures var req := SeatArray(seq(|indices|, i requires 0 <= i < |indices| => Num(indices[i])));
      SeatList(StoredSeatNumbers(req)) == RequestedSeats(req)
  {
    var req := SeatArray(seq(|indices|, i requires 0 <= i < |indices| => Num(indices[i])));
    IndexArraysArePlain(indices);
    forall i | 0 <= i < |req.items|
      ensures var s := SeatToString(req.items[i]); s == [] || (!IsJsWhitespace(s[0]) && !IsJsWhitespace(s[|s| - 1]))
    {
      IntToStringPlain(indices[i]);
    }
    PlainArraysRoundTrip(req);
  }

  /** `handleSeatToggle`. */
  function SeatToggle(selected: seq<string>, seat: string): seq<string>
  {
    Toggle(selected, seat)
  }

  /**
   * The toggle removes a selected seat, keeping the others in order, or
   * appends an unselected one; twice on an unselected seat it restores the
   * selection.
   */
  lemma SeatToggleSpec(selected: seq<string>, seat: string)
    ensures seat in selected ==> seat !in SeatToggle(selected, seat) && IsSubsequence(SeatToggle(selected, seat), selected)
    ensures seat !in selected ==> SeatToggle(selected, seat) == selected + [seat]
    ensures seat !in selected ==> SeatToggle(SeatToggle(selected, seat), seat) == selected
  {
    ToggleShape(selected, seat);
    if seat !in selected {
      ToggleTwice(selected, seat);
    }
  }

  /** The two requests: the whole booking has no body; the partial one names `seats_to_cancel`. */
  datatype Request = WholeCancel(bookingId: int) | PartialCancel(bookingId: int, seatsToCancel: seq<string>)

  /** What a button does: an error toast and no request, or a request sent. */
  datatype Action = Refused(message: string) | Send(request: Request)

  const NoSeatSelected: string := "Please select at least one seat to cancel"

  /** `handleCancelSeats`. */
  function CancelSeats(bookingId: int, selected: seq<string>): Action
  {
    if |selected| == 0 then Refused(NoSeatSelected) else Send(PartialCancel(bookingId, selected))
  }

  /** `handleDeleteBooking`. */
  function DeleteBooking(bookingId: int): Action
  {
    Send(WholeCancel(bookingId))
  }

  /**
   * An empty selection is refused with an error and sends nothing; otherwise
   * the request carries exactly the selected seats, in order. Deleting sends
   * the bodiless request.
   */
  lemma CancelSeatsSpec(bookingId: int, selected: seq<string>)
    ensures CancelSeats(bookingId, selected).Refused? <==> selected == []
    ensures selected == [] ==> CancelSeats(bookingId, selected) == Refused(NoSeatSelected)
    ensures selected != [] ==> CancelSeats(bookingId, selected) == Send(PartialCancel(bookingId, selected))
    ensures DeleteBooking(bookingId).request.WholeCancel?
  {
  }

  /** The per-seat picker is offered only for a booking of more than one seat. */
  predicate ShowsSeatPicker(seatNumbers: string)
  {
    |SeatList(seatNumbers)| > 1
  }

  /** "Cancel Selected Seats" is shown only while the selection is not empty. */
  predicate ShowsCancelSelected(selected: seq<string>)
  {
    |selected| > 0
  }

  /**
   * The picker is offered exactly for a booking stored with a comma, and
   * whenever the partial button is shown, pressing it sends a request.
   */
  lemma ButtonsAgreeWithGuard(seatNumbers: string, bookingId: int, selected: seq<string>)
    ensures ShowsSeatPicker(seatNumbers) <==> ',' in seatNumbers
    ensures ShowsCancelSelected(selected) ==> CancelSeats(bookingId, selected).Send?
  {
    if ',' in seatNumbers {
      SplitWithSeparator(seatNumbers, ',');
    } else {
      SplitWithoutSeparator(seatNumbers, ',');
    }
  }

  /** The cancel handler does not read the body: both requests run the same whole-booking cancel. */
  function Handle(db: Db, request: Request): (Result<()>, Db)
  {
    CancelStep(db, request.bookingId)
  }

  /** Cancelling selected seats has the effect of deleting the whole booking. */
  lemma PartialIsWhole(db: Db, bookingId: int, selected: seq<string>)
    requires selected != []
    ensures Handle(db, CancelSeats(bookingId, selected).request) == Handle(db, DeleteBooking(bookingId).request)
  {
  }
}
