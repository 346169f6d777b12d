/**
 * The seat ledger of the bookings routes: `POST /` claims seats on a schedule,
 * `PATCH /:id/cancel` releases the seats of a booking. Each handler runs in one
 * transaction that rolls back on any thrown error, so every failure below leaves
 * the database as it was.
 */
module Ledger {
  import opened Text
  import opened Lists

  /** One element of a `seat_numbers` array: a number or a string. */
  datatype SeatValue = Num(n: int) | Str(s: string)

  /** The request's `seat_numbers`: an array, or a comma-separated string. */
  datatype SeatRequest = SeatArray(items: seq<SeatValue>) | SeatText(text: string)

  datatype Status = Confirmed | Cancelled

  /** A row of the bookings table; `seatNumbers` is the stored comma-separated text. */
  datatype Booking = Booking(userId: int, scheduleId: int, seatNumbers: string, status: Status)

  /** The seat-state columns of a schedules row (`booked_seats` already decoded from JSON). */
  datatype ScheduleRow = ScheduleRow(availableSeats: int, bookedSeats: seq<string>)

  /** The two tables the handlers touch. Booking id k is `bookings[k - 1]`. */
  datatype Db = Db(schedules: map<int, ScheduleRow>, bookings: seq<Booking>)

  /**
   * Why a handler failed. `ScheduleNotFound` is the TypeError thrown when the
   * schedule query returns no row; `MalformedSeats` and `AlreadyCancelled` are
   * raised only by the corrected handlers of module LedgerFixes.
   */
  datatype Error =
    | SeatsAlreadyBooked
    | NotEnoughSeats
    | ScheduleNotFound
    | BookingNotFound
    | MalformedSeats
    | AlreadyCancelled

  datatype Result<T> = Ok(value: T) | Err(error: Error)

  /** `seat.toString()`. */
  function SeatToString(v: SeatValue): string
  {
    match v
    case Num(n) => IntToString(n)
    case Str(s) => s
  }

  /** `seats.map(seat => seat.toString())`. */
  function SeatStrings(items: seq<SeatValue>): seq<string>
  {
    seq(|items|, i requires 0 <= i < |items| => SeatToString(items[i]))
  }

  /** `pieces.map(s => s.trim())`. */
  function TrimAll(pieces: seq<string>): seq<string>
  {
    seq(|pieces|, i requires 0 <= i < |pieces| => Trim(pieces[i]))
  }

  /**
   * The seats a request claims, as the strings the ledger stores: an array is
   * taken element by element, a string is split on ',' and every piece trimmed.
   */
  function RequestedSeats(req: SeatRequest): seq<string>
  {
    match req
    case SeatArray(items) => SeatStrings(items)
    case SeatText(text) => TrimAll(Split(text, ','))
  }

  /**
   * A string request yields at least one seat, and no seat of it contains a
   * comma or starts or ends with whitespace; an array request yields one seat
   * per element, in order.
   */
  lemma RequestedSeatsShape(req: SeatRequest)
    ensures req.SeatArray? ==> |RequestedSeats(req)| == |req.items|
    ensures req.SeatArray? ==> forall i :: 0 <= i < |req.items| ==> RequestedSeats(req)[i] == SeatToString(req.items[i])
    ensures req.SeatText? ==> |RequestedSeats(req)| >= 1
    ensures req.SeatText? ==> forall i :: 0 <= i < |RequestedSeats(req)| ==>
      var seat := RequestedSeats(req)[i];
      ',' !in seat && (seat == [] || (!IsJsWhitespace(seat[0]) && !IsJsWhitespace(seat[|seat| - 1])))
  {
    if req.SeatText? {
      var pieces := Split(req.text, ',');
      forall i | 0 <= i < |pieces|
        ensures ',' !in Trim(pieces[i])
        ensures Trim(pieces[i]) == [] || (!IsJsWhitespace(Trim(pieces[i])[0]) && !IsJsWhitespace(Trim(pieces[i])[|Trim(pieces[i])| - 1]))
      {
        TrimKeepsOut(pieces[i], ',');
        TrimEnds(pieces[i]);
      }
    }
  }

  /** The text stored in the booking's `seat_numbers` column: an array joined with ',', a string unchanged. */
  function StoredSeatNumbers(req: SeatRequest): string
  {
    match req
    case SeatArray(items) => Join(SeatStrings(items), ',')
    case SeatText(text) => text
  }

  /** `seats.some(seat => bookedSeats.includes(seat.toString()))`. */
  predicate Conflict(seats: seq<string>, booked: seq<string>)
  {
    exists i :: 0 <= i < |seats| && seats[i] in booked
  }

  /** A conflict is a requested seat that is already in the ledger. */
  lemma ConflictMeans(seats: seq<string>, booked: seq<string>)
    ensures Conflict(seats, booked) <==> exists seat :: seat in seats && seat in booked
  {
    if exists seat :: seat in seats && seat in booked {
      var seat :| seat in seats && seat in booked;
      var i :| 0 <= i < |seats| && seats[i] == seat;
      assert seats[i] in booked;
    }
  }

  /** `bookedSeats.filter(seat => !seats.includes(seat))`. */
  function Released(booked: seq<string>, seats: seq<string>): seq<string>
  {
    Filter(booked, NotAmong(seats))
  }

  /** The filter predicate of the release: `seat => !seats.includes(seat)`. */
  function NotAmong(seats: seq<string>): string -> bool
  {
    x => x !in seats
  }

  /**
   * Releasing keeps exactly the ledger entries that are not among the seats:
   * in their order and with their number of occurrences.
   */
  lemma ReleasedSpec(booked: seq<string>, seats: seq<string>)
    ensures forall x :: x in Released(booked, seats) <==> x in booked && x !in seats
    ensures IsSubsequence(Released(booked, seats), booked)
    ensures forall x :: multiset(Released(booked, seats))[x] == if x in seats then 0 else multiset(booked)[x]
  {
    var keep := NotAmong(seats);
    forall x ensures x in Filter(booked, keep) <==> x in booked && x !in seats {
      FilterMembership(booked, keep, x);
    }
    forall x ensures multiset(Filter(booked, keep))[x] == if x in seats then 0 else multiset(booked)[x] {
      FilterCount(booked, keep, x);
    }
    FilterIsSubsequence(booked, keep);
  }

  /** Seats held in total on a schedule row: the quantity a claim and an exact release conserve. */
  function Seats(row: ScheduleRow): int
  {
    row.availableSeats + |row.bookedSeats|
  }

  /**
   * The claim handler as a function of the database before it and the request:
   * the outcome and the database after it.
   */
  function ClaimStep(db: Db, userId: int, scheduleId: int, req: SeatRequest): (res: (Result<nat>, Db))
    // every failure rolls back
    ensures res.0.Err? ==> res.1 == db
  {
    var seats := RequestedSeats(req);
    if scheduleId !in db.schedules then (Err(ScheduleNotFound), db)
    else
      var row := db.schedules[scheduleId];
      if Conflict(seats, row.bookedSeats) then (Err(SeatsAlreadyBooked), db)
      else if row.availableSeats < |seats| then (Err(NotEnoughSeats), db)
      else
        var booking := Booking(userId, scheduleId, StoredSeatNumbers(req), Confirmed);
        var newRow := ScheduleRow(row.availableSeats - |seats|, row.bookedSeats + seats);
        (Ok(|db.bookings| + 1), Db(db.schedules[scheduleId := newRow], db.bookings + [booking]))
  }

  /**
   * A claim fails exactly when the schedule is missing, some requested seat is
   * already in the ledger, or fewer seats are available than requested; the
   * conflict check comes before the capacity check.
   */
  lemma ClaimFailures(db: Db, userId: int, scheduleId: int, req: SeatRequest)
    ensures var res := ClaimStep(db, userId, scheduleId, req).0;
      && (res == Err(ScheduleNotFound) <==> scheduleId !in db.schedules)
      && (scheduleId in db.schedules ==>
            (res == Err(SeatsAlreadyBooked) <==>
              exists seat :: seat in RequestedSeats(req) && seat in db.schedules[scheduleId].bookedSeats))
      && (scheduleId in db.schedules ==>
            (res == Err(NotEnoughSeats) <==>
              !Conflict(RequestedSeats(req), db.schedules[scheduleId].bookedSeats)
              && db.schedules[scheduleId].availableSeats < |RequestedSeats(req)|))
      && (res.Ok? <==>
            (scheduleId in db.schedules
             && !Conflict(RequestedSeats(req), db.schedules[scheduleId].bookedSeats)
             && db.schedules[scheduleId].availableSeats >= |RequestedSeats(req)|))
  {
    if scheduleId in db.schedules {
      ConflictMeans(RequestedSeats(req), db.schedules[scheduleId].bookedSeats);
    }
  }

  /**
   * A successful claim appends the requested seats, in request order, to the
   * schedule's ledger, lowers its counter by their number, inserts a confirmed
   * booking with the stored seat text, and changes no other schedule.
   */
  lemma ClaimSuccess(db: Db, userId: int, scheduleId: int, req: SeatRequest)
    requires ClaimStep(db, userId, scheduleId, req).0.Ok?
    ensures var (res, after) := ClaimStep(db, userId, scheduleId, req);
      && scheduleId in db.schedules
      && res.value == |db.bookings| + 1
      && after.schedules.Keys == db.schedules.Keys
      && (forall sid :: sid in db.schedules && sid != scheduleId ==> after.schedules[sid] == db.schedules[sid])
      && after.schedules[scheduleId].bookedSeats == db.schedules[scheduleId].bookedSeats + RequestedSeats(req)
      && after.schedules[scheduleId].availableSeats == db.schedules[scheduleId].availableSeats - |RequestedSeats(req)|
      && after.bookings == db.bookings + [Booking(userId, scheduleId, StoredSeatNumbers(req), Confirmed)]
  {
  }

  /** The seats the cancel handler releases: the stored text split on ',', not trimmed. */
  function StoredSeats(b: Booking): (seats: seq<string>)
    ensures |seats| >= 1
  {
    Split(b.seatNumbers, ',')
  }

  /**
   * The cancel handler as a function of the database before it and the booking
   * id. It does not look at the booking's status.
   */
  function CancelStep(db: Db, id: int): (res: (Result<()>, Db))
    ensures res.0.Err? ==> res.1 == db
  {
    if !(1 <= id <= |db.bookings|) then (Err(BookingNotFound), db)
    else
      var b := db.bookings[id - 1];
      var seats := StoredSeats(b);
      if b.scheduleId !in db.schedules then (Err(ScheduleNotFound), db)
      else
        var row := db.schedules[b.scheduleId];
        var newRow := ScheduleRow(row.availableSeats + |seats|, Released(row.bookedSeats, seats));
        (Ok(()), Db(db.schedules[b.scheduleId := newRow], db.bookings[id - 1 := b.(status := Cancelled)]))
  }

  /** A cancel fails exactly for an unknown booking id or a booking whose schedule row is gone. */
  lemma CancelFailures(db: Db, id: int)
    ensures var res := CancelStep(db, id).0;
      && (res == Err(BookingNotFound) <==> !(1 <= id <= |db.bookings|))
      && (res == Err(ScheduleNotFound) <==> 1 <= id <= |db.bookings| && db.bookings[id - 1].scheduleId !in db.schedules)
      && (res.Ok? <==> 1 <= id <= |db.bookings| && db.bookings[id - 1].scheduleId in db.schedules)
  {
  }

  /**
   * A successful cancel marks the booking cancelled, removes from the ledger
   * every entry equal to one of the booking's stored seats (the other entries
   * keep their order and number), raises the counter by the number of stored
   * seats, and changes no other schedule.
   */
  lemma CancelSuccess(db: Db, id: int)
    requires CancelStep(db, id).0.Ok?
    ensures var after := CancelStep(db, id).1;
      var b := db.bookings[id - 1];
      var seats := StoredSeats(b);
      && b.scheduleId in db.schedules
      && after.bookings == db.bookings[id - 1 := b.(status := Cancelled)]
      && after.schedules.Keys == db.schedules.Keys
      && (forall sid :: sid in db.schedules && sid != b.scheduleId ==> after.schedules[sid] == db.schedules[sid])
      && after.schedules[b.scheduleId].availableSeats == db.schedules[b.scheduleId].availableSeats + |seats|
      && (forall x :: x in after.schedules[b.scheduleId].bookedSeats <==> x in db.schedules[b.scheduleId].bookedSeats && x !in seats)
      && IsSubsequence(after.schedules[b.scheduleId].bookedSeats, db.schedules[b.scheduleId].bookedSeats)
      && (forall x :: multiset(after.schedules[b.scheduleId].bookedSeats)[x] ==
            if x in seats then 0 else multiset(db.schedules[b.scheduleId].bookedSeats)[x])
  {
    var b := db.bookings[id - 1];
    ReleasedSpec(db.schedules[b.scheduleId].bookedSeats, StoredSeats(b));
  }

  /** Claiming keeps `available_seats + |booked_seats|` of every schedule. */
  lemma ClaimConservesSeats(db: Db, userId: int, scheduleId: int, req: SeatRequest)
    ensures var after := ClaimStep(db, userId, scheduleId, req).1;
      after.schedules.Keys == db.schedules.Keys
      && forall sid :: sid in db.schedules ==> Seats(after.schedules[sid]) == Seats(db.schedules[sid])
  {
  }

  /** The array form of a request whose seats round-trip through the stored text. */
  predicate PlainSeatArray(req: SeatRequest)
  {
    req.SeatArray? && |req.items| >= 1
    && forall i :: 0 <= i < |req.items| ==> ',' !in SeatToString(req.items[i])
  }

  /**
   * For a non-empty array of comma-free seats, splitting the stored text gives
   * back exactly the strings the claim appended to the ledger.
   */
  lemma StoredTextRoundTrip(req: SeatRequest, userId: int, scheduleId: int)
    requires PlainSeatArray(req)
    ensures StoredSeats(Booking(userId, scheduleId, StoredSeatNumbers(req), Confirmed)) == RequestedSeats(req)
  {
    SplitJoin(SeatStrings(req.items), ',');
  }

  /** Every array the seat pickers send (non-empty, of seat indices) is a plain array. */
  lemma IndexArraysArePlain(indices: seq<int>)
    requires |indices| >= 1
    ensures PlainSeatArray(SeatArray(seq(|indices|, i requires 0 <= i < |indices| => Num(indices[i]))))
  {
    forall i | 0 <= i < |indices| ensures ',' !in IntToString(indices[i]) {
      IntToStringPlain(indices[i]);
    }
  }

  /** Releasing the seats just appended removes exactly them. */
  lemma {:induction false} ReleaseAppended(booked: seq<string>, seats: seq<string>)
    requires !Conflict(seats, booked)
    ensures Released(booked + seats, seats) == booked
  {
    var keep := NotAmong(seats);
    FilterAppend(booked, seats, keep);
    FilterKeepsAll(booked, keep);
    assert Filter(seats, keep) == [] by {
      FilterMembership(seats, keep, if |Filter(seats, keep)| > 0 then Filter(seats, keep)[0] else "");
    }
  }

  /**
   * Claiming a non-empty array of comma-free seats and then cancelling the new
   * booking gives back every schedule row as it was; the booking stays in the
   * table, marked cancelled.
   */
  lemma ClaimThenCancelRestores(db: Db, userId: int, scheduleId: int, req: SeatRequest)
    requires PlainSeatArray(req)
    requires ClaimStep(db, userId, scheduleId, req).0.Ok?
    ensures var (claimed, mid) := ClaimStep(db, userId, scheduleId, req);
      var (cancelled, after) := CancelStep(mid, claimed.value);
      && cancelled == Ok(())
      && after.schedules == db.schedules
      && after.bookings == db.bookings + [Booking(userId, scheduleId, StoredSeatNumbers(req), Cancelled)]
  {
    var mid := ClaimStep(db, userId, scheduleId, req).1;
    ClaimFailures(db, userId, scheduleId, req);
    ClaimSuccess(db, userId, scheduleId, req);
    var booking := Booking(userId, scheduleId, StoredSeatNumbers(req), Confirmed);
    StoredTextRoundTrip(req, userId, scheduleId);
    var seats := RequestedSeats(req);
    var row := db.schedules[scheduleId];
    assert mid == Db(db.schedules[scheduleId := ScheduleRow(row.availableSeats - |seats|, row.bookedSeats + seats)],
      db.bookings + [booking]);
    CancelAppended(db, booking, seats);
  }

  /**
   * A booking appended with its seats added to its schedule's row, then
   * cancelled, leaves the rows as they were before it.
   */
  lemma CancelAppended(db: Db, b: Booking, seats: seq<string>)
    requires b.scheduleId in db.schedules && StoredSeats(b) == seats
    requires !Conflict(seats, db.schedules[b.scheduleId].bookedSeats)
    ensures var row := db.schedules[b.scheduleId];
      var mid := Db(db.schedules[b.scheduleId := ScheduleRow(row.availableSeats - |seats|, row.bookedSeats + seats)],
        db.bookings + [b]);
      CancelStep(mid, |db.bookings| + 1) == (Ok(()), Db(db.schedules, db.bookings + [b.(status := Cancelled)]))
  {
    var row := db.schedules[b.scheduleId];
    ReleaseAppended(row.bookedSeats, seats);
    var mid := Db(db.schedules[b.scheduleId := ScheduleRow(row.availableSeats - |seats|, row.bookedSeats + seats)],
      db.bookings + [b]);
    assert mid.bookings[|db.bookings|] == b;
    assert mid.schedules[b.scheduleId := row] == db.schedules;
    assert mid.bookings[|db.bookings| := b.(status := Cancelled)] == db.bookings + [b.(status := Cancelled)];
  }

  /**
   * Cancelling a booking a second time raises `available_seats` again by its
   * seat count while the ledger list stays as the first cancel left it.
   */
  lemma CancelTwice(db: Db, id: int)
    requires CancelStep(db, id).0.Ok?
    ensures var once := CancelStep(db, id).1;
      var (again, twice) := CancelStep(once, id);
      var sid := db.bookings[id - 1].scheduleId;
      && again == Ok(())
      && twice.bookings == once.bookings
      && twice.schedules[sid].bookedSeats == once.schedules[sid].bookedSeats
      && twice.schedules[sid].availableSeats == once.schedules[sid].availableSeats + |StoredSeats(db.bookings[id - 1])|
  {
    var b := db.bookings[id - 1];
    var seats := StoredSeats(b);
    var sid := b.scheduleId;
    var row := db.schedules[sid];
    var once := CancelStep(db, id).1;
    assert once.bookings[id - 1] == b.(status := Cancelled);
    assert StoredSeats(once.bookings[id - 1]) == seats;
    var keep := NotAmong(seats);
    var first := Filter(row.bookedSeats, keep);
    assert once.schedules[sid].bookedSeats == first;
    FilterIdempotent(row.bookedSeats, keep);
    assert Released(once.schedules[sid].bookedSeats, seats) == once.schedules[sid].bookedSeats;
    var twice := CancelStep(once, id).1;
    assert twice.bookings == once.bookings;
  }

  /** The bookings and schedules tables, updated in place by the two handlers. */
  class BookingDb {
    var schedules: map<int, ScheduleRow>
    var bookings: seq<Booking>

    function State(): Db
      reads this
    {
      Db(schedules, bookings)
    }

    constructor (rows: map<int, ScheduleRow>)
      ensures State() == Db(rows, [])
    {
      schedules := rows;
      bookings := [];
    }

    /** `POST /`: claim the requested seats on a schedule and insert a confirmed booking. */
    method Claim(userId: int, scheduleId: int, req: SeatRequest) returns (res: Result<nat>)
      modifies this
      ensures (res, State()) == ClaimStep(old(State()), userId, scheduleId, req)
    {
      var seats := RequestedSeats(req);
      if scheduleId !in schedules {
        return Err(ScheduleNotFound);
      }
      var row := schedules[scheduleId];
      if Conflict(seats, row.bookedSeats) {
        return Err(SeatsAlreadyBooked);
      }
      if row.availableSeats < |seats| {
        return Err(NotEnoughSeats);
      }
      bookings := bookings + [Booking(userId, scheduleId, StoredSeatNumbers(req), Confirmed)];
      res := Ok(|bookings|);
      var updatedBookedSeats := row.bookedSeats + seats;
      schedules := schedules[scheduleId := ScheduleRow(row.availableSeats - |seats|, updatedBookedSeats)];
    }

    /** `PATCH /:id/cancel`: mark the booking cancelled and release its seats. */
    method Cancel(id: int) returns (res: Result<()>)
      modifies this
      ensures (res, State()) == CancelStep(old(State()), id)
    {
      if !(1 <= id <= |bookings|) {
        return Err(BookingNotFound);
      }
      var booking := bookings[id - 1];
      var seats := Split(booking.seatNumbers, ',');
      if booking.scheduleId !in schedules {
        return Err(ScheduleNotFound);
      }
      var row := schedules[booking.scheduleId];
      var updatedSeats := Released(row.bookedSeats, seats);
      bookings := bookings[id - 1 := booking.(status := Cancelled)];
      schedules := schedules[booking.scheduleId := ScheduleRow(row.availableSeats + |seats|, updatedSeats)];
      res := Ok(());
    }
  }
}
