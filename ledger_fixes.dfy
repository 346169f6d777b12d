/**
 * Three ways the bookings handlers, as written, let a schedule's
 * `available_seats` and `booked_seats` drift apart from its bookings, and
 * corrected handlers that keep every schedule consistent with its confirmed
 * bookings.
 */
module LedgerFixes {
  import opened Text
  import opened Lists
  import opened Ledger

  /** Schedule 1 with 40 free seats, nothing booked, no bookings. */
  function FreshDb(): Db
  {
    Db(map[1 := ScheduleRow(40, [])], [])
  }

  /**
   * As written: cancel does not look at `booking_status`, so cancelling the
   * same booking twice releases its seat twice and the schedule ends with 41
   * free seats out of 40.
   */
  lemma DoubleCancelReleasesTwice()
    ensures var (claimed, d1) := ClaimStep(FreshDb(), 7, 1, SeatArray([Num(3)]));
      var (first, d2) := CancelStep(d1, 1);
      var (second, d3) := CancelStep(d2, 1);
      && claimed == Ok(1) && first == Ok(()) && second == Ok(())
      && d3.schedules[1] == ScheduleRow(41, [])
  {
    var d1 := Db(map[1 := ScheduleRow(39, ["3"])], [Booking(7, 1, "3", Confirmed)]);
    var d2 := Db(map[1 := ScheduleRow(40, [])], [Booking(7, 1, "3", Cancelled)]);
    ClaimOfThree(FreshDb(), SeatArray([Num(3)]), d1);
    CancelOfThree(d1, d2);
    CancelOfThreeAgain(d2);
  }

  /** Claiming seat 3 on the fresh schedule stores "3". */
  lemma ClaimOfThree(db: Db, req: SeatRequest, after: Db)
    requires db == FreshDb() && req == SeatArray([Num(3)])
    requires after == Db(map[1 := ScheduleRow(39, ["3"])], [Booking(7, 1, "3", Confirmed)])
    ensures ClaimStep(db, 7, 1, req) == (Ok(1), after)
  {
    assert IntToString(3) == "3";
    assert RequestedSeats(req) == ["3"];
    assert StoredSeatNumbers(req) == "3" by {
      assert Join(["3"], ',') == "3";
    }
    assert !Conflict(RequestedSeats(req), db.schedules[1].bookedSeats);
    assert db.schedules[1].availableSeats >= |RequestedSeats(req)|;
    assert ClaimStep(db, 7, 1, req).0 == Ok(1);
    assert ClaimStep(db, 7, 1, req).1.bookings == after.bookings;
    assert [] + ["3"] == ["3"];
    assert db.schedules[1 := ScheduleRow(39, ["3"])] == after.schedules;
  }

  /** Cancelling that booking frees seat 3. */
  lemma CancelOfThree(db: Db, after: Db)
    requires db == Db(map[1 := ScheduleRow(39, ["3"])], [Booking(7, 1, "3", Confirmed)])
    requires after == Db(map[1 := ScheduleRow(40, [])], [Booking(7, 1, "3", Cancelled)])
    ensures CancelStep(db, 1) == (Ok(()), after)
  {
    SplitWithoutSeparator("3", ',');
    ReleasedSpec(["3"], ["3"]);
    assert StoredSeats(db.bookings[0]) == ["3"];
    assert Released(["3"], ["3"]) == [];
    assert CancelStep(db, 1).0 == Ok(());
    assert CancelStep(db, 1).1.bookings == after.bookings;
    assert db.schedules[1 := ScheduleRow(40, [])] == after.schedules;
  }

  /** Cancelling it again frees seat 3 a second time. */
  lemma CancelOfThreeAgain(db: Db)
    requires db == Db(map[1 := ScheduleRow(40, [])], [Booking(7, 1, "3", Cancelled)])
    ensures CancelStep(db, 1) == (Ok(()), Db(map[1 := ScheduleRow(41, [])], [Booking(7, 1, "3", Cancelled)]))
  {
    SplitWithoutSeparator("3", ',');
    assert StoredSeats(db.bookings[0]) == ["3"];
    assert Released([], ["3"]) == [];
    assert CancelStep(db, 1).0 == Ok(());
    assert CancelStep(db, 1).1.bookings == [Booking(7, 1, "3", Cancelled)];
    assert db.schedules[1 := ScheduleRow(41, [])] == map[1 := ScheduleRow(41, [])];
  }

  /**
   * As written: a string "3, 4" books "3" and "4", but cancel splits the
   * stored text without trimming into "3" and " 4", so "4" stays booked while
   * the counter goes back to 40: 41 seats in all.
   */
  lemma UntrimmedCancelLeaksSeat()
    ensures var (claimed, d1) := ClaimStep(FreshDb(), 7, 1, SeatText("3, 4"));
      var (cancelled, d2) := CancelStep(d1, 1);
      && claimed == Ok(1) && d1.schedules[1] == ScheduleRow(38, ["3", "4"])
      && cancelled == Ok(()) && d2.schedules[1] == ScheduleRow(40, ["4"])
  {
    SampleClaim();
    SampleCancel();
  }

  /** The claim of "3, 4" books "3" and "4" and stores the text as sent. */
  lemma SampleClaim()
    ensures ClaimStep(FreshDb(), 7, 1, SeatText("3, 4"))
      == (Ok(1), Db(map[1 := ScheduleRow(38, ["3", "4"])], [Booking(7, 1, "3, 4", Confirmed)]))
  {
    SampleSeats();
    var db := FreshDb();
    var req := SeatText("3, 4");
    assert !Conflict(RequestedSeats(req), db.schedules[1].bookedSeats);
    assert db.schedules[1].availableSeats >= |RequestedSeats(req)|;
    assert StoredSeatNumbers(req) == "3, 4";
    assert ClaimStep(db, 7, 1, req).0 == Ok(1);
    assert ClaimStep(db, 7, 1, req).1.bookings == [Booking(7, 1, "3, 4", Confirmed)];
    assert [] + ["3", "4"] == ["3", "4"];
    assert map[1 := ScheduleRow(40, [])][1 := ScheduleRow(38, ["3", "4"])] == map[1 := ScheduleRow(38, ["3", "4"])];
  }

  /** Cancelling that booking releases the untrimmed pieces "3" and " 4". */
  lemma SampleCancel()
    ensures CancelStep(Db(map[1 := ScheduleRow(38, ["3", "4"])], [Booking(7, 1, "3, 4", Confirmed)]), 1)
      == (Ok(()), Db(map[1 := ScheduleRow(40, ["4"])], [Booking(7, 1, "3, 4", Cancelled)]))
  {
    SampleSplit();
    SampleRelease();
    var db := Db(map[1 := ScheduleRow(38, ["3", "4"])], [Booking(7, 1, "3, 4", Confirmed)]);
    assert StoredSeats(db.bookings[0]) == ["3", " 4"];
    assert CancelStep(db, 1).0 == Ok(());
    assert CancelStep(db, 1).1.bookings == [Booking(7, 1, "3, 4", Cancelled)];
    assert map[1 := ScheduleRow(38, ["3", "4"])][1 := ScheduleRow(40, ["4"])] == map[1 := ScheduleRow(40, ["4"])];
  }

  /** The seats of the request "3, 4" are "3" and "4". */
  lemma SampleSeats()
    ensures RequestedSeats(SeatText("3, 4")) == ["3", "4"]
  {
    SampleSplit();
    SampleTrim();
  }

  /** Trimming the pieces "3" and " 4" gives the seats "3" and "4". */
  lemma SampleTrim()
    ensures TrimAll(["3", " 4"]) == ["3", "4"]
  {
    Untrimmed("3");
    Untrimmed("4");
    TrimsLeadingSpace(" 4");
    TrimPair("3", " 4");
  }

  lemma TrimPair(a: string, b: string)
    ensures TrimAll([a, b]) == [Trim(a), Trim(b)]
  {
  }

  /** A one-digit text is its own trim. */
  lemma Untrimmed(t: string)
    requires t == "3" || t == "4"
    ensures Trim(t) == t
  {
    assert !IsJsWhitespace(t[0]);
    TrimUnchanged(t);
  }

  /** `" 4".trim()` is "4". */
  lemma TrimsLeadingSpace(s: string)
    requires s == " 4"
    ensures Trim(s) == Trim(s[1..]) && s[1..] == "4"
  {
    assert s[1..] == "4" && IsJsWhitespace(s[0]);
  }

  /** "3, 4".split(',') is ["3", " 4"]: the space stays on the second piece. */
  lemma SampleSplit()
    ensures Split("3, 4", ',') == ["3", " 4"]
  {
    SplitAtSeparator("3", ',', " 4");
    assert "3, 4" == "3" + [','] + " 4";
    SplitWithoutSeparator(" 4", ',');
  }

  /** Releasing "3" and " 4" from the ledger ["3", "4"] keeps "4". */
  lemma SampleRelease()
    ensures Released(["3", "4"], ["3", " 4"]) == ["4"]
  {
    var p := NotAmong(["3", " 4"]);
    assert !p("3") && p("4");
    assert ["3", "4"][1..] == ["4"];
    assert Filter(["4"], p) == ["4"];
  }

  /**
   * As written: an empty seat array books nothing and stores the text "", but
   * "".split(',') is [""], so cancelling that booking frees one seat that was
   * never taken.
   */
  lemma EmptyClaimCancelReleasesSeat()
    ensures var (claimed, d1) := ClaimStep(FreshDb(), 7, 1, SeatArray([]));
      var (cancelled, d2) := CancelStep(d1, 1);
      && claimed == Ok(1) && d1.schedules[1] == ScheduleRow(40, [])
      && cancelled == Ok(()) && d2.schedules[1] == ScheduleRow(41, [])
  {
    assert RequestedSeats(SeatArray([])) == [];
    assert Split("", ',') == [""];
  }

  /** Corrected parse of a booking's stored text: split on ',' and trim, as the claim does for a string. */
  function ParseStored(text: string): seq<string>
  {
    RequestedSeats(SeatText(text))
  }

  /** The stored text of the booking parses back to the seats the claim put in the ledger. */
  predicate RoundTrips(req: SeatRequest)
  {
    ParseStored(StoredSeatNumbers(req)) == RequestedSeats(req)
  }

  /** Corrected claim: a request whose stored text would not give back its seats is rejected. */
  function ClaimFixed(db: Db, userId: int, scheduleId: int, req: SeatRequest): (res: (Result<nat>, Db))
    ensures res.0.Err? ==> res.1 == db
    ensures !RoundTrips(req) ==> res.0 == Err(MalformedSeats)
    ensures RoundTrips(req) ==> res == ClaimStep(db, userId, scheduleId, req)
  {
    if !RoundTrips(req) then (Err(MalformedSeats), db) else ClaimStep(db, userId, scheduleId, req)
  }

  /**
   * Corrected cancel: a booking already cancelled is refused, and the stored
   * text is split and trimmed.
   */
  function CancelFixed(db: Db, id: int): (res: (Result<()>, Db))
    ensures res.0.Err? ==> res.1 == db
    ensures 1 <= id <= |db.bookings| && db.bookings[id - 1].status == Cancelled ==> res.0 == Err(AlreadyCancelled)
  {
    if !(1 <= id <= |db.bookings|) then (Err(BookingNotFound), db)
    else
      var b := db.bookings[id - 1];
      if b.status == Cancelled then (Err(AlreadyCancelled), db)
      else if b.scheduleId !in db.schedules then (Err(ScheduleNotFound), db)
      else
        var seats := ParseStored(b.seatNumbers);
        var row := db.schedules[b.scheduleId];
        var newRow := ScheduleRow(row.availableSeats + |seats|, Released(row.bookedSeats, seats));
        (Ok(()), Db(db.schedules[b.scheduleId := newRow], db.bookings[id - 1 := b.(status := Cancelled)]))
  }

  /** Every string request round-trips under the corrected parse. */
  lemma TextRequestsRoundTrip(text: string)
    ensures RoundTrips(SeatText(text))
  {
  }

  /** A non-empty array of comma-free seats without surrounding whitespace round-trips. */
  lemma PlainArraysRoundTrip(req: SeatRequest)
    requires PlainSeatArray(req)
    requires forall i :: 0 <= i < |req.items| ==>
      var s := SeatToString(req.items[i]); s == [] || (!IsJsWhitespace(s[0]) && !IsJsWhitespace(s[|s| - 1]))
    ensures RoundTrips(req)
  {
    var strs := SeatStrings(req.items);
    SplitJoin(strs, ',');
    forall i | 0 <= i < |strs| ensures Trim(strs[i]) == strs[i] {
      TrimUnchanged(strs[i]);
    }
  }

  /** The empty array does not round-trip, so the corrected claim refuses it. */
  lemma EmptyArrayRefused(db: Db, userId: int, scheduleId: int)
    ensures ClaimFixed(db, userId, scheduleId, SeatArray([])).0 == Err(MalformedSeats)
  {
    assert ParseStored(Join([], ',')) == [""];
  }

  /** On the arrays of seat indices the seat pickers send, the corrected claim is the claim as written. */
  lemma FixedClaimAgreesOnIndexArrays(db: Db, userId: int, scheduleId: int, indices: seq<int>)
    requires |indices| >= 1
    ensures var req := SeatArray(seq(|indices|, i requires 0 <= i < |indices| => Num(indices[i])));
      ClaimFixed(db, userId, scheduleId, req) == ClaimStep(db, userId, scheduleId, req)
  {
    var req := SeatArray(seq(|indices|, i requires 0 <= i < |indices| => Num(indices[i])));
    IndexArraysArePlain(indices);
    forall i | 0 <= i < |req.items|
      ensures var s := SeatToString(req.items[i]); s == [] || (!IsJsWhitespace(s[0]) && !IsJsWhitespace(s[|s| - 1]))
    {
      IntToStringPlain(indices[i]);
    }
    PlainArraysRoundTrip(req);
  }

  /**
   * On a confirmed booking whose stored pieces carry no surrounding
   * whitespace, the corrected cancel is the cancel as written.
   */
  lemma FixedCancelAgreesOnPlainBookings(db: Db, id: int)
    requires 1 <= id <= |db.bookings| && db.bookings[id - 1].status == Confirmed
    requires var pieces := StoredSeats(db.bookings[id - 1]); forall i :: 0 <= i < |pieces| ==> Trim(pieces[i]) == pieces[i]
    ensures CancelFixed(db, id) == CancelStep(db, id)
  {
    var b := db.bookings[id - 1];
    assert ParseStored(b.seatNumbers) == StoredSeats(b);
  }

  // ---------------------------------------------------------------------
  // The consistency a schedule should keep with its bookings
  // ---------------------------------------------------------------------

  /** How many copies of seat `x` booking `b` holds on schedule `sid`: its parsed seats while confirmed, none otherwise. */
  function Contribution(b: Booking, sid: int, x: string): nat
  {
    if b.status == Confirmed && b.scheduleId == sid then multiset(ParseStored(b.seatNumbers))[x] else 0
  }

  /** How many copies of seat `x` the confirmed bookings in `bs` hold on schedule `sid`. */
  function Held(bs: seq<Booking>, sid: int, x: string): nat
    decreases |bs|
  {
    if bs == [] then 0 else Contribution(bs[0], sid, x) + Held(bs[1..], sid, x)
  }

  predicate Disjoint(a: seq<string>, b: seq<string>)
  {
    forall x :: x in a ==> x !in b
  }

  /** Two confirmed bookings of the same schedule never hold a common seat. */
  ghost predicate SeparateBookings(bs: seq<Booking>)
  {
    forall i, j ::
      (0 <= i < j < |bs| && bs[i].status == Confirmed && bs[j].status == Confirmed
       && bs[i].scheduleId == bs[j].scheduleId) ==>
      Disjoint(ParseStored(bs[i].seatNumbers), ParseStored(bs[j].seatNumbers))
  }

  /**
   * Every schedule's ledger lists exactly the seats its confirmed bookings
   * hold, as often as they hold them, and its free seats plus its booked
   * seats equal its capacity.
   */
  ghost predicate Consistent(db: Db, capacity: map<int, int>)
  {
    && (forall sid :: sid in db.schedules ==>
          && sid in capacity
          && Seats(db.schedules[sid]) == capacity[sid]
          && forall x :: multiset(db.schedules[sid].bookedSeats)[x] == Held(db.bookings, sid, x))
    && SeparateBookings(db.bookings)
  }

  /** A booking appended at the end adds its own seats to the held ones. */
  lemma {:induction false} HeldAppend(bs: seq<Booking>, b: Booking, sid: int, x: string)
    ensures Held(bs + [b], sid, x) == Held(bs, sid, x) + Contribution(b, sid, x)
    decreases |bs|
  {
    if bs == [] {
      assert [b][1..] == [];
    } else {
      HeldAppend(bs[1..], b, sid, x);
      assert (bs + [b])[1..] == bs[1..] + [b];
    }
  }

  /** Replacing one booking changes the held seats by the difference of the two contributions. */
  lemma {:induction false} HeldUpdate(bs: seq<Booking>, k: nat, c: Booking, sid: int, x: string)
    requires k < |bs|
    ensures Held(bs[k := c], sid, x) + Contribution(bs[k], sid, x) == Held(bs, sid, x) + Contribution(c, sid, x)
    decreases |bs|
  {
    if k == 0 {
      assert bs[k := c][1..] == bs[1..];
    } else {
      HeldUpdate(bs[1..], k - 1, c, sid, x);
      assert bs[k := c][1..] == bs[1..][k - 1 := c];
    }
  }

  /** A seat of a confirmed booking is among the held seats. */
  lemma {:induction false} HeldMember(bs: seq<Booking>, k: nat, sid: int, x: string)
    requires k < |bs| && bs[k].status == Confirmed && bs[k].scheduleId == sid
    requires x in ParseStored(bs[k].seatNumbers)
    ensures Held(bs, sid, x) > 0
    decreases |bs|
  {
    if k > 0 {
      HeldMember(bs[1..], k - 1, sid, x);
    }
  }

  /** A seat that no confirmed booking of the schedule holds is not held. */
  lemma {:induction false} HeldAbsent(bs: seq<Booking>, sid: int, x: string)
    requires forall i :: 0 <= i < |bs| && bs[i].status == Confirmed && bs[i].scheduleId == sid ==>
      x !in ParseStored(bs[i].seatNumbers)
    ensures Held(bs, sid, x) == 0
    decreases |bs|
  {
    if bs != [] {
      assert forall i :: 0 <= i < |bs[1..]| ==> bs[1..][i] == bs[i + 1];
      HeldAbsent(bs[1..], sid, x);
    }
  }

  /** The bookings after the first stay separate. */
  lemma SeparateRest(bs: seq<Booking>)
    requires SeparateBookings(bs) && bs != []
    ensures SeparateBookings(bs[1..])
  {
    var rest := bs[1..];
    forall i, j | 0 <= i < j < |rest| && rest[i].status == Confirmed && rest[j].status == Confirmed
      && rest[i].scheduleId == rest[j].scheduleId
      ensures Disjoint(ParseStored(rest[i].seatNumbers), ParseStored(rest[j].seatNumbers))
    {
      assert rest[i] == bs[i + 1] && rest[j] == bs[j + 1];
    }
  }

  /** With separate bookings, no booking after the first holds a seat of the first. */
  lemma HeldAfterFirst(bs: seq<Booking>, sid: int, x: string)
    requires SeparateBookings(bs) && bs != []
    requires bs[0].status == Confirmed && bs[0].scheduleId == sid
    requires x in ParseStored(bs[0].seatNumbers)
    ensures Held(bs[1..], sid, x) == 0
  {
    var rest := bs[1..];
    forall i | 0 <= i < |rest| && rest[i].status == Confirmed && rest[i].scheduleId == sid
      ensures x !in ParseStored(rest[i].seatNumbers)
    {
      assert rest[i] == bs[i + 1];
      assert Disjoint(ParseStored(bs[0].seatNumbers), ParseStored(bs[i + 1].seatNumbers));
    }
    HeldAbsent(rest, sid, x);
  }

  /** With separate bookings, every held copy of a booking's seat belongs to that booking. */
  lemma {:induction false} HeldAt(bs: seq<Booking>, k: nat, sid: int, x: string)
    requires SeparateBookings(bs)
    requires k < |bs| && bs[k].status == Confirmed && bs[k].scheduleId == sid
    requires x in ParseStored(bs[k].seatNumbers)
    ensures Held(bs, sid, x) == multiset(ParseStored(bs[k].seatNumbers))[x]
    decreases |bs|
  {
    if k == 0 {
      HeldAfterFirst(bs, sid, x);
    } else {
      SeparateRest(bs);
      HeldAt(bs[1..], k - 1, sid, x);
      if bs[0].status == Confirmed && bs[0].scheduleId == sid {
        assert Disjoint(ParseStored(bs[0].seatNumbers), ParseStored(bs[k].seatNumbers));
      }
    }
  }

  /** A confirmed booking appended after bookings it shares no seat with keeps the bookings separate. */
  lemma AppendSeparate(bs: seq<Booking>, b: Booking)
    requires SeparateBookings(bs)
    requires forall i :: 0 <= i < |bs| && bs[i].status == Confirmed && bs[i].scheduleId == b.scheduleId ==>
      Disjoint(ParseStored(bs[i].seatNumbers), ParseStored(b.seatNumbers))
    ensures SeparateBookings(bs + [b])
  {
    var after := bs + [b];
    forall i, j | 0 <= i < j < |after| && after[i].status == Confirmed
      && after[j].status == Confirmed && after[i].scheduleId == after[j].scheduleId
      ensures Disjoint(ParseStored(after[i].seatNumbers), ParseStored(after[j].seatNumbers))
    {
      assert after[i] == bs[i];
      if j < |bs| {
        assert after[j] == bs[j];
      }
    }
  }

  /** The corrected claim keeps every schedule consistent with its bookings. */
  lemma ClaimFixedKeepsConsistent(db: Db, capacity: map<int, int>, userId: int, scheduleId: int, req: SeatRequest)
    requires Consistent(db, capacity)
    ensures Consistent(ClaimFixed(db, userId, scheduleId, req).1, capacity)
  {
    var (res, after) := ClaimFixed(db, userId, scheduleId, req);
    if res.Ok? {
      ClaimFailures(db, userId, scheduleId, req);
      ClaimSuccess(db, userId, scheduleId, req);
      var seats := RequestedSeats(req);
      var booking := Booking(userId, scheduleId, StoredSeatNumbers(req), Confirmed);
      var bs := db.bookings;
      var booked := db.schedules[scheduleId].bookedSeats;
      assert after.bookings == bs + [booking];
      assert ParseStored(booking.seatNumbers) == seats;
      forall sid, x | sid in after.schedules
        ensures multiset(after.schedules[sid].bookedSeats)[x] == Held(after.bookings, sid, x)
      {
        HeldAppend(bs, booking, sid, x);
      }
      forall i | 0 <= i < |bs| && bs[i].status == Confirmed && bs[i].scheduleId == scheduleId
        ensures Disjoint(ParseStored(bs[i].seatNumbers), seats)
      {
        forall x | x in ParseStored(bs[i].seatNumbers) ensures x !in seats {
          HeldMember(bs, i, scheduleId, x);
          assert x in multiset(booked);
        }
      }
      AppendSeparate(bs, booking);
    }
  }

  /**
   * Releasing the seats of a confirmed booking from a consistent ledger
   * removes exactly that booking's copies: the ledger shrinks by its seats.
   */
  lemma ReleaseBooking(db: Db, capacity: map<int, int>, k: nat)
    requires Consistent(db, capacity)
    requires k < |db.bookings| && db.bookings[k].status == Confirmed && db.bookings[k].scheduleId in db.schedules
    ensures var b := db.bookings[k];
      var booked := db.schedules[b.scheduleId].bookedSeats;
      var seats := ParseStored(b.seatNumbers);
      multiset(booked) == multiset(Released(booked, seats)) + multiset(seats)
  {
    var b := db.bookings[k];
    var booked := db.schedules[b.scheduleId].bookedSeats;
    var seats := ParseStored(b.seatNumbers);
    ReleasedSpec(booked, seats);
    forall x ensures multiset(booked)[x] == (multiset(Released(booked, seats)) + multiset(seats))[x] {
      if x in seats {
        HeldAt(db.bookings, k, b.scheduleId, x);
      }
    }
  }

  /** The bookings after a cancel: the cancelled one changes status and nothing else. */
  lemma CancelSeparate(bs: seq<Booking>, k: nat)
    requires SeparateBookings(bs) && k < |bs|
    ensures SeparateBookings(bs[k := bs[k].(status := Cancelled)])
  {
    var after := bs[k := bs[k].(status := Cancelled)];
    forall i, j | 0 <= i < j < |after| && after[i].status == Confirmed
      && after[j].status == Confirmed && after[i].scheduleId == after[j].scheduleId
      ensures Disjoint(ParseStored(after[i].seatNumbers), ParseStored(after[j].seatNumbers))
    {
      assert after[i] == bs[i] && after[j] == bs[j];
    }
  }

  /**
   * Cancelling confirmed booking `k` and releasing its seats: the schedule's
   * row keeps its capacity and lists what the remaining bookings hold.
   */
  lemma CancelledRow(db: Db, capacity: map<int, int>, k: nat)
    requires Consistent(db, capacity)
    requires k < |db.bookings| && db.bookings[k].status == Confirmed && db.bookings[k].scheduleId in db.schedules
    ensures var b := db.bookings[k];
      var row := db.schedules[b.scheduleId];
      var seats := ParseStored(b.seatNumbers);
      var newRow := ScheduleRow(row.availableSeats + |seats|, Released(row.bookedSeats, seats));
      && Seats(newRow) == Seats(row)
      && forall x :: multiset(newRow.bookedSeats)[x] == Held(db.bookings[k := b.(status := Cancelled)], b.scheduleId, x)
  {
    var b := db.bookings[k];
    var row := db.schedules[b.scheduleId];
    var seats := ParseStored(b.seatNumbers);
    var newBooked := Released(row.bookedSeats, seats);
    ReleaseBooking(db, capacity, k);
    assert |multiset(row.bookedSeats)| == |multiset(newBooked)| + |multiset(seats)|;
    forall x ensures multiset(newBooked)[x] == Held(db.bookings[k := b.(status := Cancelled)], b.scheduleId, x) {
      HeldUpdate(db.bookings, k, b.(status := Cancelled), b.scheduleId, x);
    }
  }

  /** Cancelling a booking of one schedule leaves what every other schedule's bookings hold. */
  lemma CancelOtherSchedules(bs: seq<Booking>, k: nat, sid: int)
    requires k < |bs| && bs[k].scheduleId != sid
    ensures forall x :: Held(bs[k := bs[k].(status := Cancelled)], sid, x) == Held(bs, sid, x)
  {
    forall x ensures Held(bs[k := bs[k].(status := Cancelled)], sid, x) == Held(bs, sid, x) {
      HeldUpdate(bs, k, bs[k].(status := Cancelled), sid, x);
    }
  }

  /** The corrected cancel keeps every schedule consistent with its bookings. */
  lemma CancelFixedKeepsConsistent(db: Db, capacity: map<int, int>, id: int)
    requires Consistent(db, capacity)
    ensures Consistent(CancelFixed(db, id).1, capacity)
  {
    var (res, after) := CancelFixed(db, id);
    if res.Ok? {
      var k := id - 1;
      var sid := db.bookings[k].scheduleId;
      CancelledRow(db, capacity, k);
      forall s | s in after.schedules && s != sid
        ensures forall x :: Held(after.bookings, s, x) == Held(db.bookings, s, x)
      {
        CancelOtherSchedules(db.bookings, k, s);
      }
      CancelSeparate(db.bookings, k);
    }
  }

  /** A database of freshly created schedules (all seats free, nothing booked) is consistent. */
  lemma FreshSchedulesConsistent(capacity: map<int, int>)
    ensures Consistent(Db(map sid | sid in capacity :: ScheduleRow(capacity[sid], []), []), capacity)
  {
  }
}
