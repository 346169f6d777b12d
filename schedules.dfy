/**
 * `POST /api/schedules`: one schedule per day from the start date to the end
 * date inclusive, each with every seat of the bus free and nothing booked.
 * Days are whole numbers; an unparseable date is `None` (an Invalid Date, with
 * which every comparison is false).
 */
module ScheduleCreation {
  import opened Text
  import opened JsValues

  datatype ScheduleRequest = ScheduleRequest(
    busId: int, routeId: int, departureTime: string,
    startDate: Option<int>, endDate: Option<int>, price: string)

  /** A row inserted into `schedules`; `booked_seats` is stored as the empty list. */
  datatype NewSchedule = NewSchedule(
    busId: int, routeId: int, departureTime: string, scheduleDate: int,
    price: string, availableSeats: int, bookedSeats: seq<string>)

  datatype Outcome =
    | Created(rows: seq<NewSchedule>, message: string, dates: seq<int>)
      // `bus[0].total_seats` on an unknown bus throws inside the loop, before the first insert
    | Failed

  /** The number of days the loop visits: none unless both dates are valid and start <= end. */
  function DayCount(start: Option<int>, end: Option<int>): nat
  {
    if start.Some? && end.Some? && start.value <= end.value then end.value - start.value + 1 else 0
  }

  /** `${schedules.length} schedules created successfully`. */
  function CreatedMessage(count: nat): string
  {
    IntToString(count) + " schedules created successfully"
  }

  /**
   * The handler, with the bus lookup as `totalSeats` (`None` for an unknown
   * bus). The loop advances the day and inserts one row per day; the seat
   * count is read on the first iteration, so an unknown bus fails only when
   * the range is not empty.
   */
  method CreateSchedules(req: ScheduleRequest, totalSeats: Option<int>) returns (outcome: Outcome)
    ensures outcome.Failed? <==> totalSeats.None? && DayCount(req.startDate, req.endDate) > 0
    ensures outcome.Created? ==>
      && |outcome.rows| == |outcome.dates| == DayCount(req.startDate, req.endDate)
      && outcome.message == CreatedMessage(|outcome.dates|)
      && (forall i :: 0 <= i < |outcome.dates| ==> outcome.dates[i] == req.startDate.value + i)
      && (forall i :: 0 <= i < |outcome.rows| ==>
            outcome.rows[i] == NewSchedule(req.busId, req.routeId, req.departureTime, outcome.dates[i],
                                           req.price, totalSeats.value, []))
  {
    var rows: seq<NewSchedule> := [];
    var dates: seq<int> := [];
    if req.startDate.None? || req.endDate.None? {
      return Created([], CreatedMessage(0), []);
    }
    var start := req.startDate.value;
    var end := req.endDate.value;
    var date := start;
    while date <= end
      invariant start <= date <= end + 1 || (date == start && start > end)
      invariant |dates| == |rows| == date - start
      invariant forall i :: 0 <= i < |dates| ==> dates[i] == start + i
      invariant totalSeats.Some? ==> forall i :: 0 <= i < |rows| ==>
        rows[i] == NewSchedule(req.busId, req.routeId, req.departureTime, dates[i], req.price, totalSeats.value, [])
      invariant totalSeats.None? ==> date == start
      decreases end - date
    {
      if totalSeats.None? {
        return Failed;
      }
      rows := rows + [NewSchedule(req.busId, req.routeId, req.departureTime, date, req.price, totalSeats.value, [])];
      dates := dates + [date];
      date := date + 1;
    }
    outcome := Created(rows, CreatedMessage(|dates|), dates);
  }

  /** The dates run over consecutive days in increasing order. */
  lemma ConsecutiveDays(dates: seq<int>, start: int)
    requires forall i :: 0 <= i < |dates| ==> dates[i] == start + i
    ensures forall i, j :: 0 <= i < j < |dates| ==> dates[i] < dates[j] && dates[j] - dates[i] == j - i
    ensures forall i :: 0 <= i < |dates| - 1 ==> dates[i + 1] == dates[i] + 1
  {
  }
}
