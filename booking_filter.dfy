/**
 * `filterBookings` of the staff bookings page: a search on the customer's name
 * or e-mail, the selected dates, the selected route labels and an exact status,
 * each stage skipped while its filter is empty.
 */
module BookingFilter {
  import opened Text
  import opened Lists
  import opened JsValues
  import opened Dates
  import opened ScheduleFilterPanel

  /** The fields of a fetched booking the page filters on; a missing name or e-mail is `None`. */
  datatype BookingRow = BookingRow(
    userName: Option<string>, email: Option<string>, scheduleDate: Value,
    source: Value, destination: Value, bookingStatus: Value)

  /** `b.field?.toLowerCase().includes(term.toLowerCase())`: false when the field is missing. */
  predicate MentionsTerm(field: Option<string>, term: string)
  {
    field.Some? && Contains(Lower(field.value), Lower(term))
  }

  predicate SearchOk(searchTerm: string, b: BookingRow)
  {
    searchTerm == "" || MentionsTerm(b.userName, searchTerm) || MentionsTerm(b.email, searchTerm)
  }

  predicate DateOk(filters: Selection, parse: Value -> Option<string>, b: BookingRow)
  {
    |filters.selectedDates| == 0 || NormalizeForComparison(b.scheduleDate, parse) in filters.selectedDates
  }

  predicate RouteOk(filters: Selection, b: BookingRow)
  {
    |filters.selectedRoutes| == 0 || RouteLabel(b.source, b.destination) in filters.selectedRoutes
  }

  predicate StatusOk(statusFilter: string, b: BookingRow)
  {
    statusFilter == "" || b.bookingStatus == Str(statusFilter)
  }

  /** A booking the page lists: it passes all four stages. */
  predicate Listed(searchTerm: string, filters: Selection, statusFilter: string, parse: Value -> Option<string>, b: BookingRow)
  {
    SearchOk(searchTerm, b) && DateOk(filters, parse, b) && RouteOk(filters, b) && StatusOk(statusFilter, b)
  }

  function SearchTest(searchTerm: string): BookingRow -> bool
  {
    b => SearchOk(searchTerm, b)
  }

  function DateTest(filters: Selection, parse: Value -> Option<string>): BookingRow -> bool
  {
    b => DateOk(filters, parse, b)
  }

  function RouteTest(filters: Selection): BookingRow -> bool
  {
    b => RouteOk(filters, b)
  }

  function StatusTest(statusFilter: string): BookingRow -> bool
  {
    b => StatusOk(statusFilter, b)
  }

  function SearchDateTest(searchTerm: string, filters: Selection, parse: Value -> Option<string>): BookingRow -> bool
  {
    b => SearchOk(searchTerm, b) && DateOk(filters, parse, b)
  }

  function SearchDateRouteTest(searchTerm: string, filters: Selection, parse: Value -> Option<string>): BookingRow -> bool
  {
    b => SearchOk(searchTerm, b) && DateOk(filters, parse, b) && RouteOk(filters, b)
  }

  function ListedTest(searchTerm: string, filters: Selection, statusFilter: string, parse: Value -> Option<string>): BookingRow -> bool
  {
    b => Listed(searchTerm, filters, statusFilter, parse, b)
  }

  /** `filterBookings`: `filtered` is narrowed by each stage whose filter is set, in order. */
  method FilterBookings(bookings: seq<BookingRow>, searchTerm: string, filters: Selection, statusFilter: string,
                        parse: Value -> Option<string>)
    returns (filtered: seq<BookingRow>)
    ensures filtered == Filter(bookings, ListedTest(searchTerm, filters, statusFilter, parse))
  {
    filtered := bookings;
    if searchTerm != "" {
      filtered := Filter(filtered, SearchTest(searchTerm));
    }
    if |filters.selectedDates| > 0 {
      filtered := Filter(filtered, DateTest(filters, parse));
    }
    if |filters.selectedRoutes| > 0 {
      filtered := Filter(filtered, RouteTest(filters));
    }
    if statusFilter != "" {
      filtered := Filter(filtered, StatusTest(statusFilter));
    }
    StagesCompose(bookings, searchTerm, filters, statusFilter, parse);
  }

  /** A stage whose filter is empty keeps everything, so it may be run or skipped alike. */
  lemma SkippedStage(s: seq<BookingRow>, searchTerm: string, filters: Selection, statusFilter: string,
                     parse: Value -> Option<string>)
    ensures searchTerm == "" ==> Filter(s, SearchTest(searchTerm)) == s
    ensures |filters.selectedDates| == 0 ==> Filter(s, DateTest(filters, parse)) == s
    ensures |filters.selectedRoutes| == 0 ==> Filter(s, RouteTest(filters)) == s
    ensures statusFilter == "" ==> Filter(s, StatusTest(statusFilter)) == s
  {
    if searchTerm == "" {
      FilterKeepsAll(s, SearchTest(searchTerm));
    }
    if |filters.selectedDates| == 0 {
      FilterKeepsAll(s, DateTest(filters, parse));
    }
    if |filters.selectedRoutes| == 0 {
      FilterKeepsAll(s, RouteTest(filters));
    }
    if statusFilter == "" {
      FilterKeepsAll(s, StatusTest(statusFilter));
    }
  }

  /** The four stages in a row filter by their conjunction. */
  lemma StagesCompose(bookings: seq<BookingRow>, searchTerm: string, filters: Selection, statusFilter: string,
                      parse: Value -> Option<string>)
    ensures var s1 := if searchTerm != "" then Filter(bookings, SearchTest(searchTerm)) else bookings;
      var s2 := if |filters.selectedDates| > 0 then Filter(s1, DateTest(filters, parse)) else s1;
      var s3 := if |filters.selectedRoutes| > 0 then Filter(s2, RouteTest(filters)) else s2;
      var s4 := if statusFilter != "" then Filter(s3, StatusTest(statusFilter)) else s3;
      s4 == Filter(bookings, ListedTest(searchTerm, filters, statusFilter, parse))
  {
    var t1 := Filter(bookings, SearchTest(searchTerm));
    SkippedStage(bookings, searchTerm, filters, statusFilter, parse);
    var t2 := Filter(t1, DateTest(filters, parse));
    SkippedStage(t1, searchTerm, filters, statusFilter, parse);
    FilterThen(bookings, SearchTest(searchTerm), DateTest(filters, parse), SearchDateTest(searchTerm, filters, parse));
    var t3 := Filter(t2, RouteTest(filters));
    SkippedStage(t2, searchTerm, filters, statusFilter, parse);
    FilterThen(bookings, SearchDateTest(searchTerm, filters, parse), RouteTest(filters), SearchDateRouteTest(searchTerm, filters, parse));
    SkippedStage(t3, searchTerm, filters, statusFilter, parse);
    FilterThen(bookings, SearchDateRouteTest(searchTerm, filters, parse), StatusTest(statusFilter),
               ListedTest(searchTerm, filters, statusFilter, parse));
  }

  /**
   * The listed bookings keep the page's order and, of each booking, every copy
   * when it passes all stages and none otherwise; with every filter empty,
   * all bookings are listed.
   */
  lemma ListedSelection(bookings: seq<BookingRow>, searchTerm: string, filters: Selection, statusFilter: string,
                        parse: Value -> Option<string>)
    ensures var r := Filter(bookings, ListedTest(searchTerm, filters, statusFilter, parse));
      && IsSubsequence(r, bookings)
      && (forall b :: b in r <==> b in bookings && Listed(searchTerm, filters, statusFilter, parse, b))
      && (searchTerm == "" && filters == Selection([], []) && statusFilter == "" ==> r == bookings)
  {
    var p := ListedTest(searchTerm, filters, statusFilter, parse);
    FilterIsSubsequence(bookings, p);
    forall b ensures b in Filter(bookings, p) <==> b in bookings && Listed(searchTerm, filters, statusFilter, parse, b) {
      FilterMembership(bookings, p, b);
    }
    if searchTerm == "" && filters == Selection([], []) && statusFilter == "" {
      FilterKeepsAll(bookings, p);
    }
  }

  /**
   * The search matches a name or e-mail containing the term at some position,
   * ignoring ASCII case; the route stage matches the label the filter panel
   * toggles for that route.
   */
  lemma SearchAndRouteMatch(b: BookingRow, searchTerm: string, filters: Selection)
    requires searchTerm != ""
    ensures SearchOk(searchTerm, b) <==>
      || (b.userName.Some? && exists k :: OccursAt(Lower(b.userName.value), Lower(searchTerm), k))
      || (b.email.Some? && exists k :: OccursAt(Lower(b.email.value), Lower(searchTerm), k))
    ensures |filters.selectedRoutes| > 0 ==>
      (RouteOk(filters, b) <==> ToText(b.source) + " → " + ToText(b.destination) in filters.selectedRoutes)
  {
    if b.userName.Some? {
      ContainsAt(Lower(b.userName.value), Lower(searchTerm));
    }
    if b.email.Some? {
      ContainsAt(Lower(b.email.value), Lower(searchTerm));
    }
  }
}
