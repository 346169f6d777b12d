/**
 * The schedule filter panel: the dates and route labels a user has picked,
 * edited by toggling, removing one value, or clearing both lists.
 */
module ScheduleFilterPanel {
  import opened Lists
  import opened JsValues
  import opened Dates

  datatype Selection = Selection(selectedDates: seq<string>, selectedRoutes: seq<string>)

  const Empty: Selection := Selection([], [])

  /** The label a route's checkbox toggles: `${route.source} → ${route.destination}`. */
  function RouteLabel(source: Value, destination: Value): string
  {
    ToText(source) + " → " + ToText(destination)
  }

  /** `handleDateChange`: the normalised date is removed if selected, appended otherwise. */
  function HandleDateChange(sel: Selection, date: Value, format: Value -> string): Selection
  {
    sel.(selectedDates := Toggle(sel.selectedDates, NormalizeDate(date, format)))
  }

  /** `handleRouteChange`. */
  function HandleRouteChange(sel: Selection, route: string): Selection
  {
    sel.(selectedRoutes := Toggle(sel.selectedRoutes, route))
  }

  /** `removeDate`. */
  function RemoveDate(sel: Selection, date: string): Selection
  {
    sel.(selectedDates := RemoveAll(sel.selectedDates, date))
  }

  /** `removeRoute`. */
  function RemoveRoute(sel: Selection, route: string): Selection
  {
    sel.(selectedRoutes := RemoveAll(sel.selectedRoutes, route))
  }

  /** `clearAllFilters`. */
  function ClearAllFilters(sel: Selection): (r: Selection)
    ensures r.selectedDates == [] && r.selectedRoutes == []
  {
    Empty
  }

  /** The "Clear All" button is shown while something is selected. */
  predicate ShowsClearAll(sel: Selection)
  {
    |sel.selectedDates| > 0 || |sel.selectedRoutes| > 0
  }

  /**
   * A date change flips the membership of the normalised date and of no other
   * date, appends it when it was absent, and leaves the routes alone; a
   * YYYY-MM-DD string is the date toggled as it is.
   */
  lemma DateChangeToggles(sel: Selection, date: Value, format: Value -> string, other: string)
    ensures var d := NormalizeDate(date, format);
      var after := HandleDateChange(sel, date, format);
      && (d in after.selectedDates <==> d !in sel.selectedDates)
      && (other != d ==> (other in after.selectedDates <==> other in sel.selectedDates))
      && (d !in sel.selectedDates ==> after.selectedDates == sel.selectedDates + [d])
      && after.selectedRoutes == sel.selectedRoutes
    ensures date.Str? && IsIsoDate(date.s) ==> NormalizeDate(date, format) == date.s
  {
    var d := NormalizeDate(date, format);
    ToggleMembership(sel.selectedDates, d, other);
    ToggleShape(sel.selectedDates, d);
  }

  /** A route change flips the membership of that label and of no other, and leaves the dates alone. */
  lemma RouteChangeToggles(sel: Selection, route: string, other: string)
    ensures var after := HandleRouteChange(sel, route);
      && (route in after.selectedRoutes <==> route !in sel.selectedRoutes)
      && (other != route ==> (other in after.selectedRoutes <==> other in sel.selectedRoutes))
      && (route !in sel.selectedRoutes ==> after.selectedRoutes == sel.selectedRoutes + [route])
      && after.selectedDates == sel.selectedDates
  {
    ToggleMembership(sel.selectedRoutes, route, other);
    ToggleShape(sel.selectedRoutes, route);
  }

  /** Neither list holds a value twice. */
  predicate Valid(sel: Selection)
  {
    NoDuplicates(sel.selectedDates) && NoDuplicates(sel.selectedRoutes)
  }

  /** Every edit keeps both lists duplicate-free, starting from the empty selection. */
  lemma EditsKeepValid(sel: Selection, date: Value, format: Value -> string, value: string)
    requires Valid(sel)
    ensures Valid(HandleDateChange(sel, date, format))
    ensures Valid(HandleRouteChange(sel, value))
    ensures Valid(RemoveDate(sel, value)) && Valid(RemoveRoute(sel, value))
    ensures Valid(ClearAllFilters(sel)) && Valid(Empty)
  {
    ToggleNoDuplicates(sel.selectedDates, NormalizeDate(date, format));
    ToggleNoDuplicates(sel.selectedRoutes, value);
    RemoveAllNoDuplicates(sel.selectedDates, value);
    RemoveAllNoDuplicates(sel.selectedRoutes, value);
  }

  /** Toggling a date or a route that was not selected, twice, restores the selection. */
  lemma ToggleTwiceRestores(sel: Selection, date: Value, route: string, format: Value -> string)
    requires NormalizeDate(date, format) !in sel.selectedDates
    requires route !in sel.selectedRoutes
    ensures HandleDateChange(HandleDateChange(sel, date, format), date, format) == sel
    ensures HandleRouteChange(HandleRouteChange(sel, route), route) == sel
  {
    ToggleTwice(sel.selectedDates, NormalizeDate(date, format));
    ToggleTwice(sel.selectedRoutes, route);
  }

  /**
   * Removing a date or a route deletes that value only: the other values keep
   * their order and number, and the other list is untouched.
   */
  lemma RemoveDeletesOnly(sel: Selection, value: string)
    ensures var d := RemoveDate(sel, value);
      && value !in d.selectedDates && IsSubsequence(d.selectedDates, sel.selectedDates)
      && (forall w :: w != value ==> multiset(d.selectedDates)[w] == multiset(sel.selectedDates)[w])
      && d.selectedRoutes == sel.selectedRoutes
    ensures var r := RemoveRoute(sel, value);
      && value !in r.selectedRoutes && IsSubsequence(r.selectedRoutes, sel.selectedRoutes)
      && (forall w :: w != value ==> multiset(r.selectedRoutes)[w] == multiset(sel.selectedRoutes)[w])
      && r.selectedDates == sel.selectedDates
  {
    RemoveAllSpec(sel.selectedDates, value);
    RemoveAllSpec(sel.selectedRoutes, value);
  }

  /** Clearing hides the "Clear All" button, which only a non-empty selection shows. */
  lemma ClearHidesButton(sel: Selection)
    ensures !ShowsClearAll(ClearAllFilters(sel))
    ensures ShowsClearAll(sel) <==> sel != Empty
  {
  }
}
