/**
 * `useFilteredData`: the list pages' shared filter. It keeps the records whose
 * normalised date is among the selected dates, whose route is among the
 * selected routes, and that pass every truthy extra filter (a search over
 * several fields, or a field compared with a value).
 */
module FilteredData {
  import opened Text
  import opened Lists
  import opened JsValues
  import opened Dates
  import opened ScheduleFilterPanel

  /** `data`: an array of records, or anything else (missing, null, an object). */
  datatype Data = NotArray | ArrayOf(items: seq<Item>)

  /** `routeField`: a property name or a function computing the route of a record. */
  datatype RouteSource = FieldNamed(name: string) | Formatter(route: Item -> Value)

  /** A value of `extraFilters`: a primitive, or a `{ term, fields }` search object. */
  datatype ExtraValue = Plain(v: Value) | SearchSpec(term: string, fields: seq<string>)

  datatype Entry = Entry(key: string, value: ExtraValue)

  /** The options, with the entries of `extraFilters` in `Object.entries` order. */
  datatype Options = Options(dateField: string, routeField: RouteSource, extraFilters: seq<Entry>)

  /** The date stage: skipped when no date is selected. */
  predicate DateOk(filters: Selection, options: Options, parse: Value -> Option<string>, item: Item)
  {
    |filters.selectedDates| == 0
    || NormalizeForComparison(Field(item, options.dateField), parse) in filters.selectedDates
  }

  function RouteOf(options: Options, item: Item): Value
  {
    match options.routeField
    case FieldNamed(name) => Field(item, name)
    case Formatter(route) => route(item)
  }

  /** The route stage: skipped when no route is selected; `includes` matches only a string route. */
  predicate RouteOk(filters: Selection, options: Options, item: Item)
  {
    |filters.selectedRoutes| == 0
    || (RouteOf(options, item).Str? && RouteOf(options, item).s in filters.selectedRoutes)
  }

  /** One field of the search: a truthy value whose lower-cased string form contains the lower-cased term. */
  predicate SearchHit(item: Item, field: string, term: string)
  {
    Truthy(Field(item, field)) && Contains(Lower(ToText(Field(item, field))), Lower(term))
  }

  /** Whether an entry filters at all: a falsy value is skipped, and so is a search without a term or fields. */
  predicate ExtraActive(e: Entry)
  {
    match e.value
    case Plain(v) => Truthy(v)
    case SearchSpec(term, fields) => e.key != "search" || (term != "" && |fields| > 0)
  }

  /**
   * One extra filter. A search object under the key "search" keeps the records
   * some listed field matches; a search object under another key is compared
   * with the record's field by identity, which no field value shares, so it
   * keeps nothing. A primitive is compared ignoring case when both sides are
   * strings and by strict equality otherwise.
   */
  predicate ExtraOk(e: Entry, item: Item)
  {
    !ExtraActive(e) ||
    match e.value
    case SearchSpec(term, fields) =>
      e.key == "search" && exists i :: 0 <= i < |fields| && SearchHit(item, fields[i], term)
    case Plain(v) =>
      var fieldValue := Field(item, e.key);
      if fieldValue.Str? && v.Str? then Lower(fieldValue.s) == Lower(v.s) else fieldValue == v
  }

  predicate ExtrasOk(entries: seq<Entry>, item: Item)
  {
    forall i :: 0 <= i < |entries| ==> ExtraOk(entries[i], item)
  }

  /** What the whole pipeline keeps: a record passing every stage. */
  predicate Keeps(filters: Selection, options: Options, parse: Value -> Option<string>, item: Item)
  {
    DateOk(filters, options, parse, item) && RouteOk(filters, options, item)
    && ExtrasOk(options.extraFilters, item)
  }

  function DateTest(filters: Selection, options: Options, parse: Value -> Option<string>): Item -> bool
  {
    item => DateOk(filters, options, parse, item)
  }

  function RouteTest(filters: Selection, options: Options): Item -> bool
  {
    item => RouteOk(filters, options, item)
  }

  function BaseTest(filters: Selection, options: Options, parse: Value -> Option<string>): Item -> bool
  {
    item => DateOk(filters, options, parse, item) && RouteOk(filters, options, item)
  }

  function ExtraTest(e: Entry): Item -> bool
  {
    item => ExtraOk(e, item)
  }

  function ExtrasTest(entries: seq<Entry>): Item -> bool
  {
    item => ExtrasOk(entries, item)
  }

  function KeepsTest(filters: Selection, options: Options, parse: Value -> Option<string>): Item -> bool
  {
    item => Keeps(filters, options, parse, item)
  }

  /**
   * The hook's computation: the date stage, the route stage, then one stage
   * per extra filter, each skipped when inactive. The result is the records
   * that pass every stage, in their order.
   */
  method FilterData(data: Data, filters: Selection, options: Options, parse: Value -> Option<string>)
    returns (filtered: seq<Item>)
    ensures data.NotArray? ==> filtered == []
    ensures data.ArrayOf? ==> filtered == Filter(data.items, KeepsTest(filters, options, parse))
  {
    if data.NotArray? {
      return [];
    }
    var items := data.items;
    filtered := items;
    if |filters.selectedDates| > 0 {
      filtered := Filter(filtered, DateTest(filters, options, parse));
    }
    if |filters.selectedRoutes| > 0 {
      filtered := Filter(filtered, RouteTest(filters, options));
    }
    SkippedStages(items, filters, options, parse);
    filtered := ApplyExtras(filtered, options.extraFilters);
    LastStage(items, filters, options, parse);
  }

  /** The `forEach` over the entries of `extraFilters`: one stage per active entry. */
  method ApplyExtras(base: seq<Item>, entries: seq<Entry>) returns (filtered: seq<Item>)
    ensures filtered == Filter(base, ExtrasTest(entries))
  {
    filtered := base;
    FilterKeepsAll(base, ExtrasTest([]));
    var k := 0;
    while k < |entries|
      invariant 0 <= k <= |entries|
      invariant filtered == Filter(base, ExtrasTest(entries[..k]))
    {
      var e := entries[k];
      ExtraStage(base, entries, k);
      if ExtraActive(e) {
        filtered := Filter(filtered, ExtraTest(e));
      } else {
        FilterKeepsAll(filtered, ExtraTest(e));
      }
      k := k + 1;
    }
    assert entries[..k] == entries;
  }

  /** The date and route stages, each run only when its list is not empty, filter by their conjunction. */
  lemma SkippedStages(items: seq<Item>, filters: Selection, options: Options, parse: Value -> Option<string>)
    ensures var afterDates := if |filters.selectedDates| > 0 then Filter(items, DateTest(filters, options, parse)) else items;
      var afterRoutes := if |filters.selectedRoutes| > 0 then Filter(afterDates, RouteTest(filters, options)) else afterDates;
      afterRoutes == Filter(items, BaseTest(filters, options, parse))
  {
    if |filters.selectedDates| == 0 {
      FilterKeepsAll(items, DateTest(filters, options, parse));
    }
    var afterDates := Filter(items, DateTest(filters, options, parse));
    if |filters.selectedRoutes| == 0 {
      FilterKeepsAll(afterDates, RouteTest(filters, options));
    }
    FilterThen(items, DateTest(filters, options, parse), RouteTest(filters, options), BaseTest(filters, options, parse));
  }

  /** One more extra filter narrows the records passing the earlier ones to those passing all. */
  lemma ExtraStage(base: seq<Item>, entries: seq<Entry>, k: nat)
    requires k < |entries|
    ensures Filter(Filter(base, ExtrasTest(entries[..k])), ExtraTest(entries[k])) == Filter(base, ExtrasTest(entries[..k + 1]))
  {
    ExtrasStep(entries, k);
    FilterThen(base, ExtrasTest(entries[..k]), ExtraTest(entries[k]), ExtrasTest(entries[..k + 1]));
  }

  /** Passing the first k + 1 extra filters is passing the first k and then the next one. */
  lemma ExtrasStep(entries: seq<Entry>, k: nat)
    requires k < |entries|
    ensures forall x :: ExtrasTest(entries[..k + 1])(x) == (ExtrasTest(entries[..k])(x) && ExtraTest(entries[k])(x))
  {
    forall x ensures ExtrasOk(entries[..k + 1], x) == (ExtrasOk(entries[..k], x) && ExtraOk(entries[k], x)) {
      assert forall i :: 0 <= i < k ==> entries[..k + 1][i] == entries[..k][i];
      assert entries[..k + 1][k] == entries[k];
    }
  }

  /** The extra filters after the date and route stages keep what passes every stage. */
  lemma LastStage(items: seq<Item>, filters: Selection, options: Options, parse: Value -> Option<string>)
    ensures Filter(Filter(items, BaseTest(filters, options, parse)), ExtrasTest(options.extraFilters))
      == Filter(items, KeepsTest(filters, options, parse))
  {
    FilterThen(items, BaseTest(filters, options, parse), ExtrasTest(options.extraFilters), KeepsTest(filters, options, parse));
  }

  /**
   * The result keeps the input's order and, of each record, every copy when
   * it passes all stages and none otherwise.
   */
  lemma ResultIsOrderedSelection(items: seq<Item>, filters: Selection, options: Options, parse: Value -> Option<string>)
    ensures var r := Filter(items, KeepsTest(filters, options, parse));
      && IsSubsequence(r, items)
      && (forall x :: x in r <==> x in items && Keeps(filters, options, parse, x))
      && (forall x :: multiset(r)[x] == if Keeps(filters, options, parse, x) then multiset(items)[x] else 0)
  {
    var p := KeepsTest(filters, options, parse);
    FilterIsSubsequence(items, p);
    forall x ensures x in Filter(items, p) <==> x in items && Keeps(filters, options, parse, x) {
      FilterMembership(items, p, x);
    }
    forall x ensures multiset(Filter(items, p))[x] == if Keeps(filters, options, parse, x) then multiset(items)[x] else 0 {
      FilterCount(items, p, x);
    }
  }

  /** With no date, no route and only falsy extra filters, every record is kept. */
  lemma NoFiltersKeepAll(items: seq<Item>, options: Options, parse: Value -> Option<string>)
    requires forall i :: 0 <= i < |options.extraFilters| ==>
      options.extraFilters[i].value.Plain? && !Truthy(options.extraFilters[i].value.v)
    ensures Filter(items, KeepsTest(Selection([], []), options, parse)) == items
  {
    FilterKeepsAll(items, KeepsTest(Selection([], []), options, parse));
  }

  /**
   * The search: with a term and at least one field, a record is kept iff some
   * listed field, lower-cased, contains the lower-cased term at some position.
   */
  lemma SearchMatches(item: Item, term: string, fields: seq<string>)
    requires term != "" && |fields| > 0
    ensures ExtraOk(Entry("search", SearchSpec(term, fields)), item) <==>
      exists i :: 0 <= i < |fields| && Truthy(Field(item, fields[i]))
        && exists k :: OccursAt(Lower(ToText(Field(item, fields[i]))), Lower(term), k)
  {
    forall i | 0 <= i < |fields| {
      ContainsAt(Lower(ToText(Field(item, fields[i]))), Lower(term));
    }
  }

  /** A string filter value matches a string field ignoring ASCII case; any other value matches only itself. */
  lemma PlainMatches(item: Item, key: string, v: Value)
    requires Truthy(v)
    ensures v.Str? && Field(item, key).Str? ==>
      (ExtraOk(Entry(key, Plain(v)), item) <==> Lower(Field(item, key).s) == Lower(v.s))
    ensures !(v.Str? && Field(item, key).Str?) ==>
      (ExtraOk(Entry(key, Plain(v)), item) <==> Field(item, key) == v)
  {
  }
}
