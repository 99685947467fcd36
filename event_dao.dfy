/**
 * The event service: the catalog filter that narrows the whole collection by
 * the optional category, city and date values of an `EventFilterInput`.
 */
module Services {
  import opened Wrappers
  import opened Presence
  import opened Criteria
  import opened Days
  import opened Events

  /** The filter input object: every value is optional. */
  datatype EventFilter = EventFilter(
    category: Option<string>,
    city: Option<string>,
    dateFrom: Option<Timestamp>,
    dateTo: Option<Timestamp>)

  /** Whether `e` meets every filter value that is given (strings only when present). */
  predicate Matches(f: EventFilter, e: Event) {
    (Present(f.category) ==> e.category == f.category) &&
    (Present(f.city) ==> e.city == f.city) &&
    (f.dateFrom.Some? ==> e.date.Some? && e.date.value >= DayStart(f.dateFrom.value)) &&
    (f.dateTo.Some? ==> e.date.Some? && e.date.value <= DayEnd(f.dateTo.value))
  }

  function Matcher(f: EventFilter): Event -> bool {
    (e: Event) => Matches(f, e)
  }

  /** Reference definition of the filter: the events meeting every given value, in collection order. */
  function Catalog(s: seq<Event>, f: EventFilter): (r: seq<Event>)
    ensures IsSubsequence(r, s)
    ensures forall e :: e in r <==> e in s && Matches(f, e)
  {
    WhereIsSubsequence(s, Matcher(f));
    Where(s, Matcher(f))
  }

  /** The filter steps applied one after the other, without the early return for a full date range. */
  function SequentialFilters(s: seq<Event>, f: EventFilter): seq<Event> {
    var byCategory := if Present(f.category) then ByCategory(s, f.category.value) else s;
    var byCity := if Present(f.city) then ByCity(byCategory, f.city.value) else byCategory;
    var byFrom := if f.dateFrom.Some? then ByDateFrom(byCity, f.dateFrom.value) else byCity;
    if f.dateTo.Some? then ByDateTo(byFrom, f.dateTo.value) else byFrom
  }

  /** Applying the guarded steps in order selects exactly the reference catalog. */
  lemma SequentialIsCatalog(s: seq<Event>, f: EventFilter)
    ensures SequentialFilters(s, f) == Catalog(s, f)
  {
    var k0: Event -> bool := (e: Event) => true;
    var k1: Event -> bool := (e: Event) => Present(f.category) ==> e.category == f.category;
    var k2: Event -> bool := (e: Event) => k1(e) && (Present(f.city) ==> e.city == f.city);
    var k3: Event -> bool := (e: Event) => k2(e) &&
      (f.dateFrom.Some? ==> e.date.Some? && e.date.value >= DayStart(f.dateFrom.value));
    WhereKeepsAll(s, k0);
    GuardedWhere(s, k0, Present(f.category), HasCategory(f.category.GetOr("")), k1);
    GuardedWhere(s, k1, Present(f.city), HasCity(f.city.GetOr("")), k2);
    GuardedWhere(s, k2, f.dateFrom.Some?, OnOrAfterDayOf(f.dateFrom.GetOr(0)), k3);
    GuardedWhere(s, k3, f.dateTo.Some?, OnOrBeforeDayOf(f.dateTo.GetOr(0)), Matcher(f));
  }

  class EventDao {
    /** The collection the service queries, in storage order. */
    const model: seq<Event>

    constructor(model: seq<Event>)
      ensures this.model == model
    {
      this.model := model;
    }

    /** The unfiltered collection. */
    function All(): (r: seq<Event>)
      ensures r == model
    {
      model
    }

    /**
     * Narrows the collection step by step; with both dates given it applies
     * `range_date` and returns at once.
     */
    method Filters(filters: EventFilter) returns (events: seq<Event>)
      ensures events == Catalog(model, filters)
      ensures events == SequentialFilters(model, filters)
    {
      events := All();

      if Present(filters.category) {
        events := ByCategory(events, filters.category.value);
      }
      if Present(filters.city) {
        events := ByCity(events, filters.city.value);
      }

      if filters.dateFrom.Some? && filters.dateTo.Some? {
        RangeDateIsChain(events, filters.dateFrom.value, filters.dateTo.value);
        events := RangeDate(events, filters.dateFrom.value, filters.dateTo.value);
        SequentialIsCatalog(model, filters);
        return;
      }

      if filters.dateFrom.Some? {
        events := ByDateFrom(events, filters.dateFrom.value);
      }
      if filters.dateTo.Some? {
        events := ByDateTo(events, filters.dateTo.value);
      }
      SequentialIsCatalog(model, filters);
    }
  }

  // ---------------------------------------------------------------- properties of the filter

  /** With no value given, the filter returns the whole collection in order. */
  lemma NoValuesSelectsAll(s: seq<Event>, f: EventFilter)
    requires !Present(f.category) && !Present(f.city) && f.dateFrom.None? && f.dateTo.None?
    ensures Catalog(s, f) == s
  {
    WhereKeepsAll(s, Matcher(f));
  }

  /** A given category is matched exactly: nothing else is returned, and nothing meeting the other values is lost. */
  lemma CategoryExact(s: seq<Event>, f: EventFilter, e: Event)
    requires Present(f.category)
    ensures e in Catalog(s, f) ==> e.category == f.category
    ensures e in s && e.category == f.category && Matches(f.(category := None), e) ==> e in Catalog(s, f)
  {
  }

  /** A given city is matched exactly. */
  lemma CityExact(s: seq<Event>, f: EventFilter, e: Event)
    requires Present(f.city)
    ensures e in Catalog(s, f) ==> e.city == f.city
    ensures e in s && e.city == f.city && Matches(f.(city := None), e) ==> e in Catalog(s, f)
  {
  }

  /** The filter with every nil or blank string value dropped. */
  function WithoutBlanks(f: EventFilter): (g: EventFilter)
    ensures g.category.Some? ==> Present(g.category)
    ensures g.city.Some? ==> Present(g.city)
  {
    EventFilter(
      if Present(f.category) then f.category else None,
      if Present(f.city) then f.city else None,
      f.dateFrom, f.dateTo)
  }

  /** A nil or blank category or city is ignored, as if it had not been given. */
  lemma BlankValuesIgnored(s: seq<Event>, f: EventFilter)
    ensures Catalog(s, f) == Catalog(s, WithoutBlanks(f))
  {
    WhereAgree(s, Matcher(f), Matcher(WithoutBlanks(f)));
  }

  /** With only `date_from` given, the filter is `by_date_from`. */
  lemma OnlyDateFrom(s: seq<Event>, d: Timestamp)
    ensures Catalog(s, EventFilter(None, None, Some(d), None)) == ByDateFrom(s, d)
  {
    WhereAgree(s, Matcher(EventFilter(None, None, Some(d), None)), OnOrAfterDayOf(d));
  }

  /** With only `date_to` given, the filter is `by_date_to`. */
  lemma OnlyDateTo(s: seq<Event>, d: Timestamp)
    ensures Catalog(s, EventFilter(None, None, None, Some(d))) == ByDateTo(s, d)
  {
    WhereAgree(s, Matcher(EventFilter(None, None, None, Some(d))), OnOrBeforeDayOf(d));
  }

  /** With both dates given, exactly the events between the start of `from`'s day and the end of `to`'s day that meet the other values. */
  lemma BothDates(s: seq<Event>, f: EventFilter, e: Event)
    requires f.dateFrom.Some? && f.dateTo.Some?
    ensures e in Catalog(s, f) <==>
      e in s && Matches(f.(dateFrom := None, dateTo := None), e) &&
      e.date.Some? && DayStart(f.dateFrom.value) <= e.date.value <= DayEnd(f.dateTo.value)
  {
  }

  /** When `from`'s day is after `to`'s day, nothing is returned. */
  lemma InvertedRangeSelectsNothing(s: seq<Event>, f: EventFilter)
    requires f.dateFrom.Some? && f.dateTo.Some? && DayOf(f.dateFrom.value) > DayOf(f.dateTo.value)
    ensures Catalog(s, f) == []
  {
    forall e | e in s
      ensures !Matches(f, e)
    {
      if e.date.Some? {
        AtOrAfterDayStart(e.date.value, f.dateFrom.value);
        AtOrBeforeDayEnd(e.date.value, f.dateTo.value);
      }
    }
    WhereKeepsNone(s, Matcher(f));
  }

  /** Every copy of a matching event in the collection is returned; no copy of another one is. */
  lemma KeepsDuplicates(s: seq<Event>, f: EventFilter, e: Event)
    ensures multiset(Catalog(s, f))[e] == if Matches(f, e) then multiset(s)[e] else 0
  {
    WhereCount(s, Matcher(f), e);
  }
}
