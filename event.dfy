/**
 * The `Event` document: its fields, its validations and its query scopes.
 * Every field may be unset (`nil`). Dates are `Days.Timestamp`s; the price is
 * a whole number of cents.
 */
module Events {
  import opened Wrappers
  import opened Presence
  import opened Criteria
  import opened Days

  type Cents = int

  datatype Event = Event(
    name: Option<string>,
    description: Option<string>,
    date: Option<Timestamp>,
    venue: Option<string>,
    city: Option<string>,
    category: Option<string>,
    totalTickets: Option<int>,
    availableTickets: Option<int>,
    price: Option<Cents>)

  // ---------------------------------------------------------------- validations

  /** The attributes that carry a validation, in declaration order. */
  datatype Attribute =
    Name | Date | Venue | City | Category | TotalTickets | AvailableTickets | Price

  const Validated: set<Attribute> :=
    {Name, Date, Venue, City, Category, TotalTickets, AvailableTickets, Price}

  /** Whether the `validates` line for attribute `a` accepts `e`. */
  predicate Passes(e: Event, a: Attribute) {
    match a
    case Name => Present(e.name)
    case Date => e.date.Some?
    case Venue => Present(e.venue)
    case City => Present(e.city)
    case Category => Present(e.category)
    case TotalTickets => e.totalTickets.Some? && e.totalTickets.value > 0
    case AvailableTickets => e.availableTickets.Some? && e.availableTickets.value >= 0
    case Price => e.price.Some? && e.price.value > 0
  }

  /** The attributes `e.errors` names after `e.valid?` has run its validations. */
  function Errors(e: Event): (r: set<Attribute>)
    ensures forall a :: a in r <==> !Passes(e, a)
  {
    set a | a in Validated && !Passes(e, a)
  }

  /** `e.valid?`: no validation recorded an error. */
  predicate Valid(e: Event) {
    Errors(e) == {}
  }

  /** Validity is exactly the conjunction of the eight rules, each on its raw field. */
  lemma ValidIff(e: Event)
    ensures Valid(e) <==>
      Present(e.name) && e.date.Some? && Present(e.venue) && Present(e.city) && Present(e.category) &&
      e.totalTickets.Some? && e.totalTickets.value > 0 &&
      e.availableTickets.Some? && e.availableTickets.value >= 0 &&
      e.price.Some? && e.price.value > 0
  {
    if Valid(e) {
      assert Name !in Errors(e) && Date !in Errors(e) && Venue !in Errors(e) && City !in Errors(e);
      assert Category !in Errors(e) && TotalTickets !in Errors(e);
      assert AvailableTickets !in Errors(e) && Price !in Errors(e);
    } else {
      var a :| a in Errors(e);
    }
  }

  /** Breaking any one rule makes the event invalid and names that attribute. */
  lemma OneBrokenRuleInvalidates(e: Event, a: Attribute)
    requires !Passes(e, a)
    ensures !Valid(e) && a in Errors(e)
  {
  }

  /** An event without a name is invalid. */
  lemma MissingNameInvalid(e: Event)
    requires e.name == None
    ensures !Valid(e) && Name in Errors(e)
  {
    assert !Passes(e, Name);
  }

  /** An event with `available_tickets = -1` is invalid. */
  lemma NegativeAvailableInvalid(e: Event)
    requires e.availableTickets == Some(-1)
    ensures !Valid(e) && AvailableTickets in Errors(e)
  {
    assert !Passes(e, AvailableTickets);
  }

  /** The validations never compare `available_tickets` with `total_tickets`. */
  lemma AvailableNotBoundedByTotal()
    ensures exists e :: Valid(e) && e.totalTickets.Some? && e.availableTickets.Some? &&
                        e.availableTickets.value > e.totalTickets.value
  {
    var e := SeedShapedEvent(100, 1000);
    SeedShapedEventValid(100, 1000);
    assert Valid(e) && e.availableTickets.value > e.totalTickets.value;
  }

  /**
   * An event with the fixed attributes the seed script uses: a total taken
   * from {100,500,1000,2000,5000} and an availability in 0..1000.
   */
  function SeedShapedEvent(total: int, available: int): (e: Event)
    requires total in {100, 500, 1000, 2000, 5000} && 0 <= available <= 1000
    ensures e.totalTickets == Some(total) && e.availableTickets == Some(available)
  {
    Event(Some("Band - Title"), Some("Text."), Some(0), Some("Venue"), Some("New York"),
          Some("concert"), Some(total), Some(available), Some(1500))
  }

  /** Every seed-shaped event is valid, including those with more available than total tickets. */
  lemma SeedShapedEventValid(total: int, available: int)
    requires total in {100, 500, 1000, 2000, 5000} && 0 <= available <= 1000
    ensures Valid(SeedShapedEvent(total, available))
  {
    var e := SeedShapedEvent(total, available);
    assert !IsSpace(e.name.value[0]) && !IsSpace(e.venue.value[0]);
    assert !IsSpace(e.city.value[0]) && !IsSpace(e.category.value[0]);
    ValidIff(e);
  }

  /** The test factory's event: 1000 of 1000 tickets, a category from its list, a price of 20.00 to 200.00. */
  function FactoryEvent(name: string, description: string, date: Timestamp, venue: string, city: string, category: string, price: Cents): (e: Event)
    ensures e.totalTickets == e.availableTickets == Some(1000)
  {
    Event(Some(name), Some(description), Some(date), Some(venue), Some(city), Some(category), Some(1000), Some(1000), Some(price))
  }

  /** The factory event passes every validation when its generated strings are not blank. */
  lemma FactoryEventValid(name: string, description: string, date: Timestamp, venue: string, city: string, category: string, price: Cents)
    requires !Blank(name) && !Blank(venue) && !Blank(city)
    requires category in {"concert", "sports", "theater", "conference"}
    requires 2000 <= price <= 20000
    ensures Valid(FactoryEvent(name, description, date, venue, city, category, price))
  {
    assert !IsSpace(category[0]);
    ValidIff(FactoryEvent(name, description, date, venue, city, category, price));
  }

  // ---------------------------------------------------------------- scopes

  function HasCategory(c: string): Event -> bool {
    (e: Event) => e.category == Some(c)
  }

  function HasCity(c: string): Event -> bool {
    (e: Event) => e.city == Some(c)
  }

  /** `date >= d.beginning_of_day`; an event without a date never matches. */
  function OnOrAfterDayOf(d: Timestamp): Event -> bool {
    (e: Event) => e.date.Some? && e.date.value >= DayStart(d)
  }

  /** `date <= d.end_of_day`; an event without a date never matches. */
  function OnOrBeforeDayOf(d: Timestamp): Event -> bool {
    (e: Event) => e.date.Some? && e.date.value <= DayEnd(d)
  }

  /** Both bounds of `range_date` in one condition. */
  function InDayRange(from: Timestamp, to: Timestamp): Event -> bool {
    (e: Event) => e.date.Some? && DayStart(from) <= e.date.value <= DayEnd(to)
  }

  /** `scope :by_category`: exact match on the category. */
  function ByCategory(s: seq<Event>, c: string): (r: seq<Event>)
    ensures IsSubsequence(r, s)
    ensures forall e :: e in r <==> e in s && e.category == Some(c)
    ensures forall e :: multiset(r)[e] == if e.category == Some(c) then multiset(s)[e] else 0
  {
    WhereIsSubsequence(s, HasCategory(c));
    WhereCountAll(s, HasCategory(c));
    Where(s, HasCategory(c))
  }

  /** `scope :by_city`: exact match on the city. */
  function ByCity(s: seq<Event>, c: string): (r: seq<Event>)
    ensures IsSubsequence(r, s)
    ensures forall e :: e in r <==> e in s && e.city == Some(c)
    ensures forall e :: multiset(r)[e] == if e.city == Some(c) then multiset(s)[e] else 0
  {
    WhereIsSubsequence(s, HasCity(c));
    WhereCountAll(s, HasCity(c));
    Where(s, HasCity(c))
  }

  /** `scope :by_date_from`: events on the day of `d` or a later day. */
  function ByDateFrom(s: seq<Event>, d: Timestamp): (r: seq<Event>)
    ensures IsSubsequence(r, s)
    ensures forall e :: e in r <==> e in s && e.date.Some? && e.date.value >= DayStart(d)
    ensures forall e :: multiset(r)[e] == if e.date.Some? && e.date.value >= DayStart(d) then multiset(s)[e] else 0
  {
    WhereIsSubsequence(s, OnOrAfterDayOf(d));
    WhereCountAll(s, OnOrAfterDayOf(d));
    Where(s, OnOrAfterDayOf(d))
  }

  /** `scope :by_date_to`: events on the day of `d` or an earlier day. */
  function ByDateTo(s: seq<Event>, d: Timestamp): (r: seq<Event>)
    ensures IsSubsequence(r, s)
    ensures forall e :: e in r <==> e in s && e.date.Some? && e.date.value <= DayEnd(d)
    ensures forall e :: multiset(r)[e] == if e.date.Some? && e.date.value <= DayEnd(d) then multiset(s)[e] else 0
  {
    WhereIsSubsequence(s, OnOrBeforeDayOf(d));
    WhereCountAll(s, OnOrBeforeDayOf(d));
    Where(s, OnOrBeforeDayOf(d))
  }

  /** `scope :range_date`: one criteria holding both day bounds. */
  function RangeDate(s: seq<Event>, from: Timestamp, to: Timestamp): (r: seq<Event>)
    ensures IsSubsequence(r, s)
    ensures forall e :: e in r <==> e in s && e.date.Some? && DayStart(from) <= e.date.value <= DayEnd(to)
    ensures forall e :: multiset(r)[e] == if e.date.Some? && DayStart(from) <= e.date.value <= DayEnd(to) then multiset(s)[e] else 0
  {
    WhereIsSubsequence(s, InDayRange(from, to));
    WhereCountAll(s, InDayRange(from, to));
    Where(s, InDayRange(from, to))
  }

  /** `by_date_from(d)` compares days, not instants: it keeps exactly the events dated on `d`'s day or later. */
  lemma ByDateFromByDay(s: seq<Event>, d: Timestamp, e: Event)
    ensures e in ByDateFrom(s, d) <==> e in s && e.date.Some? && DayOf(e.date.value) >= DayOf(d)
  {
    if e.date.Some? { AtOrAfterDayStart(e.date.value, d); }
  }

  /** `by_date_to(d)` keeps exactly the events dated on `d`'s day or earlier. */
  lemma ByDateToByDay(s: seq<Event>, d: Timestamp, e: Event)
    ensures e in ByDateTo(s, d) <==> e in s && e.date.Some? && DayOf(e.date.value) <= DayOf(d)
  {
    if e.date.Some? { AtOrBeforeDayEnd(e.date.value, d); }
  }

  /** An event earlier on the same day as `d` still passes `by_date_from(d)`. */
  lemma ByDateFromAdmitsEarlierSameDay(s: seq<Event>, d: Timestamp, e: Event)
    requires e in s && e.date.Some? && e.date.value < d && DayOf(e.date.value) == DayOf(d)
    ensures e in ByDateFrom(s, d)
  {
    ByDateFromByDay(s, d, e);
  }

  /** An event later on the same day as `d` still passes `by_date_to(d)`. */
  lemma ByDateToAdmitsLaterSameDay(s: seq<Event>, d: Timestamp, e: Event)
    requires e in s && e.date.Some? && e.date.value > d && DayOf(e.date.value) == DayOf(d)
    ensures e in ByDateTo(s, d)
  {
    ByDateToByDay(s, d, e);
  }

  /** `range_date(f, t)` selects the events both `by_date_from(f)` and `by_date_to(t)` select. */
  lemma RangeDateIsIntersection(s: seq<Event>, from: Timestamp, to: Timestamp, e: Event)
    ensures e in RangeDate(s, from, to) <==> e in ByDateFrom(s, from) && e in ByDateTo(s, to)
  {
  }

  /** Applying `range_date` gives the same sequence as applying `by_date_from` then `by_date_to`. */
  lemma RangeDateIsChain(s: seq<Event>, from: Timestamp, to: Timestamp)
    ensures RangeDate(s, from, to) == ByDateTo(ByDateFrom(s, from), to)
  {
    WhereChain(s, OnOrAfterDayOf(from), OnOrBeforeDayOf(to), InDayRange(from, to));
  }

  /** When `from`'s day is after `to`'s day, `range_date` selects nothing. */
  lemma RangeDateEmptyWhenInverted(s: seq<Event>, from: Timestamp, to: Timestamp)
    requires DayOf(from) > DayOf(to)
    ensures RangeDate(s, from, to) == []
  {
  }
}
