# Event catalog filter and record validations of a ticketing back end

This project models the part of a Rails/Mongoid ticketing service that is
actually implemented: the **event catalog filter** of `EventDao#filters` and the
scopes of `Event` behind it, and the **validations** of the `Event` and
`Purchase` documents. It proves properties of that model in Dafny.

- `Events.Event` and `Purchases.Purchase` are datatypes with one field per
  Mongoid field. Each field is an `Option` because any of them may be `nil`.
  Dates are whole seconds since the Unix epoch (`Days.Timestamp`, UTC). Prices and
  total prices are whole cents.
- A collection is a `seq<Event>` in storage order. A Mongoid criteria chain is
  `Criteria.Where`: it keeps the documents meeting the condition, each with
  all its copies. The model returns them in collection order; the program
  fixes no order (see "Left out").
  Chaining `where` calls is the conjunction of their conditions
  (`Criteria.WhereChain`).
- The scopes `by_category`, `by_city`, `by_date_from`, `by_date_to` and
  `range_date` are functions over sequences. `beginning_of_day` and
  `end_of_day` are `Days.DayStart` and `Days.DayEnd`, defined by integer
  day arithmetic.
- `Services.EventDao` is the service class. Its `model` is the collection it
  queries. `Filters` is a method that reassigns a local `events` sequence
  under the same guards as the source, with the same early return when both
  dates are given. It is proved equal to two other definitions:
  - `Services.Catalog`, a reference definition: every present value must match.
  - `Services.SequentialFilters`, the same steps without the early return.
- The filter input (`app/graphql/types/event_filter_input.rb:5-8`) is
  `Services.EventFilter`, a record of four `Option`s.
- Validations follow ActiveModel. `Errors(x)` is the set of attributes whose
  `validates` line rejects `x`, and `Valid(x)` means that set is empty. The
  e-mail format regular expression is a parameter `emailFormat` of the
  purchase predicates, so the purchase results hold for any format.
- `present?` is ActiveSupport's: a string is blank when it is empty or all
  white space. The code uses `present?` on the filter values, so a filter string of
  spaces is ignored just like `nil` or `""` (`Services.BlankValuesIgnored`).
  The same predicate backs the presence validators.

Notes on the code:
- The validations only demand `available_tickets >= 0`; nothing bounds it by
  `total_tickets` (`Events.AvailableNotBoundedByTotal`). The seed script's
  event shapes include such events, with 100 total and up to 1000 available
  (`Events.SeedShapedEventValid`).
- Ticket purchase and the `events` and `popular_events` resolvers are stubs
  (see "Left out").
- The date bounds compare whole days: `by_date_from(d)` admits events earlier
  on `d`'s own day, and `by_date_to(d)` admits events later on it
  (`Events.ByDateFromAdmitsEarlierSameDay`, `Events.ByDateToAdmitsLaterSameDay`).

## Model

| member | source | states |
|---|---|---|
| Presence.Present | app/services/event_dao.rb:12-13 | `present?`: a present value is non-nil and non-empty, and has at least one non-white-space character (both directions) |
| Presence.NotPresentExamples | app/services/event_dao.rb:12-13 | nil, `""` and all-space strings are not present; `"concert"` and `" x "` are |
| Criteria.Where | app/models/event.rb:36-40 | a criteria's result has at most as many elements as the collection; an element is in the result iff it is in the collection and meets the condition |
| Criteria.WhereIsSubsequence | app/services/event_dao.rb:9-23 | a filtered result is a subsequence of its input (in the model, which fixes collection order) |
| Criteria.WhereCount | app/services/event_dao.rb:9-23 | a kept value keeps all its occurrences; a rejected value has none |
| Criteria.WhereCountAll | app/services/event_dao.rb:9-23 | the multiplicity statement of `WhereCount` for every value at once |
| Criteria.WhereKeepsAll | app/services/event_dao.rb:26-28 | a condition met by every element returns the collection unchanged |
| Criteria.WhereKeepsNone | app/models/event.rb:40 | a condition met by no element returns the empty sequence |
| Criteria.WhereAgree | app/models/event.rb:36-40 | conditions that agree on the collection select the same sequence |
| Criteria.WhereChain | app/models/event.rb:38-40 | applying `where(p)` then `where(q)` equals a single `where(p AND q)` |
| Criteria.GuardedWhere | app/services/event_dao.rb:12-13 | one step `events = events.scope if guard` turns criteria `k` into `k AND (guard ==> q)` |
| Days.DayOf | app/models/event.rb:38-39 | the day number of an instant: the instant lies in `[d*86400, (d+1)*86400)` |
| Days.DayStart | app/models/event.rb:38 | `beginning_of_day`: a multiple of 86400, at most the instant and less than a day before it |
| Days.DayEnd | app/models/event.rb:39 | `end_of_day`: not before the instant, and the last second of its day |
| Days.AtOrAfterDayStart | app/models/event.rb:38 | `x >= beginning_of_day(d)` iff `x`'s day is not before `d`'s day |
| Days.AtOrBeforeDayEnd | app/models/event.rb:39 | `x <= end_of_day(d)` iff `x`'s day is not after `d`'s day |
| Events.Errors | app/models/event.rb:27-34 | an attribute is in the error set iff its validation rejects the event |
| Events.ValidIff | app/models/event.rb:27-34 | an event is valid iff name, venue, city and category are present, date is set, `total_tickets > 0`, `available_tickets >= 0` and `price > 0` |
| Events.OneBrokenRuleInvalidates | app/models/event.rb:27-34 | breaking any single rule makes the event invalid and puts that attribute in the error set |
| Events.MissingNameInvalid | spec/models/event_spec.rb:10-13 | an event with a nil name is invalid, with an error on `name` |
| Events.NegativeAvailableInvalid | spec/models/event_spec.rb:15-18 | an event with `available_tickets = -1` is invalid, with an error on `available_tickets` |
| Events.AvailableNotBoundedByTotal | app/models/event.rb:32-33 | some valid event has `available_tickets > total_tickets` |
| Events.SeedShapedEvent | db/seeds.rb:21-31 | an event with the seed script's `total_tickets` and `available_tickets` values |
| Events.SeedShapedEventValid | db/seeds.rb:28-29 | every seed-shaped event is valid, for every total in the list and every availability in 0..1000 |
| Events.FactoryEvent | spec/factories/events.rb:2-12 | the factory event has `total_tickets = available_tickets = 1000` |
| Events.FactoryEventValid | spec/models/event_spec.rb:5-8 | the factory event is valid whenever its generated strings are not blank, its category is from the factory's list and its price is 20.00 to 200.00 |
| Events.ByCategory | app/models/event.rb:36 | `by_category(c)`: a subsequence of the collection; it keeps every copy of an event whose category equals `c`, and no copy of any other event |
| Events.ByCity | app/models/event.rb:37 | `by_city(c)`: a subsequence of the collection; it keeps every copy of an event whose city equals `c`, and no copy of any other event |
| Events.ByDateFrom | app/models/event.rb:38 | `by_date_from(d)`: a subsequence of the collection; it keeps every copy of an event dated `>= beginning_of_day(d)`, and no copy of any other event |
| Events.ByDateTo | app/models/event.rb:39 | `by_date_to(d)`: a subsequence of the collection; it keeps every copy of an event dated `<= end_of_day(d)`, and no copy of any other event |
| Events.RangeDate | app/models/event.rb:40 | `range_date(f, t)`: a subsequence of the collection; it keeps every copy of an event dated between `beginning_of_day(f)` and `end_of_day(t)`, and no copy of any other event |
| Events.ByDateFromByDay | app/models/event.rb:38 | `by_date_from(d)` keeps exactly the dated events whose day is `d`'s day or later |
| Events.ByDateToByDay | app/models/event.rb:39 | `by_date_to(d)` keeps exactly the dated events whose day is `d`'s day or earlier |
| Events.ByDateFromAdmitsEarlierSameDay | app/models/event.rb:38 | an event earlier than `d` on the same day still passes `by_date_from(d)` |
| Events.ByDateToAdmitsLaterSameDay | app/models/event.rb:39 | an event later than `d` on the same day still passes `by_date_to(d)` |
| Events.RangeDateIsIntersection | app/models/event.rb:38-40 | an event is in `range_date(f, t)` iff it is in both `by_date_from(f)` and `by_date_to(t)` |
| Events.RangeDateIsChain | app/models/event.rb:38-40 | `range_date(f, t)` equals `by_date_from(f)` followed by `by_date_to(t)`, as sequences |
| Events.RangeDateEmptyWhenInverted | app/models/event.rb:40 | if `f`'s day is after `t`'s day, `range_date(f, t)` is empty |
| Purchases.Errors | app/models/purchase.rb:14-17 | an attribute is in the error set iff its validation rejects the purchase |
| Purchases.ValidIff | app/models/purchase.rb:14-17 | a purchase is valid iff the e-mail is present and matches the format, the name is present, `quantity > 0` and `total_price > 0` |
| Purchases.NonPositiveQuantityInvalid | app/models/purchase.rb:16 | a nil or non-positive quantity makes the purchase invalid, with an error on `quantity` |
| Purchases.NonPositiveTotalInvalid | app/models/purchase.rb:17 | a nil or non-positive total price makes the purchase invalid, with an error on `total_price` |
| Purchases.BadCustomerInvalid | app/models/purchase.rb:14-15 | a blank name, a blank e-mail or a rejected e-mail format makes the purchase invalid, with an error on that attribute |
| Purchases.FactoryPurchase | spec/factories/purchases.rb:6-7 | the factory purchase has `total_price = quantity * event.price` |
| Purchases.FactoryPurchaseAmountsValid | db/seeds.rb:48-54 | with a quantity in 1..5 and a positive event price, the quantity and total-price rules both pass |
| Purchases.FactoryPurchaseOfValidEvent | app/models/event.rb:34 | for a valid event (so price > 0), factory purchases with a quantity in 1..5 pass both amount rules |
| Services.Catalog | app/services/event_dao.rb:8-24 | reference filter: a subsequence of the collection in which an event appears iff it is in the collection and meets every present value |
| Services.SequentialIsCatalog | app/services/event_dao.rb:12-21 | applying the guarded steps one after the other, with no early return, gives exactly the reference filter |
| Services.EventDao.constructor | app/services/event_dao.rb:4-6 | the service queries the collection it is given |
| Services.EventDao.All | app/services/event_dao.rb:26-28 | `all` is the unfiltered collection in storage order |
| Services.EventDao.Filters | app/services/event_dao.rb:8-24 | the result, early return included, equals both the reference filter and the sequential steps with no early return |
| Services.NoValuesSelectsAll | app/services/event_dao.rb:9-23 | with no value present, the result is the whole collection |
| Services.CategoryExact | app/services/event_dao.rb:12 | with a category present, every returned event has it, and every event with it that meets the other values is returned |
| Services.CityExact | app/services/event_dao.rb:13 | with a city present, every returned event has it, and every event with it that meets the other values is returned |
| Services.WithoutBlanks | app/services/event_dao.rb:12-13 | dropping the non-present strings leaves only present strings |
| Services.BlankValuesIgnored | app/services/event_dao.rb:12-13 | a nil or blank category or city gives the same result as an absent one |
| Services.OnlyDateFrom | app/services/event_dao.rb:20 | with only `date_from`, the result is `by_date_from` of the collection |
| Services.OnlyDateTo | app/services/event_dao.rb:21 | with only `date_to`, the result is `by_date_to` of the collection |
| Services.BothDates | app/services/event_dao.rb:15-18 | with both dates, an event is returned iff it meets category and city and lies between `beginning_of_day(from)` and `end_of_day(to)` |
| Services.InvertedRangeSelectsNothing | app/services/event_dao.rb:15-17 | with both dates and `from`'s day after `to`'s day, nothing is returned |
| Services.KeepsDuplicates | app/services/event_dao.rb:9-23 | every copy of a matching event is returned and no copy of another one |

## Left out

- Ticket purchase is not modelled. `PurchaseTickets#resolve`
  (app/graphql/mutations/purchase_tickets.rb:30-35) returns no purchase and no
  errors, so there is no reservation, decrement or oversell logic to model.
- The `events` and `popular_events` resolvers are not modelled.
  They return `[]` (app/graphql/types/query_type.rb:39-43, 59-63), so there
  is no pagination and no ranking to model.
- Concurrency and atomic storage updates: the code has none.
- Mongoid persistence, query execution and the indexes (app/models/event.rb:19-24)
  are about storage and speed. A criteria is modelled by its result.
- Criteria.Where: result order — MongoDB does not fix the order of a query
  without `order_by`, and an index can return documents in index order. The
  model returns collection order, so only the membership and multiplicity
  statements (`Where`'s ensures, `WhereCount`, the scopes' multiset clauses,
  `KeepsDuplicates`) carry over to the program. Order claims hold of the model only.
- Purchases.ValidIff: the "iff" covers the validations at
  app/models/purchase.rb:14-17 only. Under Mongoid's default
  `belongs_to_required_by_default`, `belongs_to :event` (line 11) is also a
  validation, so a purchase without an event is invalid. The event reference is
  not modelled.
- `purchases_count`, the `has_many` relationship, `_id` and the
  `created_at`/`updated_at` timestamps are not modelled.
- The GraphQL type and field declarations are transport schema and are not modelled.
- The seed script's I/O, the aggregation printout and the Faker randomness are
  not modelled. Only the fixed constants of the seed script and factories are used.
- Mongoid's type coercion of assigned values (for example a string put into
  an Integer field) is not modelled.
- Purchases.Valid: `URI::MailTo::EMAIL_REGEXP` is a library pattern, so it is the
  parameter `emailFormat` and its exact language is not modelled.
- Events.Valid: `price` is a Float in the source and whole cents here. A
  positive price below one cent has no counterpart.
- Purchases.FactoryPurchase: `quantity * event.price` is Float arithmetic in the
  source and an exact product of integer cents here.
- Purchases.FactoryPurchase: requires the event's price to be set. The
  factory would raise on a nil price.
- Days.DayEnd: one-second resolution, so `end_of_day`'s fractional last
  second (23:59:59.999999999) is not modelled.
- Days.DayStart: UTC only, so time zones and daylight-saving days are not modelled.
- Presence.Present: only ASCII white space counts as blank. Ruby's
  `[[:space:]]` also matches Unicode spaces.
- Services.EventDao.Filters: the `filters` hash is a record of four optional
  values, so a nil hash (which would raise) and unknown keys are not modelled.
