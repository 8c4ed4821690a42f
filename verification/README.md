# Flight search core, modelled in Dafny

This project models the pure logic beneath the flight search demo application:

- `filterFlights` (`src/lib/flight-utils.ts`): from a list of flight offers, keep those whose
  outbound leg departs from the requested origin airport code, arrives at the requested
  destination code, and departs on the same UTC calendar day (equal `getUTCFullYear`,
  `getUTCMonth` and `getUTCDate`) as the criteria date;
- the dataset loader (`src/lib/data-loader.ts`): `parseDescription`, which splits an airport
  description such as "Amsterdam, Netherlands" into city and country, and `loadAirports` /
  `loadFlights`, which map or pass through the parsed fixtures and fall back to an empty list
  on any failure.

Files:

| file | module | models |
|---|---|---|
| `optional.dfy` | `Optional` | `null` / `undefined` as `None` |
| `utc_calendar.dfy` | `UtcCalendar` | a `Date` as a time value in ms, and the UTC year/month/day getters of section 21.4.1 of ECMA-262 |
| `data.dfy` | `Data` | the records of `src/types/data.ts` |
| `sequences.dfy` | `Sequences` | order-preserving selection, and `Array.prototype.find` |
| `js_strings.dfy` | `JsStrings` | `String.prototype.split` on one character, `String.prototype.trim` |
| `flight_utils.dfy` | `FlightUtils` | `filterFlights` |
| `flight_utils_examples.dfy` | `FlightUtilsExamples` | the filter's unit-test scenarios |
| `data_loader.dfy` | `DataLoader` | `parseDescription`, `loadAirports`, `loadFlights` |
| `data_loader_examples.dfy` | `DataLoaderExamples` | the loader's airports fixture |

Modelling choices:

- A `Date` is an `Option<Instant>`. An `Instant` is an integer count of milliseconds since the
  epoch, within the ±8.64e15 range of a valid time value. `None` is an invalid date, whose
  getters return NaN. NaN is `===` to nothing, so an invalid date on either side never matches.
  Turning the ISO-8601 text into a time value (`new Date(text)`) is taken as already done.
- The date test is modelled as the code writes it: the three UTC getters are compared. The
  getters follow ECMA-262 (Day, DayFromYear, YearFromTime, MonthFromTime, DateFromTime).
  `SameCalendarFieldsIffSameDay` proves that equal fields mean an equal day number
  `floor(ms / 86400000)`. The filter's contract is stated on that day number.
- Fields that the JSON may omit, and that change behaviour when missing, are `Option`s. These
  are the offer list itself, `outboundFlight`, `departureAirport`, `arrivalAirport`, the leg
  `id`, the `Airports` and `flightOffer` arrays, and the three raw airport fields.
- `readFileSync` and `JSON.parse` are replaced by an input `FileRead`: `ReadError`,
  `ParseError` or `Parsed(document)`. A `TypeError` raised while handling the document is
  the `MissingField` fault. This happens when `Airports` is absent or a record has no
  `Description` to split. The loaders are total functions; every `catch` branch becomes an
  empty value.
- The loaders return their console output as a log of `Diagnostic` values, one per
  `console.warn` or `console.error` call, in call order. `filterFlights` returns its one
  warning, for a null list, through `FlightUtils.FilterFlightsWithLog`.

Two consequences of the code are worth stating:

- A record without a `Description` makes `split` throw inside `map` (data-loader.ts:9, 25-26).
  The whole airport list then falls back to `[]` (data-loader.ts:48-51). A record missing
  only `ItemName` or `AirportName` is kept and merely logged (data-loader.ts:40-45).
- The criteria date is a full `Date`. Its time of day is ignored, because only the UTC fields
  are compared (`TimeOfDayIrrelevant`).

## Model

| member | source | states |
|---|---|---|
| UtcCalendar.DayFromNextYear | flight-search-app/src/lib/flight-utils.ts:42 | year y+1 starts exactly DaysInYear(y) days after year y (Gregorian leap rule) |
| UtcCalendar.YearFromDay | flight-search-app/src/lib/flight-utils.ts:42 | `getUTCFullYear`: the year returned is the one whose days contain the given day |
| UtcCalendar.UtcYear | flight-search-app/src/lib/flight-utils.ts:42 | `getUTCFullYear` of a valid date is the year whose days contain the date's day number |
| UtcCalendar.MonthFromDayInYear | flight-search-app/src/lib/flight-utils.ts:43 | `getUTCMonth`: the month index is in 0..11 and its days contain the given day of the year |
| UtcCalendar.UtcMonth | flight-search-app/src/lib/flight-utils.ts:43 | `getUTCMonth` of a valid date lies in 0..11, and that month's days in the UTC year contain the date's day number |
| UtcCalendar.UtcDate | flight-search-app/src/lib/flight-utils.ts:44 | `getUTCDate` is the one-based day of the month: it lies in 1..31 and within the month's length, and year, month and date together give back the day number `floor(ms / 86400000)` |
| UtcCalendar.SameCalendarFieldsIffSameDay | flight-search-app/src/lib/flight-utils.ts:41-44 | two instants have equal UTC year, month and date exactly when they fall on the same day `floor(ms / 86400000)` |
| UtcCalendar.OctoberTwelfthFields | flight-search-app/src/lib/flight-utils.test.ts:83-88 | 2022-10-12T10:00Z and 2022-10-12T23:59:59Z both read as 2022, month 9, day 12; 2022-10-11T00:00Z reads as day 11 |
| FlightUtils.SameUtcDate | flight-search-app/src/lib/flight-utils.ts:41-44 | the three-getter comparison passes iff both dates are valid and fall on the same UTC day; an invalid date on either side never passes |
| FlightUtils.Matches | flight-search-app/src/lib/flight-utils.ts:26-47 | the filter callback accepts an offer iff it has an outbound leg, the requested departure and arrival codes, and a departure on the criteria's UTC day; an invalid date never matches |
| FlightUtils.KeepMatching | flight-search-app/src/lib/flight-utils.ts:26-47 | `.filter` keeps only wanted offers, keeps every wanted offer as often as the input has it, and keeps input order |
| FlightUtils.FilterFlights | flight-search-app/src/lib/flight-utils.ts:20-48 | null list gives `[]`; result is an ordered sub-list of the input; every result has an outbound leg, the requested codes and the criteria's UTC day; every wanted input offer is kept; the null-list warning is in `FilterFlightsWithLog` |
| FlightUtils.FilterFlightsWithLog | flight-search-app/src/lib/flight-utils.ts:20-24 | the null-list warning "filterFlights called with undefined or null allFlights" is written once, exactly when the list is null or undefined; the returned offers are those of `FilterFlights` |
| FlightUtils.FilterFlightsUnique | flight-search-app/src/lib/flight-utils.ts:26-47 | any ordered sub-list holding exactly the wanted offers, with their multiplicities, equals the filter's result |
| FlightUtils.FilterFlightsOfNothing | flight-search-app/src/lib/flight-utils.ts:20-24 | a null or an empty offer list gives `[]` |
| FlightUtils.NullOutboundExcluded | flight-search-app/src/lib/flight-utils.ts:27-29 | an offer with a null outbound leg is never in the result |
| FlightUtils.InvalidCriteriaDateMatchesNothing | flight-search-app/src/lib/flight-utils.ts:39-44 | an invalid criteria date matches no offer |
| FlightUtils.TimeOfDayIrrelevant | flight-search-app/src/lib/flight-utils.ts:41-44 | two criteria with the same codes and dates on the same UTC day give the same result |
| FlightUtils.FilterFlightsIdempotent | flight-search-app/src/lib/flight-utils.ts:26 | filtering the result again with the same criteria returns it unchanged |
| FlightUtilsExamples.MidnightSearch | flight-search-app/src/lib/flight-utils.test.ts:58-63 | AMS to LHR on 2022-10-12 over the four test offers finds OB1 alone |
| FlightUtilsExamples.LastSecondSearch | flight-search-app/src/lib/flight-utils.test.ts:83-88 | the same search at 23:59:59Z finds OB1 alone |
| FlightUtilsExamples.DayBeforeSearch | flight-search-app/src/lib/flight-utils.test.ts:77-81 | the search on 2022-10-11 finds nothing |
| Sequences.Find | flight-search-app/src/lib/data-loader.ts:40 | `find` gives `None` iff no element satisfies the test, else the first element that does |
| JsStrings.Split | flight-search-app/src/lib/data-loader.ts:9 | `split` gives at least one piece, no piece holds the separator, and joining the pieces gives back the string |
| JsStrings.SplitJoin | flight-search-app/src/lib/data-loader.ts:9 | splitting the join of separator-free pieces gives back those pieces |
| JsStrings.SplitCountsSeparator | flight-search-app/src/lib/data-loader.ts:9-10 | a split has at least two pieces iff the string contains the separator |
| JsStrings.SplitFirstPiece | flight-search-app/src/lib/data-loader.ts:11 | the first piece is the text before the first separator |
| JsStrings.SplitLastPiece | flight-search-app/src/lib/data-loader.ts:12 | the last piece is the text after the last separator |
| JsStrings.Trim | flight-search-app/src/lib/data-loader.ts:11-12 | `trim` gives a slice of the string; only whitespace is cut off; the result neither starts nor ends with whitespace |
| JsStrings.TrimIdempotent | flight-search-app/src/lib/data-loader.ts:11-12 | trimming twice equals trimming once |
| DataLoader.ParseDescription | flight-search-app/src/lib/data-loader.ts:8-16 | city and country are present iff the description has a comma; city is the trimmed text before the first comma, country the trimmed text after the last |
| DataLoader.ParseCityCountry | flight-search-app/src/lib/data-loader.ts:8-16 | "city,country" with comma-free parts gives the trimmed city and country |
| DataLoader.ParseIgnoresMiddle | flight-search-app/src/lib/data-loader.ts:10-13 | in "city,middle,country" the middle is ignored, whatever it holds |
| DataLoader.ParseCommaSpace | flight-search-app/src/lib/data-loader.ts:8-16 | "City, Country" with trimmed comma-free words gives exactly that city and country |
| DataLoader.ParseAmsterdam | flight-search-app/src/lib/data-loader.test.ts:56-73 | "Amsterdam, Netherlands" gives Amsterdam and Netherlands |
| DataLoader.MapAirports | flight-search-app/src/lib/data-loader.ts:25-34 | `map` gives one airport per record, in order, with code, name and description copied and city and country parsed from the description |
| DataLoader.AirportChecks | flight-search-app/src/lib/data-loader.ts:36-45 | at most one line; the warning appears iff there are no airports; the advisory error appears iff some airport lacks a code or name, and names the first such airport |
| DataLoader.LoadAirports | flight-search-app/src/lib/data-loader.ts:18-52 | read or parse failure or a missing field gives `[]` with one error line; otherwise one airport per raw record in order, with fields copied and city/country parsed; the log has at most one line: the warning iff there are no records, the advisory error iff some airport lacks code or name, naming the first; nothing is removed |
| DataLoader.AirportsRoundTrip | flight-search-app/src/lib/data-loader.ts:25-34 | each loaded airport gives back the raw record it came from |
| DataLoader.LoadAirportsFailsEmpty | flight-search-app/src/lib/data-loader.ts:48-51 | every failure gives an empty list and a single `console.error` line that starts "Error loading or parsing airports.json" |
| DataLoader.CompleteAirportsLogNothing | flight-search-app/src/lib/data-loader.ts:37-45 | records that all carry code and name load with no console output |
| DataLoader.LoadNoAirports | flight-search-app/src/lib/data-loader.ts:37-39 | an empty `Airports` array gives `[]` and only the `console.warn` line "Warning: No airports loaded from airports.json" |
| DataLoader.LoadFlights | flight-search-app/src/lib/data-loader.ts:54-76 | read or parse failure gives `[]` with one error line; a missing or empty `flightOffer` gives `[]` with the warning; otherwise the offers come back unchanged, and the log holds at most one line, an error naming the first offer lacking an outbound id, present iff there is one |
| DataLoader.LoadFlightsPassesThrough | flight-search-app/src/lib/data-loader.ts:61-71 | the result is either empty or exactly the document's `flightOffer` array |
| DataLoader.LoadFlightsFailsEmpty | flight-search-app/src/lib/data-loader.ts:72-75 | every failure gives an empty list and a single `console.error` line that starts "Error loading or parsing flights-from-AMS.json" |
| DataLoader.LoadNoFlightOffers | flight-search-app/src/lib/data-loader.ts:61-63 | a missing or empty `flightOffer` array gives `[]` and only the `console.warn` line "Warning: No flight offers loaded from flights-from-AMS.json" |
| DataLoaderExamples.LoadTwoAirports | flight-search-app/src/lib/data-loader.test.ts:56-73 | the two-record fixture loads two airports, the first Amsterdam in the Netherlands |
| DataLoaderExamples.LoadTwoAirportsQuietly | flight-search-app/src/lib/data-loader.test.ts:56-73 | the two-record fixture logs nothing |

## Left out

- Currency formatting (`formatCurrency`) is left out: it wraps `Intl.NumberFormat`, whose
  locale tables and floating-point amounts are outside the model.
- File system, path and JSON: `fs.readFileSync`, `path.join` and `JSON.parse` are replaced by
  the `FileRead` input. The fixture file names appear only in the diagnostic texts.
- ISO-8601 parsing by `new Date(text)` is not modelled; the parsed time value, or `None` for an
  invalid date, is taken as input.
- JSON values of an unexpected type are not modelled. Examples are a `null` document, a
  non-array `flightOffer`, a `null` offer or record, or a non-string field. The code would
  throw or coerce on these; the model's documents always have the declared shape, apart from
  the optional fields listed above.
- The exact text of a caught error (`${error}`) is not modelled. A load failure keeps the read
  or parse failure reason, or the `MissingField` tag.
- Prices are carried as `real` values and never computed with. No relation between base
  fare, tax and total is stated, since the code neither checks nor uses one.
- The React components, theming, page layout and test scaffolding are not part of this model.
  Neither are the unused return date, passenger count and trip type.
- Strings are sequences of Unicode scalar values, while JavaScript strings are sequences of
  UTF-16 code units. A lone surrogate cannot be represented. For every other string `split`
  on `','` and `trim` give the same pieces in both views, since neither a comma nor any
  whitespace character is a surrogate.
