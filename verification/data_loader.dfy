/**
 `parseDescription`, `loadAirports` and `loadFlights`. Reading a fixture and parsing its JSON
 are outside the model: the loaders receive the outcome of those two steps as a `FileRead`.
 Every failure is caught and turned into an empty list; the console output the program writes
 on the way is returned as a log of `Diagnostic` values.
 */
module DataLoader {
  import opened Optional
  import opened Data
  import opened JsStrings
  import opened Sequences

  /** What reading and parsing a fixture produced: `readFileSync` threw, `JSON.parse` threw,
      or the parsed document. */
  datatype FileRead<T> = ReadError(reason: string) | ParseError(reason: string) | Parsed(document: T)

  /** Why a loader ended in its `catch` block. `MissingField` is the `TypeError` raised when
      the code dereferences a field the parsed document does not have. */
  datatype Fault = ReadFailed(reason: string) | ParseFailed(reason: string) | MissingField

  /** A line the loaders write to the console. */
  datatype Diagnostic =
    | NoAirportsLoaded
    | AirportMissingCodeOrName(airport: Airport)
    | AirportsLoadFailed(fault: Fault)
    | NoFlightOffersLoaded
    | FlightOfferMissingId(offer: FlightOffer)
    | FlightsLoadFailed(fault: Fault)
  {
    /** The fixed text of the line; `console.error` appends the offending record or error. */
    function Message(): string {
      match this
      case NoAirportsLoaded => "Warning: No airports loaded from airports.json"
      case AirportMissingCodeOrName(_) => "Error: Found airport with missing code or name:"
      case AirportsLoadFailed(_) => "Error loading or parsing airports.json: "
      case NoFlightOffersLoaded => "Warning: No flight offers loaded from flights-from-AMS.json"
      case FlightOfferMissingId(_) => "Error: Found flight offer with missing outbound flight ID:"
      case FlightsLoadFailed(_) => "Error loading or parsing flights-from-AMS.json: "
    }

    /** Written with `console.warn` rather than `console.error`. */
    predicate IsWarning() {
      NoAirportsLoaded? || NoFlightOffersLoaded?
    }
  }

  /** What a loader returns, together with what it logged. */
  datatype Loaded<T> = Loaded(value: seq<T>, log: seq<Diagnostic>)

  /** City and country parsed from an airport description. */
  datatype Place = Place(city: Option<string>, country: Option<string>)

  /** `parseDescription`: with at least one comma, the city is the trimmed text before the
      first comma and the country the trimmed text after the last one, whatever lies between;
      without a comma both are undefined. */
  function ParseDescription(description: string): (r: Place)
    ensures r.city.Some? <==> ',' in description
    ensures r.country.Some? <==> ',' in description
    ensures ',' in description ==>
              && r.city == Some(Trim(description[..IndexOf(description, ',')]))
              && r.country == Some(Trim(description[LastIndexOf(description, ',') + 1..]))
  {
    var parts := Split(description, ',');
    SplitCountsSeparator(description, ',');
    if |parts| >= 2 then
      SplitFirstPiece(description, ',');
      SplitLastPiece(description, ',');
      Place(Some(Trim(parts[0])), Some(Trim(parts[|parts| - 1])))
    else
      Place(None, None)
  }

  /** Trimming a single leading space off a word that has no whitespace at either end. */
  lemma TrimLeadingSpace(word: string)
    requires |word| > 0 && !IsWhitespace(word[0]) && !IsWhitespace(word[|word| - 1])
    ensures Trim(word) == word
    ensures Trim(" " + word) == word
  {
    var padded := " " + word;
    assert padded[1..] == word;
    assert LeadingWhitespace(padded) == 1;
    assert padded[1..] == word;
    assert TrailingWhitespace(word) == 0;
  }

  /** A description made of a comma-free city, a comma and a comma-free country names that
      city and that country, trimmed. */
  lemma ParseCityCountry(city: string, country: string)
    requires ',' !in city && ',' !in country
    ensures ParseDescription(city + "," + country) == Place(Some(Trim(city)), Some(Trim(country)))
  {
    var d := city + "," + country;
    assert d[|city|] == ',';
    assert d[..|city|] == city;
    assert d[|city| + 1..] == country;
    assert IndexOf(d, ',') == |city|;
    assert LastIndexOf(d, ',') == |city|;
  }

  /** Whatever lies between the first and the last comma is ignored. */
  lemma ParseIgnoresMiddle(city: string, middle: string, country: string)
    requires ',' !in city && ',' !in country
    ensures ParseDescription(city + "," + middle + "," + country) == Place(Some(Trim(city)), Some(Trim(country)))
  {
    var d := city + "," + middle + "," + country;
    var last := |city| + 1 + |middle|;
    assert d[|city|] == ',' && d[last] == ',';
    assert d[..|city|] == city;
    assert d[last + 1..] == country;
    assert IndexOf(d, ',') == |city|;
    assert LastIndexOf(d, ',') == last;
  }

  /** "City, Country" with trimmed, comma-free words gives exactly that city and country. */
  lemma ParseCommaSpace(city: string, country: string)
    requires ',' !in city && ',' !in country
    requires |city| > 0 && !IsWhitespace(city[0]) && !IsWhitespace(city[|city| - 1])
    requires |country| > 0 && !IsWhitespace(country[0]) && !IsWhitespace(country[|country| - 1])
    ensures ParseDescription(city + ", " + country) == Place(Some(city), Some(country))
  {
    assert city + ", " + country == city + "," + (" " + country);
    ParseCityCountry(city, " " + country);
    TrimLeadingSpace(city);
    TrimLeadingSpace(country);
  }

  /** The fixture's own example: "Amsterdam, Netherlands" names Amsterdam in the Netherlands. */
  lemma ParseAmsterdam()
    ensures ParseDescription("Amsterdam, Netherlands") == Place(Some("Amsterdam"), Some("Netherlands"))
  {
    assert "Amsterdam, Netherlands" == "Amsterdam" + ", " + "Netherlands";
    ParseCommaSpace("Amsterdam", "Netherlands");
  }

  /** The `map` callback of `loadAirports`: copies the three raw fields and adds the parsed
      city and country. Only called on a record that has a description. */
  function ToAirport(raw: AirportRaw): Airport
    requires raw.Description.Some?
  {
    var place := ParseDescription(raw.Description.value);
    Airport(raw.ItemName, raw.AirportName, raw.Description.value, place.city, place.country)
  }

  /** `data.Airports.map(callback)`: one airport per record, in order, each holding its
      record's fields and the city and country parsed from its description. */
  function MapAirports(raws: seq<AirportRaw>): (airports: seq<Airport>)
    requires forall i :: 0 <= i < |raws| ==> raws[i].Description.Some?
    ensures |airports| == |raws|
    ensures forall i :: 0 <= i < |raws| ==>
              && airports[i].code == raws[i].ItemName
              && airports[i].name == raws[i].AirportName
              && Some(airports[i].description) == raws[i].Description
              && Place(airports[i].city, airports[i].country) == ParseDescription(airports[i].description)
  {
    seq(|raws|, i requires 0 <= i < |raws| => ToAirport(raws[i]))
  }

  /** The raw record an airport was made from. */
  function ToRaw(airport: Airport): AirportRaw {
    AirportRaw(airport.code, airport.name, Some(airport.description))
  }

  /** `!value`, for an optional string: missing or empty. */
  predicate IsFalsy(value: Option<string>) {
    value.None? || value.value == ""
  }

  /** The advisory check of `loadAirports`: code or name missing. */
  predicate IsIncomplete(airport: Airport) {
    IsFalsy(airport.code) || IsFalsy(airport.name)
  }

  /** The advisory check of `loadFlights`: no outbound leg, or a leg without an id. */
  predicate LacksOutboundId(offer: FlightOffer) {
    offer.outboundFlight.None? || IsFalsy(offer.outboundFlight.value.id)
  }

  /** The airports document can be mapped without a `TypeError`: it has an `Airports` array
      and every record in it has a description to split. */
  predicate Mappable(dataset: AirportDataset) {
    && dataset.Airports.Some?
    && forall i :: 0 <= i < |dataset.Airports.value| ==> dataset.Airports.value[i].Description.Some?
  }

  /** The advisory checks of `loadAirports`: a warning when nothing was loaded, and an error
      naming the first airport that lacks a code or a name. */
  function AirportChecks(airports: seq<Airport>): (log: seq<Diagnostic>)
    ensures NoAirportsLoaded in log <==> |airports| == 0
    ensures (exists k :: 0 <= k < |log| && log[k].AirportMissingCodeOrName?)
            <==> exists i :: 0 <= i < |airports| && IsIncomplete(airports[i])
    ensures forall k :: 0 <= k < |log| && log[k].AirportMissingCodeOrName? ==>
              exists i :: 0 <= i < |airports| && airports[i] == log[k].airport && IsIncomplete(airports[i])
                          && forall j :: 0 <= j < i ==> !IsIncomplete(airports[j])
    ensures forall k :: 0 <= k < |log| ==> log[k].NoAirportsLoaded? || log[k].AirportMissingCodeOrName?
    ensures |log| <= 1
  {
    var warning := if |airports| == 0 then [NoAirportsLoaded] else [];
    var invalid := Find(airports, IsIncomplete);
    var error := if invalid.Some? then [AirportMissingCodeOrName(invalid.value)] else [];
    assert invalid.Some? ==> (warning + error)[|warning|] == AirportMissingCodeOrName(invalid.value);
    warning + error
  }

  /** `loadAirports`. */
  function LoadAirports(input: FileRead<AirportDataset>): (r: Loaded<Airport>)
    ensures input.ReadError? ==> r == Loaded([], [AirportsLoadFailed(ReadFailed(input.reason))])
    ensures input.ParseError? ==> r == Loaded([], [AirportsLoadFailed(ParseFailed(input.reason))])
    ensures input.Parsed? && !Mappable(input.document) ==> r == Loaded([], [AirportsLoadFailed(MissingField)])
    ensures input.Parsed? && Mappable(input.document) ==>
              var raws := input.document.Airports.value;
              && |r.value| == |raws|
              && (forall i :: 0 <= i < |raws| ==>
                    && r.value[i].code == raws[i].ItemName
                    && r.value[i].name == raws[i].AirportName
                    && Some(r.value[i].description) == raws[i].Description
                    && Place(r.value[i].city, r.value[i].country) == ParseDescription(r.value[i].description))
              && (NoAirportsLoaded in r.log <==> |raws| == 0)
              && ((exists k :: 0 <= k < |r.log| && r.log[k].AirportMissingCodeOrName?)
                  <==> exists i :: 0 <= i < |r.value| && IsIncomplete(r.value[i]))
              && (forall k :: 0 <= k < |r.log| && r.log[k].AirportMissingCodeOrName? ==>
                    exists i :: 0 <= i < |r.value| && r.value[i] == r.log[k].airport && IsIncomplete(r.value[i])
                                && forall j :: 0 <= j < i ==> !IsIncomplete(r.value[j]))
              && (forall k :: 0 <= k < |r.log| ==> r.log[k].NoAirportsLoaded? || r.log[k].AirportMissingCodeOrName?)
              && |r.log| <= 1
  {
    match input
    case ReadError(reason) => Loaded([], [AirportsLoadFailed(ReadFailed(reason))])
    case ParseError(reason) => Loaded([], [AirportsLoadFailed(ParseFailed(reason))])
    case Parsed(dataset) =>
      if !Mappable(dataset) then Loaded([], [AirportsLoadFailed(MissingField)])
      else
        var airports := MapAirports(dataset.Airports.value);
        Loaded(airports, AirportChecks(airports))
  }

  /** Nothing is lost in loading: each airport gives back the raw record it was made from. */
  lemma AirportsRoundTrip(dataset: AirportDataset)
    requires Mappable(dataset)
    ensures var airports := LoadAirports(Parsed(dataset)).value;
            seq(|airports|, i requires 0 <= i < |airports| => ToRaw(airports[i])) == dataset.Airports.value
  {
  }

  /** Whatever goes wrong, `loadAirports` answers with an empty list and one error line. */
  lemma LoadAirportsFailsEmpty(input: FileRead<AirportDataset>)
    requires !input.Parsed? || !Mappable(input.document)
    ensures LoadAirports(input).value == []
    ensures |LoadAirports(input).log| == 1 && LoadAirports(input).log[0].AirportsLoadFailed?
    ensures "Error loading or parsing airports.json" <= LoadAirports(input).log[0].Message()
    ensures !LoadAirports(input).log[0].IsWarning()
  {
  }

  /** A raw record whose code and name are both present and non-empty. */
  predicate HasCodeAndName(raw: AirportRaw) {
    !IsFalsy(raw.ItemName) && !IsFalsy(raw.AirportName)
  }

  /** A non-empty list of records that all carry a code and a name loads without any
      console output. */
  lemma CompleteAirportsLogNothing(dataset: AirportDataset)
    requires Mappable(dataset) && |dataset.Airports.value| > 0
    requires forall i :: 0 <= i < |dataset.Airports.value| ==> HasCodeAndName(dataset.Airports.value[i])
    ensures LoadAirports(Parsed(dataset)).log == []
  {
  }

  /** An empty `Airports` array loads as no airports, with the warning and nothing else. */
  lemma LoadNoAirports()
    ensures LoadAirports(Parsed(AirportDataset(Some([])))) == Loaded([], [NoAirportsLoaded])
    ensures LoadAirports(Parsed(AirportDataset(Some([])))).log[0].Message() == "Warning: No airports loaded from airports.json"
    ensures LoadAirports(Parsed(AirportDataset(Some([])))).log[0].IsWarning()
  {
  }

  /** `loadFlights`. */
  function LoadFlights(input: FileRead<FlightData>): (r: Loaded<FlightOffer>)
    ensures input.ReadError? ==> r == Loaded([], [FlightsLoadFailed(ReadFailed(input.reason))])
    ensures input.ParseError? ==> r == Loaded([], [FlightsLoadFailed(ParseFailed(input.reason))])
    ensures input.Parsed? && (input.document.flightOffer.None? || input.document.flightOffer.value == []) ==>
              r == Loaded([], [NoFlightOffersLoaded])
    ensures input.Parsed? && input.document.flightOffer.Some? && input.document.flightOffer.value != [] ==>
              var offers := input.document.flightOffer.value;
              && r.value == offers
              && ((exists k :: 0 <= k < |r.log| && r.log[k].FlightOfferMissingId?)
                  <==> exists i :: 0 <= i < |offers| && LacksOutboundId(offers[i]))
              && (forall k :: 0 <= k < |r.log| && r.log[k].FlightOfferMissingId? ==>
                    exists i :: 0 <= i < |offers| && offers[i] == r.log[k].offer && LacksOutboundId(offers[i])
                                && forall j :: 0 <= j < i ==> !LacksOutboundId(offers[j]))
              && (forall k :: 0 <= k < |r.log| ==> r.log[k].FlightOfferMissingId?)
              && |r.log| <= 1
  {
    match input
    case ReadError(reason) => Loaded([], [FlightsLoadFailed(ReadFailed(reason))])
    case ParseError(reason) => Loaded([], [FlightsLoadFailed(ParseFailed(reason))])
    case Parsed(data) =>
      if data.flightOffer.None? || |data.flightOffer.value| == 0 then Loaded([], [NoFlightOffersLoaded])
      else
        var offers := data.flightOffer.value;
        var invalid := Find(offers, LacksOutboundId);
        Loaded(offers, if invalid.Some? then [FlightOfferMissingId(invalid.value)] else [])
  }

  /** `loadFlights` either passes the document's offers through untouched or returns nothing. */
  lemma LoadFlightsPassesThrough(input: FileRead<FlightData>)
    ensures var r := LoadFlights(input).value;
            r == [] || (input.Parsed? && input.document.flightOffer == Some(r))
  {
  }

  /** Whatever goes wrong in reading or parsing, `loadFlights` answers with an empty list and
      one error line. */
  lemma LoadFlightsFailsEmpty(input: FileRead<FlightData>)
    requires !input.Parsed?
    ensures LoadFlights(input).value == []
    ensures |LoadFlights(input).log| == 1 && LoadFlights(input).log[0].FlightsLoadFailed?
    ensures "Error loading or parsing flights-from-AMS.json" <= LoadFlights(input).log[0].Message()
    ensures !LoadFlights(input).log[0].IsWarning()
  {
  }

  /** A missing or empty `flightOffer` array gives no offers and only the warning. */
  lemma LoadNoFlightOffers(data: FlightData)
    requires data.flightOffer == None || data.flightOffer == Some([])
    ensures LoadFlights(Parsed(data)) == Loaded([], [NoFlightOffersLoaded])
    ensures LoadFlights(Parsed(data)).log[0].Message() == "Warning: No flight offers loaded from flights-from-AMS.json"
    ensures LoadFlights(Parsed(data)).log[0].IsWarning()
  {
  }
}
