/**
 The records of the flight search application. A field the JSON fixtures may omit,
 or that the code reads through optional chaining or a truthiness test, is an `Option`;
 every other field has the type the record declares.
 */
module Data {
  import opened Optional
  import opened UtcCalendar

  /** An airport as the program hands it to the user interface. `code` and `name` are copied
      from the raw record and are `None` when the record lacked them; `city` and `country`
      are parsed from `description` and are `None` when it holds no comma. */
  datatype Airport = Airport(
    code: Option<string>,
    name: Option<string>,
    description: string,
    city: Option<string>,
    country: Option<string>)

  /** One entry of the `Airports` array of the airports fixture. */
  datatype AirportRaw = AirportRaw(
    ItemName: Option<string>,
    AirportName: Option<string>,
    Description: Option<string>)

  /** The airports fixture; `Airports` is `None` when the document has no such array. */
  datatype AirportDataset = AirportDataset(Airports: Option<seq<AirportRaw>>)

  datatype AirportLocation = AirportLocation(locationCode: string)

  datatype MarketingAirline = MarketingAirline(companyShortName: string)

  /** The outbound leg of an offer. Both date-times are held as the `Date` that
      `new Date(isoString)` yields for them. */
  datatype OutboundFlightDetails = OutboundFlightDetails(
    id: Option<string>,
    departureDateTime: Timestamp,
    arrivalDateTime: Timestamp,
    marketingAirline: MarketingAirline,
    flightNumber: int,
    departureAirport: Option<AirportLocation>,
    arrivalAirport: Option<AirportLocation>)

  /** Prices are passed through untouched; nothing in the model computes with them. */
  datatype PricingInfo = PricingInfo(
    totalPriceAllPassengers: real,
    totalPriceOnePassenger: real,
    baseFare: real,
    taxSurcharge: real,
    currencyCode: string,
    productClass: string)

  datatype Deeplink = Deeplink(href: string)

  /** A flight offer; `outboundFlight` is `None` when the offer carries a null leg. */
  datatype FlightOffer = FlightOffer(
    outboundFlight: Option<OutboundFlightDetails>,
    pricingInfoSum: PricingInfo,
    deeplink: Deeplink)

  datatype ResultSet = ResultSet(count: int)

  /** The flights fixture; `flightOffer` is `None` when the document has no such array. */
  datatype FlightData = FlightData(resultSet: ResultSet, flightOffer: Option<seq<FlightOffer>>)
}
