/**
 `filterFlights`: the offers whose outbound leg leaves from the requested origin, arrives
 at the requested destination and departs on the requested UTC calendar day.
 */
module FlightUtils {
  import opened Optional
  import opened UtcCalendar
  import opened Data
  import opened Sequences

  /** The search the filter answers. Only the day of `departureDate` matters; a criteria date
      that is an invalid `Date` is `None`. */
  datatype FilterCriteria = FilterCriteria(origin: string, destination: string, departureDate: Timestamp)

  /** `location?.locationCode === code`: false when the location is missing. */
  predicate HasCode(location: Option<AirportLocation>, code: string) {
    location.Some? && location.value.locationCode == code
  }

  /** Equal `getUTCFullYear`, `getUTCMonth` and `getUTCDate`. Each getter of an invalid date
      yields NaN, which is `===` to nothing, so an invalid date on either side never matches.
      Two valid dates pass exactly when they fall on the same UTC day. */
  predicate SameUtcDate(a: Timestamp, b: Timestamp): (same: bool)
    ensures same <==> a.Some? && b.Some? && Day(a.value) == Day(b.value)
  {
    if a.Some? && b.Some? then
      SameCalendarFieldsIffSameDay(a.value, b.value);
      && UtcYear(a.value) == UtcYear(b.value)
      && UtcMonth(a.value) == UtcMonth(b.value)
      && UtcDate(a.value) == UtcDate(b.value)
    else false
  }

  /** The callback the program hands to `Array.prototype.filter`; it accepts exactly the
      wanted offers. */
  predicate Matches(c: FilterCriteria, offer: FlightOffer): (accepted: bool)
    ensures accepted <==> Wanted(c, offer)
  {
    match offer.outboundFlight
    case None => false
    case Some(flight) =>
      && HasCode(flight.departureAirport, c.origin)
      && HasCode(flight.arrivalAirport, c.destination)
      && SameUtcDate(flight.departureDateTime, c.departureDate)
  }

  /** What a search asks for, stated on the data rather than on the date getters: the outbound
      leg exists, its airports carry the requested codes, and its departure falls on the same
      UTC day number as the criteria date. */
  ghost predicate Wanted(c: FilterCriteria, offer: FlightOffer) {
    && offer.outboundFlight.Some?
    && offer.outboundFlight.value.departureAirport == Some(AirportLocation(c.origin))
    && offer.outboundFlight.value.arrivalAirport == Some(AirportLocation(c.destination))
    && offer.outboundFlight.value.departureDateTime.Some?
    && c.departureDate.Some?
    && Day(offer.outboundFlight.value.departureDateTime.value) == Day(c.departureDate.value)
  }

  /** `allFlights.filter(callback)`: keeps exactly the wanted offers, each as often as it
      occurs, in their original order. */
  function KeepMatching(c: FilterCriteria, offers: seq<FlightOffer>): (r: seq<FlightOffer>)
    ensures forall i :: 0 <= i < |r| ==> Wanted(c, r[i])
    ensures forall x :: Wanted(c, x) ==> multiset(r)[x] == multiset(offers)[x]
    ensures IsSubsequence(r, offers)
  {
    if |offers| == 0 then []
    else
      var rest := KeepMatching(c, offers[1..]);
      assert offers == [offers[0]] + offers[1..];
      if Matches(c, offers[0]) then
        assert ([offers[0]] + rest)[1..] == rest;
        [offers[0]] + rest
      else
        rest
  }

  /** `filterFlights(criteria, allFlights)`; `None` stands for a null or undefined list. */
  function FilterFlights(c: FilterCriteria, allFlights: Option<seq<FlightOffer>>): (r: seq<FlightOffer>)
    ensures allFlights.None? ==> r == []
    ensures allFlights.Some? ==> IsSubsequence(r, allFlights.value)
    ensures forall i :: 0 <= i < |r| ==> r[i].outboundFlight.Some?
    ensures forall i :: 0 <= i < |r| ==>
              && r[i].outboundFlight.value.departureAirport == Some(AirportLocation(c.origin))
              && r[i].outboundFlight.value.arrivalAirport == Some(AirportLocation(c.destination))
    ensures forall i :: 0 <= i < |r| ==>
              && r[i].outboundFlight.value.departureDateTime.Some?
              && c.departureDate.Some?
              && Day(r[i].outboundFlight.value.departureDateTime.value) == Day(c.departureDate.value)
    ensures allFlights.Some? ==> forall x :: Wanted(c, x) ==> multiset(r)[x] == multiset(allFlights.value)[x]
  {
    match allFlights
    case None => []
    case Some(offers) => KeepMatching(c, offers)
  }

  /** The line `filterFlights` writes with `console.warn` before answering a null list. */
  const NullListWarning: string := "filterFlights called with undefined or null allFlights"

  /** The offers `filterFlights` returns, together with the lines it wrote to the console. */
  datatype Filtered = Filtered(flights: seq<FlightOffer>, log: seq<string>)

  /** `filterFlights` with its console output: the warning is written once, exactly when the
      list is null or undefined, and the returned offers are those of `FilterFlights`. */
  function FilterFlightsWithLog(c: FilterCriteria, allFlights: Option<seq<FlightOffer>>): (r: Filtered)
    ensures r.flights == FilterFlights(c, allFlights)
    ensures |r.log| <= 1
    ensures r.log != [] <==> allFlights.None?
    ensures forall k :: 0 <= k < |r.log| ==> r.log[k] == NullListWarning
  {
    match allFlights
    case None => Filtered([], [NullListWarning])
    case Some(offers) => Filtered(KeepMatching(c, offers), [])
  }

  /** The contract of `FilterFlights` pins its result down: any list that is drawn in order from
      the input, holds only wanted offers and holds every wanted offer as often as the input
      does is the filter's result. */
  lemma {:induction false} FilterFlightsUnique(c: FilterCriteria, offers: seq<FlightOffer>, r: seq<FlightOffer>)
    requires IsSubsequence(r, offers)
    requires forall i :: 0 <= i < |r| ==> Wanted(c, r[i])
    requires forall x :: Wanted(c, x) ==> multiset(r)[x] == multiset(offers)[x]
    ensures r == FilterFlights(c, Some(offers))
    decreases |offers|
  {
    if |offers| == 0 {
      assert |r| == 0;
    } else {
      var head, tail := offers[0], offers[1..];
      assert offers == [head] + tail;
      if Wanted(c, head) {
        if |r| > 0 && r[0] == head && IsSubsequence(r[1..], tail) {
          assert r == [r[0]] + r[1..];
          forall x | Wanted(c, x)
            ensures multiset(r[1..])[x] == multiset(tail)[x]
          {
          }
          FilterFlightsUnique(c, tail, r[1..]);
        } else {
          assert IsSubsequence(r, tail);
          SubsequenceCounts(r, tail, head);
          assert false;
        }
      } else {
        assert |r| > 0 ==> r[0] != head by {
          if |r| > 0 { assert Wanted(c, r[0]); }
        }
        assert IsSubsequence(r, tail);
        forall x | Wanted(c, x)
          ensures multiset(r)[x] == multiset(tail)[x]
        {
        }
        FilterFlightsUnique(c, tail, r);
      }
    }
  }

  /** A null or undefined offer list gives an empty result, and so does an empty one. */
  lemma FilterFlightsOfNothing(c: FilterCriteria)
    ensures FilterFlights(c, None) == []
    ensures FilterFlights(c, Some([])) == []
  {
  }

  /** An offer whose outbound leg is null never appears in the result. */
  lemma NullOutboundExcluded(c: FilterCriteria, offers: seq<FlightOffer>, offer: FlightOffer)
    requires offer.outboundFlight.None?
    ensures offer !in FilterFlights(c, Some(offers))
  {
  }

  /** An invalid criteria date matches no offer. */
  lemma InvalidCriteriaDateMatchesNothing(c: FilterCriteria, offers: seq<FlightOffer>)
    requires c.departureDate.None?
    ensures FilterFlights(c, Some(offers)) == []
  {
  }

  /** Only the UTC day of the criteria date matters: two criteria with the same codes whose
      dates fall on the same UTC day select the same offers. */
  lemma {:induction false} TimeOfDayIrrelevant(c1: FilterCriteria, c2: FilterCriteria, offers: seq<FlightOffer>)
    requires c1.origin == c2.origin && c1.destination == c2.destination
    requires c1.departureDate.Some? && c2.departureDate.Some?
    requires Day(c1.departureDate.value) == Day(c2.departureDate.value)
    ensures FilterFlights(c1, Some(offers)) == FilterFlights(c2, Some(offers))
  {
    var r := FilterFlights(c1, Some(offers));
    forall x
      ensures Wanted(c1, x) <==> Wanted(c2, x)
    {
    }
    FilterFlightsUnique(c2, offers, r);
  }

  /** Filtering a result again with the same criteria returns it unchanged. */
  lemma {:induction false} FilterFlightsIdempotent(c: FilterCriteria, offers: seq<FlightOffer>)
    ensures FilterFlights(c, Some(FilterFlights(c, Some(offers)))) == FilterFlights(c, Some(offers))
  {
    var r := FilterFlights(c, Some(offers));
    SubsequenceReflexive(r);
    FilterFlightsUnique(c, r, r);
  }
}
