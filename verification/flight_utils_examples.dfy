/** The four offers of the filter's unit tests and what the filter makes of them. */
module FlightUtilsExamples {
  import opened Optional
  import opened UtcCalendar
  import opened Data
  import opened Sequences
  import opened FlightUtils

  function Leg(id: string, from: string, to: string, departs: Instant, arrives: Instant, airline: string, number: int): OutboundFlightDetails {
    OutboundFlightDetails(Some(id), Some(departs), Some(arrives), MarketingAirline(airline), number,
                          Some(AirportLocation(from)), Some(AirportLocation(to)))
  }

  function Price(total: real, base: real, tax: real): PricingInfo {
    PricingInfo(total, total, base, tax, "EUR", "Economy")
  }

  /** AMS to LHR, 2022-10-12T10:00:00Z. */
  const Ob1: FlightOffer := FlightOffer(Some(Leg("OB1", "AMS", "LHR", 1665568800000, 1665572400000, "KL", 1001)), Price(100.0, 80.0, 20.0), Deeplink("/deeplink1"))
  /** AMS to CDG, 2022-10-12T14:00:00Z. */
  const Ob2: FlightOffer := FlightOffer(Some(Leg("OB2", "AMS", "CDG", 1665583200000, 1665587700000, "AF", 2002)), Price(120.0, 90.0, 30.0), Deeplink("/deeplink2"))
  /** LHR to AMS, 2022-10-13T09:00:00Z. */
  const Ob3: FlightOffer := FlightOffer(Some(Leg("OB3", "LHR", "AMS", 1665651600000, 1665655200000, "BA", 3003)), Price(110.0, 85.0, 25.0), Deeplink("/deeplink3"))
  /** An offer whose outbound leg is null. */
  const Ob4: FlightOffer := FlightOffer(None, Price(0.0, 0.0, 0.0), Deeplink("/deeplink4"))

  const MockFlights: seq<FlightOffer> := [Ob1, Ob2, Ob3, Ob4]

  /** AMS to LHR on 2022-10-12, asked at midnight. */
  const MidnightCriteria: FilterCriteria := FilterCriteria("AMS", "LHR", Some(1665532800000))
  /** The same search, asked one second before the next midnight. */
  const LastSecondCriteria: FilterCriteria := FilterCriteria("AMS", "LHR", Some(1665619199000))
  /** The same route on 2022-10-11. */
  const DayBeforeCriteria: FilterCriteria := FilterCriteria("AMS", "LHR", Some(1665446400000))

  /** The midnight search finds OB1 alone. */
  lemma MidnightSearch()
    ensures FilterFlights(MidnightCriteria, Some(MockFlights)) == [Ob1]
  {
    var c := MidnightCriteria;
    assert Wanted(c, Ob1);
    assert IsSubsequence([Ob1], MockFlights) by {
      assert MockFlights[1..] == [Ob2, Ob3, Ob4];
      assert [Ob1][1..] == [];
    }
    forall x | Wanted(c, x)
      ensures multiset([Ob1])[x] == multiset(MockFlights)[x]
    {
      assert x != Ob2 && x != Ob3 && x != Ob4;
    }
    FilterFlightsUnique(c, MockFlights, [Ob1]);
  }

  /** Asked one second before the next midnight, the same search finds the same offer. */
  lemma LastSecondSearch()
    ensures FilterFlights(LastSecondCriteria, Some(MockFlights)) == [Ob1]
  {
    MidnightSearch();
    TimeOfDayIrrelevant(MidnightCriteria, LastSecondCriteria, MockFlights);
  }

  /** On 2022-10-11 the search finds nothing. */
  lemma DayBeforeSearch()
    ensures FilterFlights(DayBeforeCriteria, Some(MockFlights)) == []
  {
    var r := FilterFlights(DayBeforeCriteria, Some(MockFlights));
    if |r| > 0 {
      SubsequenceCounts(r, MockFlights, r[0]);
      assert false;
    }
  }
}
