/** The airports fixture of the loader's unit test. */
module DataLoaderExamples {
  import opened Optional
  import opened Data
  import opened DataLoader

  const TwoAirports: AirportDataset := AirportDataset(Some([
    AirportRaw(Some("AMS"), Some("Amsterdam Airport Schiphol"), Some("Amsterdam, Netherlands")),
    AirportRaw(Some("LHR"), Some("London Heathrow Airport"), Some("London, United Kingdom"))]))

  /** Two well-formed records load as two airports, the first being Amsterdam in the
      Netherlands. */
  lemma LoadTwoAirports()
    ensures |LoadAirports(Parsed(TwoAirports)).value| == 2
    ensures LoadAirports(Parsed(TwoAirports)).value[0] ==
              Airport(Some("AMS"), Some("Amsterdam Airport Schiphol"), "Amsterdam, Netherlands", Some("Amsterdam"), Some("Netherlands"))
  {
    var dataset := TwoAirports;
    var a := LoadAirports(Parsed(dataset)).value[0];
    assert Mappable(dataset);
    assert a.code == Some("AMS") && a.name == Some("Amsterdam Airport Schiphol");
    assert a.description == "Amsterdam, Netherlands";
    ParseAmsterdam();
    assert Place(a.city, a.country) == Place(Some("Amsterdam"), Some("Netherlands"));
  }

  /** Loading the two well-formed records logs nothing. */
  lemma LoadTwoAirportsQuietly()
    ensures LoadAirports(Parsed(TwoAirports)).log == []
  {
    var dataset := TwoAirports;
    var raws := dataset.Airports.value;
    assert HasCodeAndName(raws[0]) && HasCodeAndName(raws[1]);
    CompleteAirportsLogNothing(dataset);
  }
}
