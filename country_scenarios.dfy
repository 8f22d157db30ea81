/** The repository's API test cases, replayed on the model: each method builds a
    fresh store holding the seeded status row and drives the handlers as the test
    does; its postcondition is what the test expects. */
module CountryScenarios {
  import opened Wrappers
  import opened CountryModel
  import opened CountryDerive
  import opened CountryTable
  import opened CountryQuery
  import opened CountryService
  import opened CountryController

  function Nigeria(): SourceCountry {
    SourceCountry("Nigeria", Some("Abuja"), Some("Africa"), 206139589, Some("ng.svg"),
                  Some([SourceCurrency(Some("NGN"))]))
  }

  function UnitedStates(): SourceCountry {
    SourceCountry("United States", Some("Washington, D.C."), Some("Americas"), 329484123, Some("us.svg"),
                  Some([SourceCurrency(Some("USD"))]))
  }

  function TestRates(): Rates {
    map["NGN" := 1600.0, "USD" := 1.0]
  }

  /** A record written directly into the table, as the tests' INSERT statements do. */
  function Inserted(name: string, region: Option<string>, population: int, code: string): Country {
    Country(name, None, region, population, Some(code), None, None, None)
  }

  /** Refreshing with two fetched countries answers 200 and stores two rows, each
      with an estimate; refreshing again keeps two rows. */
  method RefreshStoresBoth() returns (first: Response, count: nat, estimated: bool, countAgain: nat)
    ensures first == Response(200, MessageBody("Countries refreshed successfully"))
    ensures count == 2 && estimated
    ensures countAgain == 2
  {
    var store := new CountryStore(true);
    var countries := [Nigeria(), UnitedStates()];
    TestDerive([0.5, 0.5]);
    var derived := DeriveAll(countries, TestRates(), [0.5, 0.5]);
    UpsertTwoIntoEmpty(derived[0], derived[1]);
    var o := store.Refresh(Some(countries), Some(TestRates()), [0.5, 0.5], 1);
    ServedAfterTwoEstimates(store.rows);
    first := RefreshResponse(o);
    count := |store.rows|;
    estimated := store.rows[0].country.estimatedGdp.Some? && store.rows[1].country.estimatedGdp.Some?;
    TestDerive([0.25, 0.75]);
    var again := DeriveAll(countries, TestRates(), [0.25, 0.75]);
    SameNames(derived, again);
    RefreshTwiceSameCount(Table([], 1), derived, again);
    var o2 := store.Refresh(Some(countries), Some(TestRates()), [0.25, 0.75], 2);
    countAgain := |store.rows|;
  }

  /** Deriving the two test countries keeps their names and gives both an estimate. */
  lemma TestDerive(draws: seq<real>)
    requires |draws| == 2
    ensures var d := DeriveAll([Nigeria(), UnitedStates()], TestRates(), draws);
      && |d| == 2
      && d[0].name == "Nigeria" && d[0].estimatedGdp.Some?
      && d[1].name == "United States" && d[1].estimatedGdp.Some?
  {
    var d := DeriveAll([Nigeria(), UnitedStates()], TestRates(), draws);
    assert d[0] == Derive(Nigeria(), TestRates(), draws[0]);
    assert d[1] == Derive(UnitedStates(), TestRates(), draws[1]);
  }

  /** Two records with different names upserted into an empty table get ids 1 and 2. */
  lemma UpsertTwoIntoEmpty(a: Country, b: Country)
    requires a.name != b.name
    ensures UpsertAll(Table([], 1), [a, b]) == Table([Row(1, a), Row(2, b)], 3)
  {
    assert [a, b][..1] == [a];
    assert [a][..0] == [];
    assert UpsertAll(Table([], 1), [a]) == Table([Row(1, a)], 2);
  }

  /** Two derivations of the same two countries have the same names. */
  lemma SameNames(d: seq<Country>, e: seq<Country>)
    requires |d| == 2 && |e| == 2
    requires d[0].name == e[0].name && d[1].name == e[1].name
    ensures NamesOf(d) == NamesOf(e)
  {
    assert forall x :: x in NamesOf(d) <==> x == d[0].name || x == d[1].name;
    assert forall x :: x in NamesOf(e) <==> x == e[0].name || x == e[1].name;
  }

  /** Two rows with estimates render without error. */
  lemma {:induction false} ServedAfterTwoEstimates(rows: seq<Row>)
    requires |rows| == 2
    requires rows[0].country.estimatedGdp.Some? && rows[1].country.estimatedGdp.Some?
    ensures forall t :: CountrySummary.Render(rows, t).Success?
  {
    CountryRanking.InsertNonNullCount(rows[1], []);
    assert rows == [rows[0]] + [rows[1]];
    forall t
      ensures CountrySummary.Render(rows, t).Success?
    {
      CountrySummary.RenderSpec(rows, t);
    }
  }

  /** A failed country fetch answers 503 with the refresh error and writes nothing. */
  method RefreshFetchFails() returns (r: Response, count: nat)
    ensures r == Response(503, ErrorDetailsBody("External data source unavailable", "External data source unavailable"))
    ensures count == 0
  {
    var store := new CountryStore(true);
    var o := store.Refresh(None, Some(map["USD" := 1.0]), [], 1);
    r := RefreshResponse(o);
    count := |store.rows|;
  }

  /** Listing with a region filter returns exactly the rows of that region. */
  method ListFiltersByRegion() returns (all: Response, africa: Response)
    ensures all.status == 200 && all.body.CountriesBody? && |all.body.countries| == 2
    ensures africa.status == 200 && africa.body.CountriesBody?
    ensures africa.body.countries == [Row(1, Inserted("Nigeria", Some("Africa"), 200, "NGN"))]
  {
    var store := SeedTwoRegions();
    TwoRegions(store.rows);
    var l := store.List(Filters(None, None, None));
    all := ListResponse(l);
    var l2 := store.List(Filters(Some("Africa"), None, None));
    africa := ListResponse(l2);
  }

  /** The table the region test inserts: Nigeria in Africa, then Germany in Europe. */
  method SeedTwoRegions() returns (store: CountryStore)
    ensures store.rows == [Row(1, Inserted("Nigeria", Some("Africa"), 200, "NGN")),
                           Row(2, Inserted("Germany", Some("Europe"), 80, "EUR"))]
  {
    store := new CountryStore(true);
    var nigeria, germany := Inserted("Nigeria", Some("Africa"), 200, "NGN"), Inserted("Germany", Some("Europe"), 80, "EUR");
    store.Upsert(nigeria);
    assert FirstMatch(store.rows, germany.name).None?;
    store.Upsert(germany);
  }

  /** With one African and one European row, no filter keeps both rows and the
      region filter keeps the African one. */
  lemma TwoRegions(rows: seq<Row>)
    requires |rows| == 2
    requires rows[0].country.region == Some("Africa") && rows[1].country.region == Some("Europe")
    ensures Where(rows, PlanFor(Filters(None, None, None)).conditions) == rows
    ensures Where(rows, PlanFor(Filters(Some("Africa"), None, None)).conditions) == [rows[0]]
  {
    assert PlanFor(Filters(None, None, None)).conditions == [];
    var conds := [Condition(RegionColumn, "Africa")];
    assert PlanFor(Filters(Some("Africa"), None, None)).conditions == conds;
    assert !Satisfies(rows[1], conds) by {
      assert ColumnValue(rows[1].country, conds[0].column) != Some(conds[0].value);
    }
    assert rows[1..][1..] == [];
    assert rows == [rows[0]] + [rows[1]];
  }

  /** Looking up a stored name answers 200 with its row; an unknown name answers 404. */
  method GetByName() returns (found: Response, missing: Response)
    ensures found.status == 200 && found.body.CountryBody? && found.body.country.country.name == "Nigeria"
    ensures missing == Response(404, ErrorBody("Country not found"))
  {
    var store := new CountryStore(true);
    store.Upsert(Inserted("Nigeria", None, 200, "NGN"));
    assert store.rows[0].country.name == "Nigeria";
    found := HandleGetByName(store, "Nigeria");
    missing := HandleGetByName(store, "NonExistent");
  }

  /** Deleting a stored name answers 204 and leaves no row with that name. */
  method DeleteThenGet() returns (deleted: Response, after: Response, count: nat)
    ensures deleted == Response(204, NoBody)
    ensures after == Response(404, ErrorBody("Country not found"))
    ensures count == 0
  {
    var store := new CountryStore(true);
    store.Upsert(Inserted("Nigeria", None, 200, "NGN"));
    deleted := HandleDelete(store, "Nigeria");
    after := HandleGetByName(store, "Nigeria");
    count := |store.rows|;
  }

  /** The status reports the row count and the stored refresh time; before any
      refresh the time is null. */
  method Status(t: Clock) returns (before: Response, after: Response)
    ensures before == Response(200, StatusBody(StatusInfo(0, None)))
    ensures after == Response(200, StatusBody(StatusInfo(1, Some(t))))
  {
    var store := new CountryStore(true);
    before := HandleStatus(store);
    store.Upsert(Inserted("Nigeria", None, 200, "NGN"));
    store.UpdateLastRefreshedAt(t);
    after := HandleStatus(store);
  }

  /** The summary image is absent before a refresh and served after a successful one. */
  method ImageBeforeAndAfterRefresh() returns (before: Response, after: Response)
    ensures before == Response(404, ErrorBody("Summary image not found"))
    ensures after == Response(200, FileBody("cache/summary.png"))
  {
    var store := new CountryStore(true);
    before := HandleImage(store);
    var countries := [Nigeria(), UnitedStates()];
    TestDerive([0.5, 0.5]);
    var derived := DeriveAll(countries, TestRates(), [0.5, 0.5]);
    UpsertTwoIntoEmpty(derived[0], derived[1]);
    var o := store.Refresh(Some(countries), Some(TestRates()), [0.5, 0.5], 1);
    ServedAfterTwoEstimates(store.rows);
    after := HandleImage(store);
  }
}
