/** The country service: the countries table, the `app_status` row and the cached
    summary image as the mutable state of one object, with the service operations as
    its methods. Connections, the pool and the HTTP fetches are not modelled: each
    method is one sequential step and the fetched data are parameters. */
module CountryService {
  import opened Wrappers
  import opened CountryModel
  import opened CountryDerive
  import opened CountryTable
  import opened CountryRanking
  import opened CountrySummary
  import opened CountryQuery

  /** The message of the error every refresh failure is rethrown as. */
  const RefreshFailedMessage: string := "External data source unavailable"

  /** The singleton `app_status` row (id 1). */
  datatype StatusRow = StatusRow(lastRefreshedAt: Option<Clock>)

  /** The object `getStatus` returns. */
  datatype StatusInfo = StatusInfo(totalCountries: nat, lastRefreshedAt: Option<Clock>)

  /** Why a service operation threw. */
  datatype ServiceError =
    | StatusRowMissing                   // `status` destructured from an empty result
    | SummaryFailed(render: RenderError)  // `toLocaleString` of a NULL estimate
    | QueryFailed(query: QueryError)

  class CountryStore {
    /** The rows of `countries`, in storage order. */
    var rows: seq<Row>
    /** The next AUTO_INCREMENT id. */
    var nextId: nat
    /** The `app_status` row with id 1, None when it is absent. */
    var status: Option<StatusRow>
    /** `cache/summary.png`, None before the first successful rendering. */
    var summary: Option<Summary>

    ghost predicate Valid()
      reads this
    {
      IdsValid(Table(rows, nextId))
    }

    /** An empty table whose AUTO_INCREMENT starts at 1, with or without the status
        row that the schema setup inserts with a NULL timestamp. */
    constructor (statusRowPresent: bool)
      ensures Valid()
      ensures rows == [] && nextId == 1 && summary == None
      ensures status == if statusRowPresent then Some(StatusRow(None)) else None
    {
      rows := [];
      nextId := 1;
      status := if statusRowPresent then Some(StatusRow(None)) else None;
      summary := None;
    }

    /** `upsertCountry`: overwrite the first row with the record's name, keeping its
        id, or insert one new row with the next id. */
    method Upsert(c: Country)
      requires Valid()
      modifies this
      ensures Valid()
      ensures Table(rows, nextId) == UpsertOne(old(Table(rows, nextId)), c)
      ensures match FirstMatch(old(rows), c.name)
        case Some(k) => rows == old(rows)[k := Row(old(rows)[k].id, c)] && nextId == old(nextId)
        case None => rows == old(rows) + [Row(old(nextId), c)] && nextId == old(nextId) + 1
      ensures status == old(status) && summary == old(summary)
    {
      UpsertOverwritesFirstOrInserts(Table(rows, nextId), c);
      var found := FirstMatch(rows, c.name);
      if found.Some? {
        var id := rows[found.value].id;
        rows := UpdateWhereId(rows, id, c);
      } else {
        rows := rows + [Row(nextId, c)];
        nextId := nextId + 1;
      }
    }

    /** `updateLastRefreshedAt`: `UPDATE app_status SET last_refreshed_at = NOW()
        WHERE id = 1`, which changes nothing when that row is absent. */
    method UpdateLastRefreshedAt(now: Clock)
      modifies this
      ensures status == if old(status).Some? then Some(StatusRow(Some(now))) else None
      ensures rows == old(rows) && nextId == old(nextId) && summary == old(summary)
    {
      if status.Some? {
        status := Some(StatusRow(Some(now)));
      }
    }

    /** `getCountries`: the rows matching every truthy filter, ordered by estimate
        when `sort` is `gdp_desc` and in table order otherwise. */
    method List(f: Filters) returns (r: Result<seq<Row>, ServiceError>)
      ensures r.Success?
      ensures forall x :: x in r.value <==> x in rows && Matches(f, x.country)
      ensures f.sort == Some(GdpDesc) ==> SortedByGdpDesc(r.value)
      ensures multiset(r.value) == multiset(Where(rows, PlanFor(f).conditions))
      ensures f.sort != Some(GdpDesc) ==> r.value == Where(rows, PlanFor(f).conditions)
    {
      var query, params := BuildQuery(f);
      match RunQuery(query, params, rows)
      case Failure(e) =>
        r := Failure(QueryFailed(e));
      case Success(found) =>
        r := Success(found);
      RunPlanForFilters(f, rows);
    }

    /** `getCountryByName`: the first row with the name, or null. */
    method FindByName(name: string) returns (r: Option<Row>)
      ensures r.None? <==> forall j :: 0 <= j < |rows| ==> rows[j].country.name != name
      ensures r.Some? ==> r.value in rows && r.value.country.name == name
      ensures r.Some? ==> r.value == rows[FirstMatch(rows, name).value]
      ensures r.Some? && NamesUnique(rows) ==>
        forall j :: 0 <= j < |rows| && rows[j].country.name == name ==> rows[j] == r.value
    {
      var found := FirstMatch(rows, name);
      if found.Some? {
        r := Some(rows[found.value]);
      } else {
        r := None;
      }
    }

    /** `deleteCountryByName`: remove every row with the name; no match is no change. */
    method DeleteByName(name: string)
      requires Valid()
      modifies this
      ensures Valid()
      ensures rows == Without(old(rows), name)
      ensures forall j :: 0 <= j < |rows| ==> rows[j].country.name != name
      ensures (forall j :: 0 <= j < |old(rows)| ==> old(rows)[j].country.name != name) ==> rows == old(rows)
      ensures NamesUnique(old(rows)) ==> NamesUnique(rows)
      ensures nextId == old(nextId) && status == old(status) && summary == old(summary)
    {
      WithoutKeeps(Table(rows, nextId), name);
      rows := Without(rows, name);
    }

    /** `getStatus`: the row count and the stored refresh time; it throws when the
        status row is absent. */
    method GetStatus() returns (r: Result<StatusInfo, ServiceError>)
      ensures status.None? <==> r.Failure?
      ensures r.Failure? ==> r.error == StatusRowMissing
      ensures r.Success? ==> r.value.totalCountries == |rows|
      ensures r.Success? ==> r.value.lastRefreshedAt == status.value.lastRefreshedAt
    {
      if status.None? {
        r := Failure(StatusRowMissing);
      } else {
        r := Success(StatusInfo(|rows|, status.value.lastRefreshedAt));
      }
    }

    /** `generateSummaryImage`: render the top five, the count and the status time and
        overwrite the cached image; a missing status row or a NULL estimate among the
        top five throws and leaves the old image. */
    method GenerateSummaryImage() returns (o: Outcome<ServiceError>)
      modifies this
      ensures status.None? ==> o == Fail(StatusRowMissing)
      ensures status.Some? ==> match Render(rows, status.value.lastRefreshedAt)
        case Failure(e) => o == Fail(SummaryFailed(e))
        case Success(s) => o == Pass && summary == Some(s)
      ensures o.Fail? ==> summary == old(summary)
      ensures rows == old(rows) && nextId == old(nextId) && status == old(status)
    {
      if status.None? {
        o := Fail(StatusRowMissing);
      } else {
        match Render(rows, status.value.lastRefreshedAt)
        case Failure(e) =>
          o := Fail(SummaryFailed(e));
        case Success(s) =>
          summary := Some(s);
          o := Pass;
      }
    }

    /** The per-country upserts of a refresh, one after another in list order. */
    method UpsertBatch(cs: seq<Country>)
      requires Valid()
      modifies this
      ensures Valid()
      ensures Table(rows, nextId) == UpsertAll(old(Table(rows, nextId)), cs)
      ensures NamesUnique(old(rows)) ==> NamesUnique(rows)
      ensures AllConsistent(old(rows)) && (forall i :: 0 <= i < |cs| ==> Consistent(cs[i])) ==>
        AllConsistent(rows)
      ensures status == old(status) && summary == old(summary)
    {
      ghost var start := Table(rows, nextId);
      UpsertAllKeeps(start, cs);
      var i := 0;
      while i < |cs|
        invariant 0 <= i <= |cs|
        invariant Valid()
        invariant Table(rows, nextId) == UpsertAll(start, cs[..i])
        invariant status == old(status) && summary == old(summary)
      {
        assert cs[..i + 1][..i] == cs[..i];
        assert UpsertAll(start, cs[..i + 1]) == UpsertOne(UpsertAll(start, cs[..i]), cs[i]);
        Upsert(cs[i]);
        i := i + 1;
      }
      assert cs[..|cs|] == cs;
      assert Table(rows, nextId) == UpsertAll(start, cs);
      assert start.rows == old(rows);
    }

    /** `refreshCountries`, with the two fetches' results, the `Math.random()` value
        drawn for each country and the server time as parameters. A failed fetch
        writes nothing. Otherwise every derived record is upserted in order, the
        status time is set, and the summary is rendered; the writes made before a
        failure stay. Every failure is rethrown with the same message. */
    method Refresh(countries: Option<seq<SourceCountry>>, rates: Option<Rates>, draws: seq<real>, now: Clock)
      returns (o: Outcome<string>)
      requires Valid()
      requires countries.Some? ==> |draws| == |countries.value|
      modifies this
      ensures Valid()
      ensures o.Fail? ==> o.error == RefreshFailedMessage
      ensures countries.None? || rates.None? ==>
        && o.Fail?
        && rows == old(rows) && nextId == old(nextId)
        && status == old(status) && summary == old(summary)
      ensures countries.Some? && rates.Some? ==>
        && Table(rows, nextId) ==
             UpsertAll(old(Table(rows, nextId)), DeriveAll(countries.value, rates.value, draws))
        && status == (if old(status).Some? then Some(StatusRow(Some(now))) else None)
        && (o.Pass? <==> old(status).Some? && Render(rows, Some(now)).Success?)
        && (o.Pass? ==> summary == Some(Render(rows, Some(now)).value))
        && (o.Fail? ==> summary == old(summary))
      ensures NamesUnique(old(rows)) ==> NamesUnique(rows)
      ensures AllConsistent(old(rows)) ==> AllConsistent(rows)
    {
      if countries.None? || rates.None? {
        o := Fail(RefreshFailedMessage);
        return;
      }
      var derived := DeriveAll(countries.value, rates.value, draws);
      UpsertBatch(derived);
      UpdateLastRefreshedAt(now);
      var rendered := GenerateSummaryImage();
      if rendered.Pass? {
        o := Pass;
      } else {
        o := Fail(RefreshFailedMessage);
      }
    }
  }
}
