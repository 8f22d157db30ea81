/** The HTTP handlers: each maps the outcome of one service call (it returned a
    value, returned null, threw, or the cached file exists) to a status code and a
    JSON body. */
module CountryController {
  import opened Wrappers
  import opened CountryModel
  import opened CountryDerive
  import opened CountryRanking
  import opened CountryQuery
  import opened CountryTable
  import opened CountryService
  import opened CountrySummary

  const SummaryImagePath: string := "cache/summary.png"

  datatype Body =
    | MessageBody(message: string)
    | ErrorBody(error: string)
    | ErrorDetailsBody(error: string, details: string)
    | CountriesBody(countries: seq<Row>)
    | CountryBody(country: Row)
    | StatusBody(status: StatusInfo)
    | NoBody
    | FileBody(path: string)

  datatype Response = Response(status: nat, body: Body)

  /** A 2xx status. */
  predicate IsSuccess(r: Response) {
    200 <= r.status < 300
  }

  /** POST /countries/refresh. `details` carries the thrown error's message. */
  function RefreshResponse(o: Outcome<string>): (r: Response)
    ensures IsSuccess(r) <==> o.Pass?
    ensures o.Pass? ==> r == Response(200, MessageBody("Countries refreshed successfully"))
    ensures o.Fail? ==> r.status == 503 && r.body == ErrorDetailsBody("External data source unavailable", o.error)
  {
    match o
    case Pass => Response(200, MessageBody("Countries refreshed successfully"))
    case Fail(message) => Response(503, ErrorDetailsBody("External data source unavailable", message))
  }

  /** The response of any handler whose service call threw. */
  const InternalError: Response := Response(500, ErrorBody("Internal server error"))

  /** GET /countries. */
  function ListResponse(o: Result<seq<Row>, ServiceError>): (r: Response)
    ensures IsSuccess(r) <==> o.Success?
    ensures o.Success? ==> r == Response(200, CountriesBody(o.value))
    ensures o.Failure? ==> r == InternalError
  {
    match o
    case Success(rows) => Response(200, CountriesBody(rows))
    case Failure(_) => InternalError
  }

  /** GET /countries/:name: a found row is always truthy. */
  function GetByNameResponse(o: Result<Option<Row>, ServiceError>): (r: Response)
    ensures IsSuccess(r) <==> o.Success? && o.value.Some?
    ensures o.Success? && o.value.Some? ==> r == Response(200, CountryBody(o.value.value))
    ensures o.Success? && o.value.None? ==> r == Response(404, ErrorBody("Country not found"))
    ensures o.Failure? ==> r == InternalError
  {
    match o
    case Success(Some(row)) => Response(200, CountryBody(row))
    case Success(None) => Response(404, ErrorBody("Country not found"))
    case Failure(_) => InternalError
  }

  /** DELETE /countries/:name: 204 whether or not a row matched. */
  function DeleteResponse(o: Outcome<ServiceError>): (r: Response)
    ensures IsSuccess(r) <==> o.Pass?
    ensures o.Pass? ==> r == Response(204, NoBody)
    ensures o.Fail? ==> r == InternalError
  {
    match o
    case Pass => Response(204, NoBody)
    case Fail(_) => InternalError
  }

  /** GET /status. */
  function StatusResponse(o: Result<StatusInfo, ServiceError>): (r: Response)
    ensures IsSuccess(r) <==> o.Success?
    ensures o.Success? ==> r == Response(200, StatusBody(o.value))
    ensures o.Failure? ==> r == InternalError
  {
    match o
    case Success(s) => Response(200, StatusBody(s))
    case Failure(_) => InternalError
  }

  /** GET /countries/image: the cached file if it exists, else 404. */
  function ImageResponse(fileExists: bool): (r: Response)
    ensures IsSuccess(r) <==> fileExists
    ensures fileExists ==> r == Response(200, FileBody(SummaryImagePath))
    ensures !fileExists ==> r == Response(404, ErrorBody("Summary image not found"))
  {
    if fileExists then Response(200, FileBody(SummaryImagePath))
    else Response(404, ErrorBody("Summary image not found"))
  }

  /** The refresh handler: run the refresh and answer 200, or 503 with the rethrown
      error's message as the details. */
  method HandleRefresh(store: CountryStore, countries: Option<seq<SourceCountry>>, rates: Option<Rates>,
                       draws: seq<real>, now: Clock) returns (r: Response)
    requires store.Valid()
    requires countries.Some? ==> |draws| == |countries.value|
    modifies store
    ensures store.Valid()
    ensures r == Response(200, MessageBody("Countries refreshed successfully")) ||
            r == Response(503, ErrorDetailsBody(RefreshFailedMessage, RefreshFailedMessage))
    ensures countries.None? || rates.None? ==>
      && r.status == 503
      && store.rows == old(store.rows) && store.nextId == old(store.nextId)
      && store.status == old(store.status) && store.summary == old(store.summary)
    ensures countries.Some? && rates.Some? ==>
      && Table(store.rows, store.nextId) ==
           UpsertAll(old(Table(store.rows, store.nextId)), DeriveAll(countries.value, rates.value, draws))
      && store.status == (if old(store.status).Some? then Some(StatusRow(Some(now))) else None)
      && (r.status == 200 <==> old(store.status).Some? && Render(store.rows, Some(now)).Success?)
      && (r.status == 200 ==> store.summary == Some(Render(store.rows, Some(now)).value))
      && (r.status != 200 ==> store.summary == old(store.summary))
  {
    var o := store.Refresh(countries, rates, draws, now);
    r := RefreshResponse(o);
  }

  /** The list handler. */
  method HandleList(store: CountryStore, f: Filters) returns (r: Response)
    ensures r.status == 200 && r.body.CountriesBody?
    ensures forall x :: x in r.body.countries <==> x in store.rows && Matches(f, x.country)
    ensures f.sort == Some(GdpDesc) ==> SortedByGdpDesc(r.body.countries)
    ensures multiset(r.body.countries) == multiset(Where(store.rows, PlanFor(f).conditions))
    ensures f.sort != Some(GdpDesc) ==> r.body.countries == Where(store.rows, PlanFor(f).conditions)
  {
    var o := store.List(f);
    r := ListResponse(o);
  }

  /** The get-by-name handler. */
  method HandleGetByName(store: CountryStore, name: string) returns (r: Response)
    ensures r.status == 200 || r.status == 404
    ensures r.status == 404 <==> forall j :: 0 <= j < |store.rows| ==> store.rows[j].country.name != name
    ensures r.status == 404 ==> r.body == ErrorBody("Country not found")
    ensures r.status == 200 ==> r.body.CountryBody? && r.body.country in store.rows && r.body.country.country.name == name
    ensures r.status == 200 ==> r.body == CountryBody(store.rows[FirstMatch(store.rows, name).value])
  {
    var found := store.FindByName(name);
    r := GetByNameResponse(Success(found));
  }

  /** The delete handler: 204, after which no row has the name. */
  method HandleDelete(store: CountryStore, name: string) returns (r: Response)
    requires store.Valid()
    modifies store
    ensures store.Valid()
    ensures r == Response(204, NoBody)
    ensures store.rows == Without(old(store.rows), name)
    ensures forall j :: 0 <= j < |store.rows| ==> store.rows[j].country.name != name
    ensures store.nextId == old(store.nextId) && store.status == old(store.status) &&
            store.summary == old(store.summary)
  {
    store.DeleteByName(name);
    r := DeleteResponse(Pass);
  }

  /** The status handler: 200 with the count and time, or 500 without a status row. */
  method HandleStatus(store: CountryStore) returns (r: Response)
    ensures store.status.Some? <==> r.status == 200
    ensures store.status.Some? ==> r.body == StatusBody(StatusInfo(|store.rows|, store.status.value.lastRefreshedAt))
    ensures store.status.None? ==> r == InternalError
  {
    var o := store.GetStatus();
    r := StatusResponse(o);
  }

  /** The image handler, serving the cached summary whenever one has been rendered. */
  method HandleImage(store: CountryStore) returns (r: Response)
    ensures store.summary.Some? ==> r == Response(200, FileBody(SummaryImagePath))
    ensures store.summary.None? ==> r == Response(404, ErrorBody("Summary image not found"))
  {
    r := ImageResponse(store.summary.Some?);
  }
}
