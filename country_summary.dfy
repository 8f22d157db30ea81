/** The content of the summary image: the fixed 800x600 layout and one text line per
    top country. Rasterising and number formatting are not modelled; a line keeps the
    values it shows. */
module CountrySummary {
  import opened Wrappers
  import opened CountryModel
  import opened CountryRanking

  const Width: nat := 800
  const Height: nat := 600
  /** Country lines start at x = 70, y = 280, one every 30 pixels. */
  const LineX: int := 70
  const FirstLineY: int := 280
  const LineSpacing: int := 30

  /** `<text x="70" y="{280 + 30 i}">{i + 1}. {name} - {gdp}</text>` */
  datatype SummaryLine = SummaryLine(x: int, y: int, rank: nat, name: string, gdp: real)

  /** The image: the total count line, the last-refresh line and the country lines. */
  datatype Summary = Summary(
    width: nat,
    height: nat,
    totalCountries: nat,
    lastRefreshedAt: Option<Clock>,
    lines: seq<SummaryLine>)

  /** `country.estimated_gdp.toLocaleString()` throws when the estimate is NULL; the
      error names the 1-based rank of the first such line. */
  datatype RenderError = NullGdp(rank: nat)

  /** The lines for `top[i..]`, built left to right as `Array.prototype.map` does, so
      the first NULL estimate aborts the whole rendering. */
  function LinesFrom(top: seq<Row>, i: nat): (r: Result<seq<SummaryLine>, RenderError>)
    requires i <= |top|
    decreases |top| - i
    ensures r.Success? <==> forall k :: i <= k < |top| ==> top[k].country.estimatedGdp.Some?
    ensures r.Success? ==> |r.value| == |top| - i
    ensures r.Success? ==> forall k :: 0 <= k < |r.value| ==>
      r.value[k] == SummaryLine(LineX, FirstLineY + LineSpacing * (i + k), i + k + 1,
                                top[i + k].country.name, top[i + k].country.estimatedGdp.value)
    ensures r.Failure? ==>
      && i < r.error.rank <= |top|
      && top[r.error.rank - 1].country.estimatedGdp.None?
      && forall k :: i <= k < r.error.rank - 1 ==> top[k].country.estimatedGdp.Some?
  {
    if i == |top| then Success([])
    else match top[i].country.estimatedGdp
      case None => Failure(NullGdp(i + 1))
      case Some(g) =>
        match LinesFrom(top, i + 1)
        case Failure(e) => Failure(e)
        case Success(rest) =>
          Success([SummaryLine(LineX, FirstLineY + LineSpacing * i, i + 1, top[i].country.name, g)] + rest)
  }

  /** The summary of a table whose status row holds `lastRefreshedAt`. */
  function Render(rows: seq<Row>, lastRefreshedAt: Option<Clock>): (r: Result<Summary, RenderError>)
    // it fails exactly when a listed row has no estimate, naming such a row
    ensures r.Success? <==> forall i :: 0 <= i < |TopFive(rows)| ==> TopFive(rows)[i].country.estimatedGdp.Some?
    ensures r.Failure? ==>
      0 < r.error.rank <= |TopFive(rows)| && TopFive(rows)[r.error.rank - 1].country.estimatedGdp.None?
    // on success: the fixed size, the whole table's count, the status time, one line per listed row
    ensures r.Success? ==>
      && r.value.width == Width && r.value.height == Height
      && r.value.totalCountries == |rows| && r.value.lastRefreshedAt == lastRefreshedAt
      && |r.value.lines| == |TopFive(rows)|
  {
    match LinesFrom(TopFive(rows), 0)
    case Failure(e) => Failure(e)
    case Success(lines) => Success(Summary(Width, Height, |rows|, lastRefreshedAt, lines))
  }

  /** Rendering succeeds unless fewer than five rows have an estimate and some row
      has none; on success line i shows the i-th top country at y = 280 + 30 i, with
      rank i + 1, and the counts come from the whole table. */
  lemma RenderSpec(rows: seq<Row>, lastRefreshedAt: Option<Clock>)
    ensures var r := Render(rows, lastRefreshedAt);
      && (r.Failure? <==> NonNullCount(rows) < TopCount && NonNullCount(rows) < |rows|)
      && (r.Success? ==>
           && r.value.width == 800 && r.value.height == 600
           && r.value.totalCountries == |rows|
           && r.value.lastRefreshedAt == lastRefreshedAt
           && |r.value.lines| == (if |rows| < TopCount then |rows| else TopCount)
           && forall i :: 0 <= i < |r.value.lines| ==>
                && r.value.lines[i].y == 280 + 30 * i
                && r.value.lines[i].rank == i + 1
                && r.value.lines[i].name == TopFive(rows)[i].country.name
                && Some(r.value.lines[i].gdp) == TopFive(rows)[i].country.estimatedGdp)
  {
    TopFiveNullIff(rows);
    TopFiveIsTop(rows);
  }
}
