/** The `getCountries` query: the SQL text and parameter list built from the request
    filters, and the meaning of that SQL over the table. The meaning is given by a
    small parser for the SELECT fragment the builder emits and an evaluator of the
    parsed plan, standing in for the database engine. */
module CountryQuery {
  import opened Wrappers
  import opened CountryModel
  import opened CountryRanking

  /** The request's query parameters `region`, `currency` and `sort`. */
  datatype Filters = Filters(region: Option<string>, currency: Option<string>, sort: Option<string>)

  const SelectAll: string := "SELECT * FROM countries"
  const WhereRegion: string := " WHERE region = ?"
  const AndCurrency: string := " AND currency_code = ?"
  const WhereCurrency: string := " WHERE currency_code = ?"
  const OrderByGdp: string := " ORDER BY estimated_gdp DESC"
  const GdpDesc: string := "gdp_desc"

  // ---------------------------------------------------------------- the SQL fragment

  datatype Column = RegionColumn | CurrencyColumn

  /** A parsed query: equality conditions joined by AND, each bound to its parameter,
      and whether rows are ordered by estimated GDP, descending. */
  datatype Condition = Condition(column: Column, value: string)
  datatype Plan = Plan(conditions: seq<Condition>, orderByGdpDesc: bool)

  /** The rest of `s` after the prefix `p`, when `s` starts with it. */
  function StripPrefix(p: string, s: string): (r: Option<string>)
    ensures r.Some? ==> p + r.value == s
  {
    if |p| <= |s| && s[..|p|] == p then Some(s[|p|..]) else None
  }

  /** `region` or `currency_code`. */
  function ParseColumn(s: string): Option<(Column, string)> {
    match StripPrefix("region", s)
    case Some(rest) => Some((RegionColumn, rest))
    case None =>
      match StripPrefix("currency_code", s)
      case Some(rest) => Some((CurrencyColumn, rest))
      case None => None
  }

  /** `<column> = ?` */
  function ParseCondition(s: string): Option<(Column, string)> {
    match ParseColumn(s)
    case None => None
    case Some((col, rest)) =>
      match StripPrefix(" = ?", rest)
      case None => None
      case Some(rest') => Some((col, rest'))
  }

  /** `( AND <condition>)*` */
  function ParseAnds(s: string): (r: Option<(seq<Column>, string)>)
    ensures r.Some? ==> |r.value.1| <= |s|
    decreases |s|
  {
    match StripPrefix(" AND ", s)
    case None => Some(([], s))
    case Some(rest) =>
      match ParseCondition(rest)
      case None => None
      case Some((col, rest')) =>
        match ParseAnds(rest')
        case None => None
        case Some((cols, rest'')) => Some(([col] + cols, rest''))
  }

  /** `[ WHERE <condition>( AND <condition>)*]` */
  function ParseWhere(s: string): Option<(seq<Column>, string)> {
    match StripPrefix(" WHERE ", s)
    case None => Some(([], s))
    case Some(rest) =>
      match ParseCondition(rest)
      case None => None
      case Some((col, rest')) =>
        match ParseAnds(rest')
        case None => None
        case Some((cols, rest'')) => Some(([col] + cols, rest''))
  }

  /** `[ ORDER BY estimated_gdp DESC]` and the end of the text. */
  function ParseOrder(s: string): Option<bool> {
    if s == "" then Some(false)
    else if s == OrderByGdp then Some(true)
    else None
  }

  /** The plan of `SELECT * FROM countries[ WHERE ...][ ORDER BY ...]` with its `?`
      placeholders bound, left to right, to `params`; None for any other text or a
      placeholder count that differs from the parameter count. */
  function ParseQuery(q: string, params: seq<string>): Option<Plan> {
    match StripPrefix(SelectAll, q)
    case None => None
    case Some(rest) =>
      match ParseWhere(rest)
      case None => None
      case Some((cols, rest')) =>
        match ParseOrder(rest')
        case None => None
        case Some(order) =>
          if |cols| != |params| then None
          else Some(Plan(Bind(cols, params), order))
  }

  /** Binds the i-th placeholder's column to the i-th parameter. */
  function Bind(cols: seq<Column>, params: seq<string>): (r: seq<Condition>)
    requires |cols| == |params|
    ensures |r| == |cols|
    ensures forall i :: 0 <= i < |r| ==> r[i] == Condition(cols[i], params[i])
  {
    if cols == [] then [] else [Condition(cols[0], params[0])] + Bind(cols[1..], params[1..])
  }

  // ---------------------------------------------------------------- evaluation

  function ColumnValue(c: Country, col: Column): Option<string> {
    match col
    case RegionColumn => c.region
    case CurrencyColumn => c.currencyCode
  }

  /** A row satisfies `col = ?` when its column equals the bound value (NULL never does). */
  predicate Satisfies(row: Row, conds: seq<Condition>) {
    forall i :: 0 <= i < |conds| ==> ColumnValue(row.country, conds[i].column) == Some(conds[i].value)
  }

  /** The rows satisfying every condition, in table order. */
  function Where(rows: seq<Row>, conds: seq<Condition>): (r: seq<Row>)
    ensures forall x :: x in r <==> x in rows && Satisfies(x, conds)
    ensures |r| <= |rows|
  {
    if rows == [] then []
    else (if Satisfies(rows[0], conds) then [rows[0]] else []) + Where(rows[1..], conds)
  }

  function RunPlan(p: Plan, rows: seq<Row>): (r: seq<Row>)
    // exactly the rows satisfying the conditions, each as often as in the table
    ensures forall x :: x in r <==> x in rows && Satisfies(x, p.conditions)
    ensures multiset(r) == multiset(Where(rows, p.conditions))
    // sorted when the plan orders, in table order otherwise
    ensures p.orderByGdpDesc ==> SortedByGdpDesc(r)
    ensures !p.orderByGdpDesc ==> r == Where(rows, p.conditions)
  {
    var matching := Where(rows, p.conditions);
    if p.orderByGdpDesc then
      var sorted := SortByGdpDesc(matching);
      SameMembers(sorted, matching);
      sorted
    else matching
  }

  /** Two sequences with the same multiset have the same members. */
  lemma SameMembers(a: seq<Row>, b: seq<Row>)
    requires multiset(a) == multiset(b)
    ensures forall x :: x in a <==> x in b
  {
    forall x ensures x in a <==> x in b {
      assert x in a <==> x in multiset(a);
      assert x in b <==> x in multiset(b);
    }
  }

  datatype QueryError = SyntaxError

  /** `connection.query(query, queryParams)` over the table. */
  function RunQuery(q: string, params: seq<string>, rows: seq<Row>): (r: Result<seq<Row>, QueryError>)
    // a text outside the fragment, or a placeholder count that differs, is an error
    ensures r.Failure? <==> ParseQuery(q, params).None?
    ensures r.Success? ==> forall x :: x in r.value <==> x in rows && Satisfies(x, ParseQuery(q, params).value.conditions)
    ensures r.Success? && ParseQuery(q, params).value.orderByGdpDesc ==> SortedByGdpDesc(r.value)
  {
    match ParseQuery(q, params)
    case None => Failure(SyntaxError)
    case Some(p) => Success(RunPlan(p, rows))
  }

  // ---------------------------------------------------------------- the builder

  /** The filters a request asks for: a truthy region, then a truthy currency, and
      the ordering when `sort` is exactly `gdp_desc`. */
  function PlanFor(f: Filters): Plan {
    Plan((if Truthy(f.region) then [Condition(RegionColumn, f.region.value)] else []) +
         (if Truthy(f.currency) then [Condition(CurrencyColumn, f.currency.value)] else []),
         f.sort == Some(GdpDesc))
  }

  /** A record matches the filters when it has each requested value. */
  predicate Matches(f: Filters, c: Country) {
    && (Truthy(f.region) ==> c.region == f.region)
    && (Truthy(f.currency) ==> c.currencyCode == f.currency)
  }

  /** The ORDER BY clause the builder appends, if any. */
  function OrderTail(f: Filters): string {
    if f.sort == Some(GdpDesc) then OrderByGdp else ""
  }

  /** The query text, then its parameters, appended step by step as `getCountries`
      does: `WHERE` for the first condition, `AND` for the second, the ordering last.
      The text parses to the plan of the filters, and its parameters are the region,
      then the currency. */
  method BuildQuery(f: Filters) returns (query: string, params: seq<string>)
    ensures ParseQuery(query, params) == Some(PlanFor(f))
    ensures params == (if Truthy(f.region) then [f.region.value] else []) +
                      (if Truthy(f.currency) then [f.currency.value] else [])
    ensures Truthy(f.region) && Truthy(f.currency) ==>
      query == SelectAll + WhereRegion + AndCurrency + OrderTail(f)
    ensures Truthy(f.region) && !Truthy(f.currency) ==> query == SelectAll + WhereRegion + OrderTail(f)
    ensures !Truthy(f.region) && Truthy(f.currency) ==> query == SelectAll + WhereCurrency + OrderTail(f)
    ensures !Truthy(f.region) && !Truthy(f.currency) ==> query == SelectAll + OrderTail(f)
  {
    query := SelectAll;
    params := [];
    if Truthy(f.region) {
      query := query + WhereRegion;
      params := params + [f.region.value];
    }
    if Truthy(f.currency) {
      if |params| > 0 {
        query := query + AndCurrency;
      } else {
        query := query + WhereCurrency;
      }
      params := params + [f.currency.value];
    }
    if f.sort == Some(GdpDesc) {
      query := query + OrderByGdp;
    }
    BuiltQueryParses(f, query, params);
  }

  /** The four texts the builder can produce parse to the plan of the filters. */
  lemma BuiltQueryParses(f: Filters, query: string, params: seq<string>)
    requires params == (if Truthy(f.region) then [f.region.value] else []) +
                       (if Truthy(f.currency) then [f.currency.value] else [])
    requires Truthy(f.region) && Truthy(f.currency) ==>
      query == SelectAll + WhereRegion + AndCurrency + OrderTail(f)
    requires Truthy(f.region) && !Truthy(f.currency) ==> query == SelectAll + WhereRegion + OrderTail(f)
    requires !Truthy(f.region) && Truthy(f.currency) ==> query == SelectAll + WhereCurrency + OrderTail(f)
    requires !Truthy(f.region) && !Truthy(f.currency) ==> query == SelectAll + OrderTail(f)
    ensures ParseQuery(query, params) == Some(PlanFor(f))
  {
    if Truthy(f.region) && Truthy(f.currency) {
      ParsesBoth(f);
    } else if Truthy(f.region) {
      ParsesRegionOnly(f);
    } else if Truthy(f.currency) {
      ParsesCurrencyOnly(f);
    } else {
      ParsesNoFilter(f);
    }
  }

  lemma ParsesBoth(f: Filters)
    requires Truthy(f.region) && Truthy(f.currency)
    ensures ParseQuery(SelectAll + WhereRegion + AndCurrency + OrderTail(f),
                       [f.region.value, f.currency.value]) == Some(PlanFor(f))
  {
    var tail := OrderTail(f);
    ParseOrderTail(f);
    assert SelectAll + WhereRegion + (AndCurrency + tail) == SelectAll + (WhereRegion + (AndCurrency + tail));
    assert WhereRegion + AndCurrency + tail == WhereRegion + (AndCurrency + tail);
    assert (SelectAll + WhereRegion) + AndCurrency + tail == (SelectAll + WhereRegion) + (AndCurrency + tail);
    ParseTwoConditions(tail, f.region.value, f.currency.value, f.sort == Some(GdpDesc));
    var p := PlanFor(f);
    assert p.conditions == [Condition(RegionColumn, f.region.value), Condition(CurrencyColumn, f.currency.value)];
  }

  lemma ParsesRegionOnly(f: Filters)
    requires Truthy(f.region) && !Truthy(f.currency)
    ensures ParseQuery(SelectAll + WhereRegion + OrderTail(f), [f.region.value]) == Some(PlanFor(f))
  {
    var tail := OrderTail(f);
    ParseOrderTail(f);
    assert SelectAll + WhereRegion + tail == SelectAll + (WhereRegion + tail);
    ParseOneCondition(WhereRegion, RegionColumn, tail, f.region.value, f.sort == Some(GdpDesc));
    var p := PlanFor(f);
    assert p.conditions == [Condition(RegionColumn, f.region.value)] + [];
  }

  lemma ParsesCurrencyOnly(f: Filters)
    requires !Truthy(f.region) && Truthy(f.currency)
    ensures ParseQuery(SelectAll + WhereCurrency + OrderTail(f), [f.currency.value]) == Some(PlanFor(f))
  {
    var tail := OrderTail(f);
    ParseOrderTail(f);
    assert SelectAll + WhereCurrency + tail == SelectAll + (WhereCurrency + tail);
    ParseOneCondition(WhereCurrency, CurrencyColumn, tail, f.currency.value, f.sort == Some(GdpDesc));
    var p := PlanFor(f);
    assert p.conditions == [] + [Condition(CurrencyColumn, f.currency.value)];
    assert p == Plan([Condition(CurrencyColumn, f.currency.value)], f.sort == Some(GdpDesc));
    assert ParseQuery(SelectAll + (WhereCurrency + tail), [f.currency.value]) == Some(p);
  }

  lemma ParsesNoFilter(f: Filters)
    requires !Truthy(f.region) && !Truthy(f.currency)
    ensures ParseQuery(SelectAll + OrderTail(f), []) == Some(PlanFor(f))
  {
    ParseOrderTail(f);
    ParseSelect(OrderTail(f), []);
    assert Bind([], []) == [];
    assert PlanFor(f) == Plan([], f.sort == Some(GdpDesc));
  }

  lemma ParseOneCondition(where: string, col: Column, tail: string, value: string, order: bool)
    requires (where == WhereRegion && col == RegionColumn) || (where == WhereCurrency && col == CurrencyColumn)
    requires ParseAnds(tail) == Some(([], tail)) && ParseOrder(tail) == Some(order)
    ensures ParseQuery(SelectAll + (where + tail), [value]) == Some(Plan([Condition(col, value)], order))
  {
    if col == RegionColumn {
      ParseWhereRegion(tail);
    } else {
      ParseWhereCurrency(tail);
    }
    assert [col] + [] == [col];
    ParseSelect(where + tail, [value]);
    assert Bind([col], [value]) == [Condition(col, value)];
  }

  lemma ParseTwoConditions(tail: string, region: string, currency: string, order: bool)
    requires ParseAnds(tail) == Some(([], tail)) && ParseOrder(tail) == Some(order)
    ensures ParseQuery(SelectAll + (WhereRegion + (AndCurrency + tail)), [region, currency]) ==
      Some(Plan([Condition(RegionColumn, region), Condition(CurrencyColumn, currency)], order))
  {
    ParseAndCurrency(tail);
    ParseWhereRegion(AndCurrency + tail);
    assert [RegionColumn] + [CurrencyColumn] == [RegionColumn, CurrencyColumn];
    ParseSelect(WhereRegion + (AndCurrency + tail), [region, currency]);
    assert Bind([RegionColumn, CurrencyColumn], [region, currency]) ==
      [Condition(RegionColumn, region), Condition(CurrencyColumn, currency)];
  }

  // ---------------------------------------------------------------- parsing lemmas

  lemma StripPrefixConcat(p: string, s: string)
    ensures StripPrefix(p, p + s) == Some(s)
  {
    assert (p + s)[..|p|] == p;
    assert (p + s)[|p|..] == s;
  }

  /** The text after the conditions starts no other clause and ends the query. */
  lemma ParseOrderTail(f: Filters)
    ensures StripPrefix(" AND ", OrderTail(f)).None?
    ensures StripPrefix(" WHERE ", OrderTail(f)).None?
    ensures ParseAnds(OrderTail(f)) == Some(([], OrderTail(f)))
    ensures ParseWhere(OrderTail(f)) == Some(([], OrderTail(f)))
    ensures ParseOrder(OrderTail(f)) == Some(f.sort == Some(GdpDesc))
  {
    assert OrderByGdp[1] == 'O';
  }

  lemma ParseRegionCondition(rest: string)
    ensures ParseCondition("region = ?" + rest) == Some((RegionColumn, rest))
  {
    StripPrefixConcat("region", " = ?" + rest);
    StripPrefixConcat(" = ?", rest);
    assert "region = ?" + rest == "region" + (" = ?" + rest);
  }

  lemma ParseCurrencyCondition(rest: string)
    ensures ParseCondition("currency_code = ?" + rest) == Some((CurrencyColumn, rest))
  {
    var s := "currency_code = ?" + rest;
    assert s[0] == 'c';
    assert StripPrefix("region", s).None?;
    StripPrefixConcat("currency_code", " = ?" + rest);
    StripPrefixConcat(" = ?", rest);
    assert s == "currency_code" + (" = ?" + rest);
  }

  lemma ParseAndCurrency(tail: string)
    requires ParseAnds(tail) == Some(([], tail))
    ensures ParseAnds(AndCurrency + tail) == Some(([CurrencyColumn], tail))
  {
    StripPrefixConcat(" AND ", "currency_code = ?" + tail);
    assert AndCurrency + tail == " AND " + ("currency_code = ?" + tail);
    ParseCurrencyCondition(tail);
    assert [CurrencyColumn] + [] == [CurrencyColumn];
  }

  /** ` WHERE ` followed by one condition and its ` AND ` tail. */
  lemma ParseWhereOne(s: string, col: Column, rest: string)
    requires ParseCondition(s) == Some((col, rest)) && ParseAnds(rest).Some?
    ensures ParseWhere(" WHERE " + s) == Some(([col] + ParseAnds(rest).value.0, ParseAnds(rest).value.1))
  {
    StripPrefixConcat(" WHERE ", s);
  }

  lemma ParseWhereRegion(rest: string)
    requires ParseAnds(rest).Some?
    ensures ParseWhere(WhereRegion + rest) ==
      Some(([RegionColumn] + ParseAnds(rest).value.0, ParseAnds(rest).value.1))
  {
    assert WhereRegion == " WHERE " + "region = ?";
    assert " WHERE " + "region = ?" + rest == " WHERE " + ("region = ?" + rest);
    ParseRegionCondition(rest);
    ParseWhereOne("region = ?" + rest, RegionColumn, rest);
  }

  lemma ParseWhereCurrency(rest: string)
    requires ParseAnds(rest).Some?
    ensures ParseWhere(WhereCurrency + rest) ==
      Some(([CurrencyColumn] + ParseAnds(rest).value.0, ParseAnds(rest).value.1))
  {
    assert WhereCurrency == " WHERE " + "currency_code = ?";
    assert " WHERE " + "currency_code = ?" + rest == " WHERE " + ("currency_code = ?" + rest);
    ParseCurrencyCondition(rest);
    ParseWhereOne("currency_code = ?" + rest, CurrencyColumn, rest);
  }

  lemma ParseSelect(rest: string, params: seq<string>)
    requires ParseWhere(rest).Some?
    requires ParseOrder(ParseWhere(rest).value.1).Some?
    requires |ParseWhere(rest).value.0| == |params|
    ensures ParseQuery(SelectAll + rest, params) ==
      Some(Plan(Bind(ParseWhere(rest).value.0, params), ParseOrder(ParseWhere(rest).value.1).value))
  {
    StripPrefixConcat(SelectAll, rest);
  }

  // ---------------------------------------------------------------- meaning

  /** A row satisfies the plan of the filters exactly when its record matches them. */
  lemma PlanForMeaning(f: Filters, row: Row)
    ensures Satisfies(row, PlanFor(f).conditions) <==> Matches(f, row.country)
  {
    var conds := PlanFor(f).conditions;
    if Truthy(f.region) && Truthy(f.currency) {
      assert conds[0] == Condition(RegionColumn, f.region.value);
      assert conds[1] == Condition(CurrencyColumn, f.currency.value);
    } else if Truthy(f.region) {
      assert conds[0] == Condition(RegionColumn, f.region.value);
    } else if Truthy(f.currency) {
      assert conds[0] == Condition(CurrencyColumn, f.currency.value);
    }
  }

  /** The rows the plan of the filters selects are exactly the rows matching them,
      in descending estimate order when asked and in table order otherwise. */
  lemma RunPlanForFilters(f: Filters, rows: seq<Row>)
    ensures var r := RunPlan(PlanFor(f), rows);
      && (forall x :: x in r <==> x in rows && Matches(f, x.country))
      && (f.sort == Some(GdpDesc) ==> SortedByGdpDesc(r))
      && multiset(r) == multiset(Where(rows, PlanFor(f).conditions))
      && (f.sort != Some(GdpDesc) ==> r == Where(rows, PlanFor(f).conditions))
  {
    forall x | x in rows ensures Satisfies(x, PlanFor(f).conditions) <==> Matches(f, x.country) {
      PlanForMeaning(f, x);
    }
  }
}
