/** The per-country merge and derive step of the refresh pipeline: the first
    currency code, its exchange rate, and the estimated GDP. */
module CountryDerive {
  import opened Wrappers
  import opened CountryModel

  /** One entry of a fetched country's `currencies` list. */
  datatype SourceCurrency = SourceCurrency(code: Option<string>)

  /** One country object of the country directory response. */
  datatype SourceCountry = SourceCountry(
    name: string,
    capital: Option<string>,
    region: Option<string>,
    population: int,
    flag: Option<string>,
    currencies: Option<seq<SourceCurrency>>)

  /** The `rates` object of the exchange-rate response: units of currency per 1 USD. */
  type Rates = map<string, real>

  /** `countryData.currencies?.[0]?.code`: undefined when the list is missing or
      empty, or when its first entry has no code. */
  function FirstCode(c: SourceCountry): Option<string> {
    match c.currencies
    case None => None
    case Some(cs) => if |cs| == 0 then None else cs[0].code
  }

  /** `currencyCode ? rates[currencyCode] : null`, then `exchangeRate || null`:
      a falsy code, an unknown code and a zero rate all give null. */
  function RateFor(code: Option<string>, rates: Rates): Option<real> {
    if Truthy(code) && code.value in rates && rates[code.value] != 0.0
    then Some(rates[code.value])
    else None
  }

  /** The random factor `Math.random() * (2000 - 1000) + 1000` for a draw `u`. */
  function Factor(u: real): (f: real)
    ensures 0.0 <= u < 1.0 ==> 1000.0 <= f < 2000.0
  {
    u * (2000.0 - 1000.0) + 1000.0
  }

  /** The record the pipeline writes for one fetched country, given the rates and the
      value `u` that `Math.random()` returned for it. */
  function Derive(c: SourceCountry, rates: Rates, u: real): (r: Country)
    // the copied fields
    ensures r.name == c.name && r.capital == c.capital && r.region == c.region
    ensures r.population == c.population && r.flagUrl == c.flag
    // the currency code is the first listed, non-empty code
    ensures r.currencyCode.Some? <==>
      (c.currencies.Some? && |c.currencies.value| > 0 &&
       c.currencies.value[0].code.Some? && c.currencies.value[0].code.value != "")
    ensures r.currencyCode.Some? ==> r.currencyCode == c.currencies.value[0].code
    // the rate is the known, non-zero rate of that code
    ensures r.exchangeRate.Some? <==>
      (r.currencyCode.Some? && r.currencyCode.value in rates && rates[r.currencyCode.value] != 0.0)
    ensures r.exchangeRate.Some? ==> r.exchangeRate.value == rates[r.currencyCode.value]
    // the estimate exists exactly when the rate does
    ensures r.estimatedGdp.Some? <==> r.exchangeRate.Some?
    ensures r.estimatedGdp.Some? ==>
      r.estimatedGdp.value == (c.population as real) * Factor(u) / r.exchangeRate.value
    ensures Consistent(r)
  {
    var code := FirstCode(c);
    var rate := RateFor(code, rates);
    Country(
      name := c.name,
      capital := c.capital,
      region := c.region,
      population := c.population,
      currencyCode := if Truthy(code) then code else None,
      exchangeRate := rate,
      estimatedGdp := if rate.Some? then Some((c.population as real) * Factor(u) / rate.value) else None,
      flagUrl := c.flag)
  }

  /** `countries.map(...)`: one derived record per fetched country, in order, the i-th
      using the i-th random draw. */
  function DeriveAll(cs: seq<SourceCountry>, rates: Rates, draws: seq<real>): (r: seq<Country>)
    requires |draws| == |cs|
    ensures |r| == |cs|
    // each record keeps its country's name, is consistent, and has an estimate
    // exactly when its country's first code is truthy with a known, non-zero rate
    ensures forall i :: 0 <= i < |cs| ==>
      && r[i].name == cs[i].name
      && Consistent(r[i])
      && (r[i].estimatedGdp.Some? <==> RateFor(FirstCode(cs[i]), rates).Some?)
    ensures forall i :: 0 <= i < |cs| ==> r[i] == Derive(cs[i], rates, draws[i])
  {
    seq(|cs|, i requires 0 <= i < |cs| => Derive(cs[i], rates, draws[i]))
  }

  /** With a draw in [0, 1), a positive rate and a non-negative population, the
      estimate lies between population * 1000 / rate and population * 2000 / rate. */
  lemma GdpBounds(c: SourceCountry, rates: Rates, u: real)
    requires 0.0 <= u < 1.0
    requires c.population >= 0
    requires Derive(c, rates, u).exchangeRate.Some? && Derive(c, rates, u).exchangeRate.value > 0.0
    ensures var r := Derive(c, rates, u);
      (c.population as real) * 1000.0 / r.exchangeRate.value <= r.estimatedGdp.value
      <= (c.population as real) * 2000.0 / r.exchangeRate.value
  {
    var r := Derive(c, rates, u);
    var p, k, f := c.population as real, r.exchangeRate.value, Factor(u);
    assert r.estimatedGdp.value == p * f / k;
    MulMonotone(p, 1000.0, f);
    MulMonotone(p, f, 2000.0);
    DivMonotone(p * 1000.0, p * f, k);
    DivMonotone(p * f, p * 2000.0, k);
  }

  lemma MulMonotone(p: real, a: real, b: real)
    requires p >= 0.0 && a <= b
    ensures p * a <= p * b
  {
    var d := b - a;
    assert p * d >= 0.0;
    assert p * b == p * a + p * d;
  }

  lemma DivMonotone(a: real, b: real, k: real)
    requires a <= b && k > 0.0
    ensures a / k <= b / k
  {
    assert b / k - a / k == (b - a) / k;
  }
}
