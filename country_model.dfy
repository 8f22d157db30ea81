/** The stored country record (the `Country` interface of the model file) and its rows. */
module CountryModel {
  import opened Wrappers

  /** An abstract server timestamp, as produced by SQL `NOW()`. */
  type Clock = int

  /** One country record as written by the refresh pipeline. Optional and nullable
      fields are `Option`s; JavaScript numbers and SQL DECIMAL values are reals. */
  datatype Country = Country(
    name: string,
    capital: Option<string>,
    region: Option<string>,
    population: int,
    currencyCode: Option<string>,
    exchangeRate: Option<real>,
    estimatedGdp: Option<real>,
    flagUrl: Option<string>)

  /** JavaScript truthiness of an optional string: present and not empty. */
  predicate Truthy(s: Option<string>) {
    s.Some? && s.value != ""
  }

  /** A row of the `countries` table: the auto-increment id and the record. */
  datatype Row = Row(id: nat, country: Country)

  /** The consistency rule every derived record obeys: a GDP estimate exists exactly
      when a (non-zero) rate exists, and a rate only exists for a currency code. */
  predicate Consistent(c: Country) {
    && (c.estimatedGdp.Some? <==> c.exchangeRate.Some?)
    && (c.currencyCode.None? ==> c.exchangeRate.None?)
    && (c.exchangeRate.Some? ==> c.exchangeRate.value != 0.0)
  }

  /** Every row of a table is consistent. */
  predicate AllConsistent(rows: seq<Row>) {
    forall i :: 0 <= i < |rows| ==> Consistent(rows[i].country)
  }
}
