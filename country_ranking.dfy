/** `ORDER BY estimated_gdp DESC` as MySQL evaluates it (NULL sorts lowest, so last
    in descending order) and the `LIMIT 5` selection of the summary. */
module CountryRanking {
  import opened Wrappers
  import opened CountryModel

  /** The summary shows at most this many countries. */
  const TopCount: nat := 5

  /** `a` may come before `b` in descending order with NULLs last. */
  predicate GdpAtLeast(a: Option<real>, b: Option<real>) {
    if a.Some? && b.Some? then a.value >= b.value else b.None?
  }

  predicate RanksBefore(a: Row, b: Row) {
    GdpAtLeast(a.country.estimatedGdp, b.country.estimatedGdp)
  }

  predicate SortedByGdpDesc(s: seq<Row>) {
    forall i, j :: 0 <= i < j < |s| ==> RanksBefore(s[i], s[j])
  }

  /** The order is total and transitive. */
  lemma RanksBeforeTotalOrder(a: Row, b: Row, c: Row)
    ensures RanksBefore(a, b) || RanksBefore(b, a)
    ensures RanksBefore(a, b) && RanksBefore(b, c) ==> RanksBefore(a, c)
  {
  }

  /** A row that ranks before the head of a sorted sequence ranks before all of it. */
  lemma BeforeHeadBeforeAll(x: Row, s: seq<Row>)
    requires SortedByGdpDesc(s) && s != [] && RanksBefore(x, s[0])
    ensures forall j :: 0 <= j < |s| ==> RanksBefore(x, s[j])
  {
    forall j | 0 <= j < |s| ensures RanksBefore(x, s[j]) {
      RanksBeforeTotalOrder(x, s[0], s[j]);
    }
  }

  /** Inserting `x` before the first row it ranks before keeps the order; ties go to
      `x`, so a stable sort results. */
  function Insert(x: Row, s: seq<Row>): (r: seq<Row>)
    requires SortedByGdpDesc(s)
    ensures SortedByGdpDesc(r)
    ensures multiset(r) == multiset(s) + multiset{x}
    ensures |r| == |s| + 1
  {
    if s == [] then [x]
    else if RanksBefore(x, s[0]) then
      BeforeHeadBeforeAll(x, s);
      [x] + s
    else
      var rest := Insert(x, s[1..]);
      assert s == [s[0]] + s[1..];
      HeadBeforeInserted(s[0], x, s[1..], rest);
      [s[0]] + rest
  }

  /** The head of a sorted sequence ranks before every row of the tail with `x`
      inserted, when it ranks before `x`. */
  lemma HeadBeforeInserted(h: Row, x: Row, tail: seq<Row>, rest: seq<Row>)
    requires forall j :: 0 <= j < |tail| ==> RanksBefore(h, tail[j])
    requires !RanksBefore(x, h)
    requires multiset(rest) == multiset(tail) + multiset{x}
    ensures forall j :: 0 <= j < |rest| ==> RanksBefore(h, rest[j])
  {
    RanksBeforeTotalOrder(x, h, h);
    forall j | 0 <= j < |rest| ensures RanksBefore(h, rest[j]) {
      assert rest[j] in multiset(rest);
      if rest[j] != x {
        assert rest[j] in multiset(tail);
        assert rest[j] in tail;
      }
    }
  }

  /** The rows in descending estimated GDP, NULLs last, ties in table order. */
  function SortByGdpDesc(s: seq<Row>): (r: seq<Row>)
    ensures SortedByGdpDesc(r)
    ensures multiset(r) == multiset(s)
    ensures |r| == |s|
  {
    if s == [] then []
    else
      assert s == [s[0]] + s[1..];
      Insert(s[0], SortByGdpDesc(s[1..]))
  }

  /** How many rows have an estimate. */
  function NonNullCount(s: seq<Row>): nat {
    if s == [] then 0
    else (if s[0].country.estimatedGdp.Some? then 1 else 0) + NonNullCount(s[1..])
  }

  lemma {:induction false} InsertNonNullCount(x: Row, s: seq<Row>)
    requires SortedByGdpDesc(s)
    ensures NonNullCount(Insert(x, s)) ==
      NonNullCount(s) + (if x.country.estimatedGdp.Some? then 1 else 0)
  {
    if s != [] && !RanksBefore(x, s[0]) {
      InsertNonNullCount(x, s[1..]);
      assert Insert(x, s)[1..] == Insert(x, s[1..]);
    }
  }

  /** Sorting keeps the number of rows with an estimate. */
  lemma {:induction false} SortNonNullCount(s: seq<Row>)
    ensures NonNullCount(SortByGdpDesc(s)) == NonNullCount(s)
  {
    if s != [] {
      SortNonNullCount(s[1..]);
      InsertNonNullCount(s[0], SortByGdpDesc(s[1..]));
    }
  }

  /** In a sorted sequence the rows with an estimate come first: row i has one
      exactly when i is below the number of such rows. */
  lemma {:induction false} SortedNullsLast(s: seq<Row>)
    requires SortedByGdpDesc(s)
    ensures forall i :: 0 <= i < |s| ==> (s[i].country.estimatedGdp.Some? <==> i < NonNullCount(s))
  {
    if s != [] {
      SortedNullsLast(s[1..]);
      if s[0].country.estimatedGdp.None? {
        assert forall j :: 0 < j < |s| ==> RanksBefore(s[0], s[j]);
        AllNull(s[1..]);
      }
    }
  }

  lemma {:induction false} AllNull(s: seq<Row>)
    requires forall j :: 0 <= j < |s| ==> s[j].country.estimatedGdp.None?
    ensures NonNullCount(s) == 0
  {
    if s != [] {
      AllNull(s[1..]);
    }
  }

  /** `SELECT name, estimated_gdp FROM countries ORDER BY estimated_gdp DESC LIMIT 5`. */
  function TopFive(rows: seq<Row>): (r: seq<Row>)
    ensures |r| == if |rows| < TopCount then |rows| else TopCount
    ensures SortedByGdpDesc(r)
    ensures multiset(r) <= multiset(rows)
  {
    var s := SortByGdpDesc(rows);
    var k := if |s| < TopCount then |s| else TopCount;
    SplitSorted(s, k);
    s[..k]
  }

  /** The rows the summary leaves out, in ranking order. */
  function LeftOut(rows: seq<Row>): seq<Row> {
    var s := SortByGdpDesc(rows);
    s[if |s| < TopCount then |s| else TopCount..]
  }

  /** The summary lists min(5, n) rows of the table in descending order of estimate;
      with the rows it leaves out they make up the table, and every listed row ranks
      before every row left out. */
  lemma TopFiveIsTop(rows: seq<Row>)
    ensures |TopFive(rows)| == (if |rows| < TopCount then |rows| else TopCount)
    ensures SortedByGdpDesc(TopFive(rows))
    ensures multiset(TopFive(rows)) + multiset(LeftOut(rows)) == multiset(rows)
    ensures forall i, j :: 0 <= i < |TopFive(rows)| && 0 <= j < |LeftOut(rows)| ==>
      RanksBefore(TopFive(rows)[i], LeftOut(rows)[j])
  {
    var s := SortByGdpDesc(rows);
    SplitSorted(s, if |s| < TopCount then |s| else TopCount);
  }

  /** Cutting a sorted sequence gives a sorted prefix that ranks before the suffix. */
  lemma SplitSorted(s: seq<Row>, k: nat)
    requires SortedByGdpDesc(s) && k <= |s|
    ensures SortedByGdpDesc(s[..k])
    ensures multiset(s[..k]) + multiset(s[k..]) == multiset(s)
    ensures forall i, j :: 0 <= i < k && 0 <= j < |s| - k ==> RanksBefore(s[..k][i], s[k..][j])
  {
    assert s == s[..k] + s[k..];
    forall i, j | 0 <= i < k && 0 <= j < |s| - k ensures RanksBefore(s[..k][i], s[k..][j]) {
      assert s[..k][i] == s[i] && s[k..][j] == s[k + j];
    }
  }

  /** A listed row lacks an estimate exactly when fewer than five rows have one and
      some row has none. */
  lemma TopFiveNullIff(rows: seq<Row>)
    ensures (exists i :: 0 <= i < |TopFive(rows)| && TopFive(rows)[i].country.estimatedGdp.None?)
      <==> NonNullCount(rows) < TopCount && NonNullCount(rows) < |rows|
  {
    var s := SortByGdpDesc(rows);
    SortNonNullCount(rows);
    SortedNullsLast(s);
    var top := TopFive(rows);
    assert top == s[..|top|];
    if NonNullCount(rows) < TopCount && NonNullCount(rows) < |rows| {
      var k := NonNullCount(rows);
      assert top[k] == s[k];
      assert top[k].country.estimatedGdp.None?;
    } else {
      forall i | 0 <= i < |top| ensures top[i].country.estimatedGdp.Some? {
        assert top[i] == s[i];
      }
    }
  }
}
