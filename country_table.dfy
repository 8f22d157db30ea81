/** The `countries` table as a value: its rows in storage order and the next
    auto-increment id, with the row-level operations of the service. */
module CountryTable {
  import opened Wrappers
  import opened CountryModel

  datatype Table = Table(rows: seq<Row>, nextId: nat)

  /** The auto-increment primary key: ids are distinct and below the next id. */
  predicate IdsValid(t: Table) {
    && (forall i :: 0 <= i < |t.rows| ==> t.rows[i].id < t.nextId)
    && (forall i, j :: 0 <= i < j < |t.rows| ==> t.rows[i].id != t.rows[j].id)
  }

  /** The table does not hold two rows with the same name (the schema does not
      enforce this; only the upsert rule keeps it). */
  predicate NamesUnique(rows: seq<Row>) {
    forall i, j :: 0 <= i < j < |rows| ==> rows[i].country.name != rows[j].country.name
  }

  /** The set of names present in the table. */
  function NameSet(rows: seq<Row>): (s: set<string>)
    ensures forall i :: 0 <= i < |rows| ==> rows[i].country.name in s
  {
    if rows == [] then {}
    else NameSet(rows[..|rows| - 1]) + {rows[|rows| - 1].country.name}
  }

  /** The names of a sequence of records. */
  function NamesOf(cs: seq<Country>): set<string> {
    set i | 0 <= i < |cs| :: cs[i].name
  }

  /** `SELECT ... FROM countries WHERE name = ?` and its first row: the index of the
      first row, in storage order, that carries the name. */
  function FirstMatch(rows: seq<Row>, name: string): (k: Option<nat>)
    ensures k.Some? ==> k.value < |rows| && rows[k.value].country.name == name
    ensures k.Some? ==> forall j :: 0 <= j < k.value ==> rows[j].country.name != name
    ensures k.None? <==> forall j :: 0 <= j < |rows| ==> rows[j].country.name != name
  {
    if |rows| == 0 then None
    else if rows[0].country.name == name then Some(0)
    else match FirstMatch(rows[1..], name)
      case None => None
      case Some(k) => Some(k + 1)
  }

  /** `UPDATE countries SET ? WHERE id = ?`: every row carrying the id takes the new
      fields and keeps its id. */
  function UpdateWhereId(rows: seq<Row>, id: nat, c: Country): (r: seq<Row>)
    ensures |r| == |rows|
    ensures forall i :: 0 <= i < |rows| && rows[i].id != id ==> r[i] == rows[i]
    ensures forall i :: 0 <= i < |rows| && rows[i].id == id ==> r[i] == Row(id, c)
  {
    seq(|rows|, i requires 0 <= i < |rows| => if rows[i].id == id then Row(id, c) else rows[i])
  }

  /** `upsertCountry`: select the rows with the record's name; update the first one by
      its id, or insert a new row with a fresh id. */
  function UpsertOne(t: Table, c: Country): (r: Table)
    // one row is added exactly when no row had the name, and it uses up one id
    ensures |r.rows| == |t.rows| + (if FirstMatch(t.rows, c.name).None? then 1 else 0)
    ensures r.nextId == t.nextId + (if FirstMatch(t.rows, c.name).None? then 1 else 0)
    // a lookup by the name afterwards finds the record just written
    ensures FirstMatch(r.rows, c.name).Some?
    ensures r.rows[FirstMatch(r.rows, c.name).value].country == c
  {
    match FirstMatch(t.rows, c.name)
    case Some(k) =>
      FindAfterUpdate(t.rows, k, c);
      Table(UpdateWhereId(t.rows, t.rows[k].id, c), t.nextId)
    case None =>
      FindAfterAppend(t.rows, Row(t.nextId, c));
      Table(t.rows + [Row(t.nextId, c)], t.nextId + 1)
  }

  /** Rewriting the first match by its id leaves a first match holding the record. */
  lemma FindAfterUpdate(rows: seq<Row>, k: nat, c: Country)
    requires FirstMatch(rows, c.name) == Some(k)
    ensures var r := UpdateWhereId(rows, rows[k].id, c);
      FirstMatch(r, c.name).Some? && r[FirstMatch(r, c.name).value].country == c
  {
    var r := UpdateWhereId(rows, rows[k].id, c);
    assert r[k].country.name == c.name;
    var m := FirstMatch(r, c.name).value;
    assert m <= k;
    assert rows[m].id == rows[k].id;
  }

  /** Appending a row under a name no row has makes it the first match. */
  lemma FindAfterAppend(rows: seq<Row>, row: Row)
    requires FirstMatch(rows, row.country.name).None?
    ensures FirstMatch(rows + [row], row.country.name) == Some(|rows|)
  {
    var r := rows + [row];
    assert r[|rows|] == row;
    assert forall j :: 0 <= j < |rows| ==> r[j] == rows[j];
  }

  /** The upserts of a refresh, run one after another in the order of `cs`. */
  function UpsertAll(t: Table, cs: seq<Country>): (r: Table)
    // never removes a row, adds at most one per record, and spends one id per row added
    ensures |t.rows| <= |r.rows| <= |t.rows| + |cs|
    ensures r.nextId - t.nextId == |r.rows| - |t.rows|
    // a lookup by the last record's name finds that record
    ensures cs != [] ==>
      && FirstMatch(r.rows, cs[|cs| - 1].name).Some?
      && r.rows[FirstMatch(r.rows, cs[|cs| - 1].name).value].country == cs[|cs| - 1]
    decreases |cs|
  {
    if cs == [] then t
    else UpsertOne(UpsertAll(t, cs[..|cs| - 1]), cs[|cs| - 1])
  }

  /** `DELETE FROM countries WHERE name = ?`: the rows without that name, in order. */
  function Without(rows: seq<Row>, name: string): (r: seq<Row>)
    ensures |r| <= |rows|
    // a lookup by the name afterwards finds nothing
    ensures FirstMatch(r, name).None?
  {
    if rows == [] then []
    else if rows[0].country.name == name then Without(rows[1..], name)
    else [rows[0]] + Without(rows[1..], name)
  }

  // ---------------------------------------------------------------- names

  /** Every name in the name set is carried by some row. */
  lemma {:induction false} NameSetMember(rows: seq<Row>, x: string)
    requires x in NameSet(rows)
    ensures exists i :: 0 <= i < |rows| && rows[i].country.name == x
  {
    var init := rows[..|rows| - 1];
    if x != rows[|rows| - 1].country.name {
      NameSetMember(init, x);
      var i :| 0 <= i < |init| && init[i].country.name == x;
      assert rows[i] == init[i];
    }
  }

  /** Overwriting a row by one with the same name leaves the name set as it was. */
  lemma {:induction false} NameSetUpdateSameName(rows: seq<Row>, k: nat, r: Row)
    requires k < |rows| && rows[k].country.name == r.country.name
    ensures NameSet(rows[k := r]) == NameSet(rows)
  {
    var n := |rows|;
    var u := rows[k := r];
    assert u[..n - 1] == if k == n - 1 then rows[..n - 1] else rows[..n - 1][k := r];
    if k < n - 1 {
      NameSetUpdateSameName(rows[..n - 1], k, r);
    }
  }

  /** A table with distinct names has exactly one row per name. */
  lemma {:induction false} UniqueNamesCount(rows: seq<Row>)
    requires NamesUnique(rows)
    ensures |NameSet(rows)| == |rows|
  {
    if rows != [] {
      var init := rows[..|rows| - 1];
      var last := rows[|rows| - 1].country.name;
      assert NamesUnique(init) by {
        forall i, j | 0 <= i < j < |init| ensures init[i].country.name != init[j].country.name {
          assert init[i] == rows[i] && init[j] == rows[j];
        }
      }
      UniqueNamesCount(init);
      if last in NameSet(init) {
        NameSetMember(init, last);
      }
    }
  }

  // ---------------------------------------------------------------- upsert

  /** With distinct ids, updating by the id of row k overwrites row k alone. */
  lemma UpdateWhereIdAt(t: Table, k: nat, c: Country)
    requires IdsValid(t) && k < |t.rows|
    ensures UpdateWhereId(t.rows, t.rows[k].id, c) == t.rows[k := Row(t.rows[k].id, c)]
  {
    var r := UpdateWhereId(t.rows, t.rows[k].id, c);
    forall i | 0 <= i < |r| ensures r[i] == t.rows[k := Row(t.rows[k].id, c)][i] {
      if i != k {
        assert t.rows[i].id != t.rows[k].id;
      }
    }
  }

  /** The upsert rule: with valid ids, an existing name has its FIRST row overwritten
      (id kept) and no other row changes; a new name gets exactly one new row at the
      end, with the next id. */
  lemma UpsertOverwritesFirstOrInserts(t: Table, c: Country)
    requires IdsValid(t)
    ensures var t' := UpsertOne(t, c);
      && IdsValid(t')
      && match FirstMatch(t.rows, c.name)
         case Some(k) => t'.rows == t.rows[k := Row(t.rows[k].id, c)] && t'.nextId == t.nextId
         case None => t'.rows == t.rows + [Row(t.nextId, c)] && t'.nextId == t.nextId + 1
  {
    match FirstMatch(t.rows, c.name)
    case Some(k) => UpdateWhereIdAt(t, k, c);
    case None =>
  }

  /** After an upsert, the names present are the old ones plus the record's name. */
  lemma UpsertNameSet(t: Table, c: Country)
    requires IdsValid(t)
    ensures NameSet(UpsertOne(t, c).rows) == NameSet(t.rows) + {c.name}
  {
    UpsertOverwritesFirstOrInserts(t, c);
    match FirstMatch(t.rows, c.name)
    case Some(k) => NameSetUpdateSameName(t.rows, k, Row(t.rows[k].id, c));
    case None => assert (t.rows + [Row(t.nextId, c)])[..|t.rows|] == t.rows;
  }

  /** An upsert never creates a second row for a name. */
  lemma UpsertKeepsNamesUnique(t: Table, c: Country)
    requires IdsValid(t) && NamesUnique(t.rows)
    ensures NamesUnique(UpsertOne(t, c).rows)
  {
    UpsertOverwritesFirstOrInserts(t, c);
    var r := UpsertOne(t, c).rows;
    match FirstMatch(t.rows, c.name)
    case Some(k) =>
      assert forall i :: 0 <= i < |r| ==> r[i].country.name == t.rows[i].country.name;
    case None =>
      assert forall i :: 0 <= i < |t.rows| ==> r[i] == t.rows[i];
  }

  /** An upsert of a consistent record keeps every row consistent. */
  lemma UpsertKeepsConsistent(t: Table, c: Country)
    requires IdsValid(t) && AllConsistent(t.rows) && Consistent(c)
    ensures AllConsistent(UpsertOne(t, c).rows)
  {
    UpsertOverwritesFirstOrInserts(t, c);
  }

  /** The names of all but the last record, plus the last one's. */
  lemma NamesOfSnoc(cs: seq<Country>)
    requires cs != []
    ensures NamesOf(cs) == NamesOf(cs[..|cs| - 1]) + {cs[|cs| - 1].name}
  {
    var init := cs[..|cs| - 1];
    forall x | x in NamesOf(cs) ensures x in NamesOf(init) + {cs[|cs| - 1].name} {
      var i :| 0 <= i < |cs| && cs[i].name == x;
      if i < |init| { assert init[i] == cs[i]; }
    }
    forall x | x in NamesOf(init) ensures x in NamesOf(cs) {
      var i :| 0 <= i < |init| && init[i].name == x;
      assert cs[i] == init[i];
    }
  }

  /** A sequence of upserts: ids stay valid, names stay unique, and the names
      present are the old ones plus those of the records. */
  lemma {:induction false} UpsertAllInvariants(t: Table, cs: seq<Country>)
    requires IdsValid(t) && NamesUnique(t.rows)
    ensures IdsValid(UpsertAll(t, cs)) && NamesUnique(UpsertAll(t, cs).rows)
    ensures NameSet(UpsertAll(t, cs).rows) == NameSet(t.rows) + NamesOf(cs)
    decreases |cs|
  {
    if cs != [] {
      var init, last := cs[..|cs| - 1], cs[|cs| - 1];
      UpsertAllInvariants(t, init);
      var mid := UpsertAll(t, init);
      assert UpsertAll(t, cs) == UpsertOne(mid, last);
      UpsertOverwritesFirstOrInserts(mid, last);
      UpsertNameSet(mid, last);
      UpsertKeepsNamesUnique(mid, last);
      NamesOfSnoc(cs);
    }
  }

  /** A sequence of upserts of consistent records keeps every row consistent. */
  lemma {:induction false} UpsertAllConsistent(t: Table, cs: seq<Country>)
    requires IdsValid(t) && AllConsistent(t.rows)
    requires forall i :: 0 <= i < |cs| ==> Consistent(cs[i])
    ensures IdsValid(UpsertAll(t, cs)) && AllConsistent(UpsertAll(t, cs).rows)
    decreases |cs|
  {
    if cs != [] {
      var init, last := cs[..|cs| - 1], cs[|cs| - 1];
      assert forall i :: 0 <= i < |init| ==> init[i] == cs[i];
      UpsertAllConsistent(t, init);
      var mid := UpsertAll(t, init);
      UpsertOverwritesFirstOrInserts(mid, last);
      UpsertKeepsConsistent(mid, last);
    }
  }

  /** A batch of upserts keeps names unique, and keeps the table consistent when
      every record is. */
  lemma UpsertAllKeeps(t: Table, cs: seq<Country>)
    requires IdsValid(t)
    ensures NamesUnique(t.rows) ==> NamesUnique(UpsertAll(t, cs).rows)
    ensures AllConsistent(t.rows) && (forall i :: 0 <= i < |cs| ==> Consistent(cs[i])) ==>
      AllConsistent(UpsertAll(t, cs).rows)
  {
    if NamesUnique(t.rows) {
      UpsertAllInvariants(t, cs);
    }
    if AllConsistent(t.rows) && (forall i :: 0 <= i < |cs| ==> Consistent(cs[i])) {
      UpsertAllConsistent(t, cs);
    }
  }

  /** After the upserts of a refresh, a table with unique names has one row per
      distinct name it held or was given. */
  lemma UpsertAllCount(t: Table, cs: seq<Country>)
    requires IdsValid(t) && NamesUnique(t.rows)
    ensures |UpsertAll(t, cs).rows| == |NameSet(t.rows) + NamesOf(cs)|
  {
    UpsertAllInvariants(t, cs);
    UniqueNamesCount(UpsertAll(t, cs).rows);
  }

  /** Refreshing again with records of the same names adds no row: the row count
      after the second refresh equals the count after the first. */
  lemma RefreshTwiceSameCount(t: Table, first: seq<Country>, second: seq<Country>)
    requires IdsValid(t) && NamesUnique(t.rows)
    requires NamesOf(second) == NamesOf(first)
    ensures |UpsertAll(UpsertAll(t, first), second).rows| == |UpsertAll(t, first).rows|
  {
    var t1 := UpsertAll(t, first);
    UpsertAllInvariants(t, first);
    UpsertAllCount(t, first);
    UpsertAllCount(t1, second);
    assert NameSet(t1.rows) + NamesOf(second) == NameSet(t.rows) + NamesOf(first);
  }

  // ---------------------------------------------------------------- delete

  /** After a delete no row has the name; a row is kept exactly when it is in the
      table under another name; the table does not grow. */
  lemma {:induction false} WithoutMembers(rows: seq<Row>, name: string)
    ensures var r := Without(rows, name);
      && (forall i :: 0 <= i < |r| ==> r[i].country.name != name)
      && (forall x :: x in r <==> x in rows && x.country.name != name)
      && |r| <= |rows|
  {
    if rows != [] {
      WithoutMembers(rows[1..], name);
      assert rows == [rows[0]] + rows[1..];
    }
  }

  /** Deleting a name that no row carries changes nothing. */
  lemma {:induction false} WithoutAbsentName(rows: seq<Row>, name: string)
    requires forall j :: 0 <= j < |rows| ==> rows[j].country.name != name
    ensures Without(rows, name) == rows
  {
    if rows != [] {
      WithoutAbsentName(rows[1..], name);
      assert rows == [rows[0]] + rows[1..];
    }
  }

  /** A delete works row by row and keeps the order of the rows it leaves: deleting
      from two tables laid end to end is deleting from each in turn. */
  lemma {:induction false} WithoutConcat(a: seq<Row>, b: seq<Row>, name: string)
    ensures Without(a + b, name) == Without(a, name) + Without(b, name)
  {
    if a == [] {
      assert a + b == b;
    } else {
      var ab := a + b;
      assert ab[0] == a[0];
      assert ab[1..] == a[1..] + b;
      WithoutConcat(a[1..], b, name);
      if a[0].country.name != name {
        assert [a[0]] + (Without(a[1..], name) + Without(b, name)) == ([a[0]] + Without(a[1..], name)) + Without(b, name);
      }
    }
  }

  /** Deleting keeps the ids valid. */
  lemma {:induction false} WithoutKeepsIds(t: Table, name: string)
    requires IdsValid(t)
    ensures IdsValid(Table(Without(t.rows, name), t.nextId))
    decreases |t.rows|
  {
    if t.rows != [] {
      var h, tail := t.rows[0], t.rows[1..];
      TailIdsValid(t);
      WithoutKeepsIds(Table(tail, t.nextId), name);
      if h.country.name != name {
        var rest := Without(tail, name);
        WithoutMembers(tail, name);
        forall x | x in rest ensures x.id != h.id {
          var j :| 0 <= j < |tail| && tail[j] == x;
          assert t.rows[j + 1] == x;
        }
        ConsIdsValid(h, rest, t.nextId);
      }
    }
  }

  lemma TailIdsValid(t: Table)
    requires IdsValid(t) && t.rows != []
    ensures IdsValid(Table(t.rows[1..], t.nextId))
  {
    var tail := t.rows[1..];
    forall i, j | 0 <= i < j < |tail| ensures tail[i].id != tail[j].id {
      assert tail[i] == t.rows[i + 1] && tail[j] == t.rows[j + 1];
    }
  }

  lemma ConsIdsValid(h: Row, rest: seq<Row>, nextId: nat)
    requires IdsValid(Table(rest, nextId)) && h.id < nextId
    requires forall x :: x in rest ==> x.id != h.id
    ensures IdsValid(Table([h] + rest, nextId))
  {
    var r := [h] + rest;
    forall i, j | 0 <= i < j < |r| ensures r[i].id != r[j].id {
      assert r[j] == rest[j - 1];
      if i > 0 {
        assert r[i] == rest[i - 1];
      }
    }
  }

  /** Deleting keeps names unique. */
  lemma {:induction false} WithoutKeepsNamesUnique(rows: seq<Row>, name: string)
    requires NamesUnique(rows)
    ensures NamesUnique(Without(rows, name))
  {
    if rows != [] {
      var tail := rows[1..];
      WithoutKeepsNamesUnique(tail, name);
      WithoutMembers(tail, name);
      var rest := Without(tail, name);
      forall i | 0 <= i < |rest| ensures rest[i].country.name != rows[0].country.name {
        assert rest[i] in tail;
        var j :| 0 <= j < |tail| && tail[j] == rest[i];
        assert rows[j + 1] == rest[i];
      }
    }
  }

  /** What a delete keeps: valid ids, no row with the name, unique names, and the
      whole table when no row has the name. */
  lemma WithoutKeeps(t: Table, name: string)
    requires IdsValid(t)
    ensures var r := Without(t.rows, name);
      && IdsValid(Table(r, t.nextId))
      && (forall j :: 0 <= j < |r| ==> r[j].country.name != name)
      && ((forall j :: 0 <= j < |t.rows| ==> t.rows[j].country.name != name) ==> r == t.rows)
      && (NamesUnique(t.rows) ==> NamesUnique(r))
  {
    WithoutKeepsIds(t, name);
    WithoutMembers(t.rows, name);
    if forall j :: 0 <= j < |t.rows| ==> t.rows[j].country.name != name {
      WithoutAbsentName(t.rows, name);
    }
    if NamesUnique(t.rows) {
      WithoutKeepsNamesUnique(t.rows, name);
    }
  }

  /** With unique names, deleting a present name removes exactly one row. */
  lemma {:induction false} WithoutCount(rows: seq<Row>, name: string)
    requires NamesUnique(rows)
    ensures |Without(rows, name)| == |rows| - (if name in NameSet(rows) then 1 else 0)
  {
    if rows != [] {
      var tail := rows[1..];
      assert NamesUnique(tail) by {
        forall i, j | 0 <= i < j < |tail| ensures tail[i].country.name != tail[j].country.name {
          assert tail[i] == rows[i + 1] && tail[j] == rows[j + 1];
        }
      }
      WithoutCount(tail, name);
      if name in NameSet(tail) {
        NameSetMember(tail, name);
        var j :| 0 <= j < |tail| && tail[j].country.name == name;
        assert rows[j + 1] == tail[j];
      }
      if name in NameSet(rows) && rows[0].country.name != name {
        NameSetMember(rows, name);
        var j :| 0 <= j < |rows| && rows[j].country.name == name;
        assert tail[j - 1] == rows[j];
      }
    }
  }
}
