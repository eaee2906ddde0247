/** connectDB and writeFlights (flyhigh.py:47-72): the `flights` table of
    the SQLite file, with its AUTOINCREMENT primary key, and the transaction
    of the connection that writes to it. */
module Store {
  import opened Extract

  /** One row of `flights`: the primary key and the seven columns that
      writeFlights fills from a record. */
  datatype Row = Row(id: nat, flight: Flight)

  /** Every id is larger than the id of the row before it. */
  predicate IdsAscending(rows: seq<Row>)
    decreases |rows|
  {
    |rows| <= 1 || (rows[|rows| - 2].id < rows[|rows| - 1].id && IdsAscending(rows[..|rows| - 1]))
  }

  /** The last id is at most `bound`: for ascending ids, no id is above it. */
  predicate EndsAtMost(rows: seq<Row>, bound: nat) {
    rows == [] || rows[|rows| - 1].id <= bound
  }

  /** Ascending ids are strictly increasing across the whole table, and
      all of them are at most the last one. */
  lemma {:induction false} AscendingPairs(rows: seq<Row>, bound: nat)
    requires IdsAscending(rows) && EndsAtMost(rows, bound)
    ensures forall i, j :: 0 <= i < j < |rows| ==> rows[i].id < rows[j].id
    ensures forall i :: 0 <= i < |rows| ==> rows[i].id <= bound
    decreases |rows|
  {
    if |rows| > 1 {
      var init := rows[..|rows| - 1];
      AscendingPairs(init, rows[|rows| - 2].id);
      assert forall i :: 0 <= i < |init| ==> init[i] == rows[i];
    }
  }

  /** A prefix of an ascending table is ascending. */
  lemma {:induction false} AscendingPrefix(rows: seq<Row>, k: nat)
    requires IdsAscending(rows) && k <= |rows|
    ensures IdsAscending(rows[..k])
    decreases |rows|
  {
    if k < |rows| {
      assert rows[..|rows| - 1][..k] == rows[..k];
      AscendingPrefix(rows[..|rows| - 1], k);
    } else {
      assert rows[..k] == rows;
    }
  }

  /** A row whose id is above the last one keeps the table ascending. */
  lemma AscendingAppend(rows: seq<Row>, r: Row)
    requires IdsAscending(rows) && (rows == [] || rows[|rows| - 1].id < r.id)
    ensures IdsAscending(rows + [r])
  {
    assert (rows + [r])[..|rows|] == rows;
  }

  /** The rows that inserting `flights` one by one creates when the largest
      id handed out so far is `lastId`: AUTOINCREMENT gives each the next
      id. */
  function Numbered(flights: seq<Flight>, lastId: nat): (rows: seq<Row>)
    ensures |rows| == |flights|
    ensures rows != [] ==> rows[0] == Row(lastId + 1, flights[0])
    decreases |flights|
  {
    if flights == [] then []
    else [Row(lastId + 1, flights[0])] + Numbered(flights[1..], lastId + 1)
  }

  /** The records stored in the rows, in table order. */
  function Flights(rows: seq<Row>): seq<Flight> {
    seq(|rows|, i requires 0 <= i < |rows| => rows[i].flight)
  }

  /** One row per flight, in order, with the consecutive ids after lastId. */
  lemma {:induction false} NumberedRows(flights: seq<Flight>, lastId: nat)
    ensures var rows := Numbered(flights, lastId);
      && |rows| == |flights|
      && forall i :: 0 <= i < |rows| ==> rows[i] == Row(lastId + 1 + i, flights[i])
    decreases |flights|
  {
    if flights != [] {
      NumberedRows(flights[1..], lastId + 1);
    }
  }

  /** The stored records are exactly the flights written, in order. */
  lemma FlightsOfNumbered(flights: seq<Flight>, lastId: nat)
    ensures Flights(Numbered(flights, lastId)) == flights
  {
    NumberedRows(flights, lastId);
  }

  /** Writing two batches one after the other numbers the second from
      where the first stopped. */
  lemma {:induction false} NumberedAppend(a: seq<Flight>, b: seq<Flight>, lastId: nat)
    ensures Numbered(a + b, lastId) == Numbered(a, lastId) + Numbered(b, lastId + |a|)
    decreases |a|
  {
    if a == [] {
      assert a + b == b;
    } else {
      assert (a + b)[1..] == a[1..] + b;
      NumberedAppend(a[1..], b, lastId + 1);
    }
  }

  /** Inserting one more flight after a batch numbers it right after the
      batch. */
  lemma NumberedStep(rows: seq<Row>, done: seq<Flight>, f: Flight, lastId: nat)
    ensures rows + Numbered(done, lastId) + [Row(lastId + |done| + 1, f)]
      == rows + Numbered(done + [f], lastId)
  {
    NumberedAppend(done, [f], lastId);
    assert Numbered([f], lastId + |done|) == [Row(lastId + |done| + 1, f)];
  }

  /** A table that had `before` appended after `rows` and then `page`
      after that holds `rows` followed by the numbered records of both. */
  lemma RowsOfTwoBatches(rows: seq<Row>, lastId: nat, before: seq<Flight>, page: seq<Flight>)
    ensures (rows + Numbered(before, lastId)) + Numbered(page, lastId + |before|)
      == rows + Numbered(before + page, lastId)
  {
    NumberedAppend(before, page, lastId);
  }

  /** Appending freshly numbered rows keeps the ids ascending, and the
      last id is then lastId + |flights|. */
  lemma {:induction false} AppendKeepsIds(rows: seq<Row>, lastId: nat, flights: seq<Flight>)
    requires IdsAscending(rows) && EndsAtMost(rows, lastId)
    ensures IdsAscending(rows + Numbered(flights, lastId))
    ensures EndsAtMost(rows + Numbered(flights, lastId), lastId + |flights|)
    decreases |flights|
  {
    if flights == [] {
      assert rows + Numbered(flights, lastId) == rows;
    } else {
      var r := Row(lastId + 1, flights[0]);
      var rest := Numbered(flights[1..], lastId + 1);
      AscendingAppend(rows, r);
      AppendKeepsIds(rows + [r], lastId + 1, flights[1..]);
      assert Numbered(flights, lastId) == [r] + rest;
      assert rows + ([r] + rest) == (rows + [r]) + rest;
    }
  }

  /** The SQLite file and the open connection's transaction. rows and
      lastId (the sqlite_sequence entry of the table) are what the
      connection sees; savedRows and savedLastId what was last committed,
      which a rollback returns to. */
  class Database {
    var hasTable: bool
    var rows: seq<Row>
    var lastId: nat
    var savedRows: seq<Row>
    var savedLastId: nat

    ghost predicate Valid()
      reads this
    {
      && (!hasTable ==> rows == [] && lastId == 0)
      && IdsAscending(rows) && EndsAtMost(rows, lastId)
      && savedRows <= rows && savedLastId <= lastId
      && EndsAtMost(savedRows, savedLastId)
    }

    /** A database file without the table. */
    constructor ()
      ensures Valid() && !hasTable
      ensures rows == [] && savedRows == []
    {
      hasTable, rows, lastId, savedRows, savedLastId := false, [], 0, [], 0;
    }

    /** connectDB (flyhigh.py:47-62): CREATE TABLE IF NOT EXISTS, then
        commit. Rows already in the table stay as they are, and on a
        committed database a second call changes nothing. */
    method EnsureTable()
      requires Valid()
      modifies this
      ensures Valid() && hasTable
      ensures rows == old(rows) && lastId == old(lastId)
      ensures savedRows == rows && savedLastId == lastId
      ensures old(hasTable && savedRows == rows && savedLastId == lastId) ==> unchanged(this)
    {
      hasTable := true;
      savedRows, savedLastId := rows, lastId;
    }

    /** One INSERT INTO flights (flyhigh.py:68-71): the row gets the id
        after the largest one handed out. */
    method Insert(f: Flight)
      requires Valid() && hasTable
      modifies this
      ensures Valid() && hasTable
      ensures rows == old(rows) + [Row(old(lastId) + 1, f)]
      ensures lastId == old(lastId) + 1
      ensures savedRows == old(savedRows) && savedLastId == old(savedLastId)
    {
      AscendingAppend(rows, Row(lastId + 1, f));
      rows := rows + [Row(lastId + 1, f)];
      lastId := lastId + 1;
    }

    /** The loop of writeFlights (flyhigh.py:66-71): one insert per flight,
        in iteration order. */
    method InsertAll(flights: seq<Flight>)
      requires Valid() && hasTable
      modifies this
      ensures Valid() && hasTable
      ensures rows == old(rows) + Numbered(flights, old(lastId))
      ensures lastId == old(lastId) + |flights|
      ensures savedRows == old(savedRows) && savedLastId == old(savedLastId)
    {
      ghost var rows0, id0 := rows, lastId;
      for k := 0 to |flights|
        invariant Valid() && hasTable
        invariant rows == rows0 + Numbered(flights[..k], id0)
        invariant lastId == id0 + k
        invariant savedRows == old(savedRows) && savedLastId == old(savedLastId)
      {
        Insert(flights[k]);
        NumberedStep(rows0, flights[..k], flights[k], id0);
        assert flights[..k + 1] == flights[..k] + [flights[k]];
      }
      assert flights[..|flights|] == flights;
    }

    /** db.commit() */
    method Commit()
      requires Valid()
      modifies this
      ensures Valid()
      ensures rows == old(rows) && lastId == old(lastId) && hasTable == old(hasTable)
      ensures savedRows == rows && savedLastId == lastId
    {
      savedRows, savedLastId := rows, lastId;
    }

    /** db.rollback(), as `with db:` does when the block raises: the rows
        and ids handed out since the last commit are gone. */
    method Rollback()
      requires Valid()
      modifies this
      ensures Valid()
      ensures rows == old(savedRows) && lastId == old(savedLastId) && hasTable == old(hasTable)
      ensures savedRows == old(savedRows) && savedLastId == old(savedLastId)
    {
      AscendingPrefix(rows, |savedRows|);
      assert rows[..|savedRows|] == savedRows;
      rows, lastId := savedRows, savedLastId;
    }

    /** writeFlights (flyhigh.py:64-72): every flight appended as one row,
        in order, then one commit. The rows there before are untouched and
        every new id is above every old one. */
    method WriteFlights(flights: seq<Flight>)
      requires Valid() && hasTable
      modifies this
      ensures Valid() && hasTable
      ensures rows == old(rows) + Numbered(flights, old(lastId))
      ensures lastId == old(lastId) + |flights|
      ensures savedRows == rows && savedLastId == lastId
    {
      InsertAll(flights);
      Commit();
    }
  }
}
