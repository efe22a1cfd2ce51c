/**
 * The executors as they loop over the rows of a statement, updating the table in place
 * (execMySQLReplace, execMySQLInsertIgnore and execMySQLUpsert in pkg/mysqlmock/upsert.go).
 */
module RowExecutorLoops {
  import opened Options
  import opened UniqueKeys
  import opened RowExecutors
  import opened InsertIds

  /** One table of the SQLite database. */
  class SqliteTable {
    const schema: Schema
    var records: seq<Record>

    constructor (schema: Schema)
      ensures this.schema == schema && records == []
    {
      this.schema := schema;
      records := [];
    }

    method InsertRow(supplied: Row, pick: seq<Record> -> int) returns (result: Insertion)
      modifies this
      ensures result == Insert(schema, old(records), supplied, pick)
      ensures records == if result.Inserted? then result.table else old(records)
    {
      result := Insert(schema, records, supplied, pick);
      if result.Inserted? {
        records := result.table;
      }
    }

    method DeleteRow(id: int)
      modifies this
      ensures records == Without(old(records), [id])
    {
      records := Without(records, [id]);
    }

    method UpdateRow(i: nat, row: Row) returns (updated: Option<Record>)
      requires i < |records|
      modifies this
      ensures updated == Update(schema, old(records), i, row)
      ensures records == if updated.Some? then old(records)[i := updated.value] else old(records)
    {
      updated := Update(schema, records, i, row);
      if updated.Some? {
        records := records[i := updated.value];
      }
    }
  }

  /** Deleting ids one after the other deletes them all. */
  lemma {:induction false} WithoutTwice(table: seq<Record>, ids: seq<int>, id: int)
    ensures Without(Without(table, ids), [id]) == Without(table, ids + [id])
  {
    if table != [] {
      var rest := Without(table[1..], ids);
      WithoutTwice(table[1..], ids, id);
      if table[0].id !in ids {
        assert ([table[0]] + rest)[1..] == rest;
      } else {
        assert [] + rest == rest;
      }
    }
  }

  method DeleteAll(table: SqliteTable, ids: seq<int>) returns (deleted: nat)
    modifies table
    ensures table.records == Without(old(table.records), ids) && deleted == |ids|
  {
    deleted := 0;
    WithoutNone(table.records);
    assert ids[..0] == [];
    while deleted < |ids|
      invariant deleted <= |ids|
      invariant table.records == Without(old(table.records), ids[..deleted])
    {
      WithoutTwice(old(table.records), ids[..deleted], ids[deleted]);
      assert ids[..deleted + 1] == ids[..deleted] + [ids[deleted]];
      table.DeleteRow(ids[deleted]);
      deleted := deleted + 1;
    }
    assert ids[..deleted] == ids;
  }

  method ExecReplace(table: SqliteTable, rows: seq<InputRow>, pick: seq<Record> -> int)
    returns (affected: nat, lastInsertID: nat, failed: bool)
    modifies table
    ensures Tally(table.records, affected, lastInsertID, 0, failed) == Replace(table.schema, old(table.records), rows, pick)
    ensures IsFirst(ReplaceReports(table.schema, old(table.records), rows, pick), lastInsertID)
  {
    hide Without, Find, Insert;
    affected, lastInsertID, failed := 0, 0, false;
    ghost var s, start := table.schema, table.records;
    var i := 0;
    assert rows[..0] == [];
    while i < |rows| && !failed
      invariant i <= |rows|
      invariant Tally(table.records, affected, lastInsertID, 0, failed) == Replace(s, start, rows[..i], pick)
    {
      var row := rows[i];
      assert rows[..i + 1][..i] == rows[..i];
      var ids := FindConflictRowIDs(table.schema.keys, table.records, row.supplied);
      var deleted := DeleteAll(table, ids);
      affected := affected + deleted;
      var result := table.InsertRow(row.supplied, pick);
      if result.Inserted? {
        affected := affected + 1;
        lastInsertID := FirstId(lastInsertID, row.generated, result.id);
      } else {
        failed := true;
      }
      i := i + 1;
    }
    FailedReplace(s, start, rows, i, pick);
    ReplaceLastId(s, start, rows, pick);
  }

  /** Once a row has failed the rest is not looked at. */
  lemma {:induction false} FailedReplace(s: Schema, table: seq<Record>, rows: seq<InputRow>, i: nat, pick: seq<Record> -> int)
    requires i <= |rows| && (i == |rows| || Replace(s, table, rows[..i], pick).failed)
    ensures Replace(s, table, rows, pick) == Replace(s, table, rows[..i], pick)
  {
    if i == |rows| {
      assert rows[..i] == rows;
    } else {
      assert rows[..|rows| - 1][..i] == rows[..i];
      FailedReplace(s, table, rows[..|rows| - 1], i, pick);
    }
  }

  method ExecInsertIgnore(table: SqliteTable, rows: seq<InputRow>, pick: seq<Record> -> int)
    returns (affected: nat, lastInsertID: nat, warnings: nat, failed: bool)
    modifies table
    ensures Tally(table.records, affected, lastInsertID, warnings, failed)
         == Ignore(table.schema, old(table.records), rows, pick)
    ensures IsFirst(IgnoreReports(table.schema, old(table.records), rows, pick), lastInsertID)
  {
    hide Insert;
    affected, lastInsertID, warnings, failed := 0, 0, 0, false;
    ghost var s, start := table.schema, table.records;
    var i := 0;
    assert rows[..0] == [];
    while i < |rows| && !failed
      invariant i <= |rows|
      invariant Tally(table.records, affected, lastInsertID, warnings, failed) == Ignore(s, start, rows[..i], pick)
    {
      var row := rows[i];
      assert rows[..i + 1][..i] == rows[..i];
      var result := table.InsertRow(row.supplied, pick);
      if result.Inserted? {
        affected := affected + 1;
        lastInsertID := FirstId(lastInsertID, row.generated, result.id);
      } else if result.UniqueViolation? {
        warnings := (warnings + 1) % 0x10000;
      } else {
        failed := true;
      }
      i := i + 1;
    }
    FailedIgnore(s, start, rows, i, pick);
    IgnoreLastId(s, start, rows, pick);
  }

  lemma {:induction false} FailedIgnore(s: Schema, table: seq<Record>, rows: seq<InputRow>, i: nat, pick: seq<Record> -> int)
    requires i <= |rows| && (i == |rows| || Ignore(s, table, rows[..i], pick).failed)
    ensures Ignore(s, table, rows, pick) == Ignore(s, table, rows[..i], pick)
  {
    if i == |rows| {
      assert rows[..i] == rows;
    } else {
      assert rows[..|rows| - 1][..i] == rows[..i];
      FailedIgnore(s, table, rows[..|rows| - 1], i, pick);
    }
  }

  method ExecUpsert(table: SqliteTable, rows: seq<InputRow>, changes: seq<Row -> Row>, column: Option<string>,
                    pick: seq<Record> -> int)
    returns (affected: nat, lastInsertID: nat, failed: bool)
    requires |changes| == |rows|
    modifies table
    ensures Tally(table.records, affected, lastInsertID, 0, failed)
         == Upsert(table.schema, old(table.records), rows, changes, column, pick)
    ensures WellFormed(table.schema) && TableInv(table.schema, old(table.records)) && Picks(pick) ==>
              exists reports: seq<nat> :: |reports| == |rows| && IsFirst(reports, lastInsertID) &&
                forall i :: 0 <= i < |rows| ==>
                  RowReports(table.schema, old(table.records), rows, changes, column, pick, i, reports[i])
  {
    hide Insert, Find, Update;
    affected, lastInsertID, failed := 0, 0, false;
    ghost var s, start := table.schema, table.records;
    var n := 0;
    assert rows[..0] == [];
    while n < |rows| && !failed
      invariant n <= |rows|
      invariant Tally(table.records, affected, lastInsertID, 0, failed)
             == Upsert(s, start, rows[..n], changes[..n], column, pick)
    {
      var row := rows[n];
      assert rows[..n + 1][..n] == rows[..n] && changes[..n + 1][..n] == changes[..n];
      ghost var t := Tally(table.records, affected, lastInsertID, 0, failed);
      var result := table.InsertRow(row.supplied, pick);
      if result.Inserted? {
        affected := affected + 1;
        lastInsertID := FirstId(lastInsertID, row.generated, result.id);
      } else if result.UniqueViolation? {
        var ids := FindConflictRowIDs(table.schema.keys, table.records, row.supplied);
        if ids == [] {
          failed := true;
        } else {
          FirstFound(s, table.records, row.supplied);
          var i := Position(table.records, ids[0]);
          var before := table.records[i].row;
          var updated := table.UpdateRow(i, changes[n](before));
          if updated.None? || updated.value.id != ids[0] {
            failed := true;
          } else {
            if before != updated.value.row {
              affected := affected + 2;
            }
            lastInsertID := FirstId(lastInsertID, ReportedId(updated.value.row, column), 0);
          }
        }
      } else {
        failed := true;
      }
      assert Tally(table.records, affected, lastInsertID, 0, failed) == UpsertRow(s, t, row, changes[n], column, pick);
      n := n + 1;
    }
    FailedUpsert(s, start, rows, changes, column, n, pick);
    if WellFormed(s) && TableInv(s, start) && Picks(pick) {
      ghost var reports := UpsertLastId(s, start, rows, changes, column, pick);
    }
  }

  lemma {:induction false} FailedUpsert(s: Schema, table: seq<Record>, rows: seq<InputRow>, changes: seq<Row -> Row>,
                                        column: Option<string>, i: nat, pick: seq<Record> -> int)
    requires |changes| == |rows|
    requires i <= |rows| && (i == |rows| || Upsert(s, table, rows[..i], changes[..i], column, pick).failed)
    ensures Upsert(s, table, rows, changes, column, pick) == Upsert(s, table, rows[..i], changes[..i], column, pick)
  {
    hide UpsertRow;
    if i == |rows| {
      assert rows[..i] == rows && changes[..i] == changes;
    } else {
      var n := |rows| - 1;
      assert rows[..n][..i] == rows[..i] && changes[..n][..i] == changes[..i];
      FailedUpsert(s, table, rows[..n], changes[..n], column, i, pick);
    }
  }
}
