/**
 * The last insert id that REPLACE, INSERT IGNORE and INSERT ... ON DUPLICATE KEY UPDATE report
 * (pkg/mysqlmock/upsert.go): the id of the first row that reports one.
 */
module InsertIds {
  import opened Options
  import opened UniqueKeys
  import opened RowExecutors

  /** The number reported is that of the first row that reports one, and 0 if no row does. */
  predicate IsFirst(reports: seq<nat>, last: nat) {
    if forall i :: 0 <= i < |reports| ==> reports[i] == 0 then last == 0
    else exists i :: 0 <= i < |reports| && reports[i] == last && last != 0 && forall j :: 0 <= j < i ==> reports[j] == 0
  }

  lemma FirstOfMore(reports: seq<nat>, last: nat, r: nat)
    requires IsFirst(reports, last)
    ensures IsFirst(reports + [r], if last != 0 then last else r)
  {
    var all := reports + [r];
    assert forall i :: 0 <= i < |reports| ==> all[i] == reports[i];
    assert all[|reports|] == r;
    if last != 0 {
      var i :| 0 <= i < |reports| && reports[i] == last && forall j :: 0 <= j < i ==> reports[j] == 0;
      assert all[i] == last;
    }
  }

  /** A stored row reports the value generated for it, or else its row id if that is positive. */
  function StoredReport(row: InputRow, x: Record): nat {
    if row.generated != 0 then row.generated else if x.id > 0 then x.id else 0
  }

  function Newest(table: seq<Record>): Record
    requires table != []
  {
    table[|table| - 1]
  }

  // ---------------------------------------------------------------------------------------------
  // REPLACE
  // ---------------------------------------------------------------------------------------------

  /** What one row of a REPLACE reports: the record it has left at the end of the table, or nothing if it failed. */
  function ReplaceReport(after: Tally, row: InputRow): nat {
    if after.failed || after.table == [] then 0 else StoredReport(row, Newest(after.table))
  }

  function ReplaceReports(s: Schema, table: seq<Record>, rows: seq<InputRow>, pick: seq<Record> -> int): (r: seq<nat>)
    ensures |r| == |rows|
  {
    seq(|rows|, i requires 0 <= i < |rows| => ReplaceReport(Replace(s, table, rows[..i + 1], pick), rows[i]))
  }

  lemma NewestId(s: Schema, table: seq<Record>, supplied: Row, pick: seq<Record> -> int)
    ensures var inserted := RowExecutors.Insert(s, table, supplied, pick);
            inserted.Inserted? ==> |inserted.table| == |table| + 1 && Newest(inserted.table).id == inserted.id
  {
    hide Violates;
  }

  lemma Prefix<T>(rows: seq<T>, n: nat, i: nat)
    requires i <= n <= |rows|
    ensures rows[..n][..i] == rows[..i]
  {
  }

  lemma ReplaceRowReports(s: Schema, t: Tally, row: InputRow, pick: seq<Record> -> int)
    requires !t.failed
    ensures var t' := ReplaceRow(s, t, row, pick);
            t'.lastInsertID == if t.lastInsertID != 0 then t.lastInsertID else ReplaceReport(t', row)
  {
    var cleared := Without(t.table, Find(s.keys, t.table, row.supplied));
    NewestId(s, cleared, row.supplied, pick);
    hide Find, Insert, Without;
  }

  lemma ReplaceReportsLast(s: Schema, table: seq<Record>, rows: seq<InputRow>, pick: seq<Record> -> int)
    requires rows != []
    ensures var n := |rows| - 1;
            ReplaceReports(s, table, rows, pick) == ReplaceReports(s, table, rows[..n], pick) +
              [ReplaceReport(Replace(s, table, rows, pick), rows[n])]
  {
    hide Replace, ReplaceReport;
    var n := |rows| - 1;
    assert rows[..n + 1] == rows;
    forall i | 0 <= i < n
      ensures ReplaceReports(s, table, rows, pick)[i] == ReplaceReports(s, table, rows[..n], pick)[i]
    {
      Prefix(rows, n, i + 1);
    }
  }

  lemma ReplaceLastRow(s: Schema, table: seq<Record>, rows: seq<InputRow>, pick: seq<Record> -> int)
    requires rows != []
    ensures var n := |rows| - 1;
            var before, after := Replace(s, table, rows[..n], pick), Replace(s, table, rows, pick);
            after.lastInsertID == if before.lastInsertID != 0 then before.lastInsertID else ReplaceReport(after, rows[n])
  {
    hide ReplaceRow, StoredReport;
    var n := |rows| - 1;
    var before, after := Replace(s, table, rows[..n], pick), Replace(s, table, rows, pick);
    assert after == if before.failed then before else ReplaceRow(s, before, rows[n], pick);
    hide Replace;
    if before.failed {
      assert ReplaceReport(after, rows[n]) == 0;
    } else {
      ReplaceRowReports(s, before, rows[n], pick);
    }
  }

  /** A whole REPLACE reports the id of its first row that reports one. */
  lemma {:induction false} ReplaceLastId(s: Schema, table: seq<Record>, rows: seq<InputRow>, pick: seq<Record> -> int)
    ensures IsFirst(ReplaceReports(s, table, rows, pick), Replace(s, table, rows, pick).lastInsertID)
  {
    hide IsFirst, ReplaceReport;
    if rows == [] {
      NoneReports();
      assert ReplaceReports(s, table, rows, pick) == [];
    } else {
      hide Replace, ReplaceReports;
      var n := |rows| - 1;
      ReplaceLastId(s, table, rows[..n], pick);
      var before, after := Replace(s, table, rows[..n], pick), Replace(s, table, rows, pick);
      ReplaceReportsLast(s, table, rows, pick);
      ReplaceLastRow(s, table, rows, pick);
      FirstOfMore(ReplaceReports(s, table, rows[..n], pick), before.lastInsertID, ReplaceReport(after, rows[n]));
    }
  }

  lemma NoneReports()
    ensures IsFirst([], 0)
  {
  }

  // ---------------------------------------------------------------------------------------------
  // INSERT IGNORE
  // ---------------------------------------------------------------------------------------------

  /** What one row of an INSERT IGNORE reports: the record it added, or nothing if it became a warning. */
  function IgnoreReport(before: Tally, after: Tally, row: InputRow): nat {
    if |after.table| > |before.table| then StoredReport(row, Newest(after.table)) else 0
  }

  function IgnoreReports(s: Schema, table: seq<Record>, rows: seq<InputRow>, pick: seq<Record> -> int): (r: seq<nat>)
    ensures |r| == |rows|
  {
    seq(|rows|, i requires 0 <= i < |rows| =>
      IgnoreReport(Ignore(s, table, rows[..i], pick), Ignore(s, table, rows[..i + 1], pick), rows[i]))
  }

  lemma IgnoreRowReports(s: Schema, t: Tally, row: InputRow, pick: seq<Record> -> int)
    ensures var t' := IgnoreRow(s, t, row, pick);
            t'.lastInsertID == if t.lastInsertID != 0 then t.lastInsertID else IgnoreReport(t, t', row)
  {
    NewestId(s, t.table, row.supplied, pick);
    hide Insert;
  }

  lemma IgnoreReportsLast(s: Schema, table: seq<Record>, rows: seq<InputRow>, pick: seq<Record> -> int)
    requires rows != []
    ensures var n := |rows| - 1;
            IgnoreReports(s, table, rows, pick) == IgnoreReports(s, table, rows[..n], pick) +
              [IgnoreReport(Ignore(s, table, rows[..n], pick), Ignore(s, table, rows, pick), rows[n])]
  {
    hide Ignore, IgnoreReport;
    var n := |rows| - 1;
    assert rows[..n + 1] == rows;
    forall i | 0 <= i < n
      ensures IgnoreReports(s, table, rows, pick)[i] == IgnoreReports(s, table, rows[..n], pick)[i]
    {
      Prefix(rows, n, i);
      Prefix(rows, n, i + 1);
    }
  }

  lemma IgnoreLastRow(s: Schema, table: seq<Record>, rows: seq<InputRow>, pick: seq<Record> -> int)
    requires rows != []
    ensures var n := |rows| - 1;
            var before, after := Ignore(s, table, rows[..n], pick), Ignore(s, table, rows, pick);
            after.lastInsertID == if before.lastInsertID != 0 then before.lastInsertID else IgnoreReport(before, after, rows[n])
  {
    hide IgnoreRow, StoredReport;
    var n := |rows| - 1;
    var before, after := Ignore(s, table, rows[..n], pick), Ignore(s, table, rows, pick);
    assert after == if before.failed then before else IgnoreRow(s, before, rows[n], pick);
    hide Ignore;
    if before.failed {
      assert IgnoreReport(before, after, rows[n]) == 0;
    } else {
      IgnoreRowReports(s, before, rows[n], pick);
    }
  }

  /** A whole INSERT IGNORE reports the id of its first row that was stored with one; warnings do not count. */
  lemma {:induction false} IgnoreLastId(s: Schema, table: seq<Record>, rows: seq<InputRow>, pick: seq<Record> -> int)
    ensures IsFirst(IgnoreReports(s, table, rows, pick), Ignore(s, table, rows, pick).lastInsertID)
  {
    hide IsFirst, IgnoreReport;
    if rows == [] {
      NoneReports();
      assert IgnoreReports(s, table, rows, pick) == [];
    } else {
      hide Ignore, IgnoreReports;
      var n := |rows| - 1;
      IgnoreLastId(s, table, rows[..n], pick);
      var before, after := Ignore(s, table, rows[..n], pick), Ignore(s, table, rows, pick);
      IgnoreReportsLast(s, table, rows, pick);
      IgnoreLastRow(s, table, rows, pick);
      FirstOfMore(IgnoreReports(s, table, rows[..n], pick), before.lastInsertID, IgnoreReport(before, after, rows[n]));
    }
  }

  // ---------------------------------------------------------------------------------------------
  // INSERT ... ON DUPLICATE KEY UPDATE
  // ---------------------------------------------------------------------------------------------

  /** The positive number in the auto-increment column, if there is one. */
  function NumberIn(row: Row, column: Option<string>): nat {
    if column.None? then 0
    else
      match Cell(row, column.value)
      case Int(n) => if n > 0 then n else 0
      case _ => 0
  }

  /** What one row of an upsert reports: the record it added, or else the one it updated - the first one found. */
  ghost predicate UpsertReports(s: Schema, before: Tally, after: Tally, row: InputRow, change: Row -> Row,
                                column: Option<string>, r: nat) {
    if |after.table| > |before.table| then r == StoredReport(row, Newest(after.table))
    else if after.failed then r == 0
    else exists k: nat, i: nat :: Updates(s, before, after, row.supplied, change, k, i) && r == NumberIn(after.table[i].row, column)
  }

  lemma UpsertRowReports(s: Schema, t: Tally, row: InputRow, change: Row -> Row, column: Option<string>,
                         pick: seq<Record> -> int) returns (r: nat)
    requires WellFormed(s) && TableInv(s, t.table) && Picks(pick) && !t.failed
    ensures var t' := UpsertRow(s, t, row, change, column, pick);
            && UpsertReports(s, t, t', row, change, column, r)
            && t'.lastInsertID == if t.lastInsertID != 0 then t.lastInsertID else r
  {
    var t' := UpsertRow(s, t, row, change, column, pick);
    NewestId(s, t.table, row.supplied, pick);
    UpsertRowExact(s, t, row, change, column, pick);
    InsertExact(s, t.table, row.supplied, pick);
    hide Insert, Find, TableInv, Covered, Conflicts, Adds, Updates, Mismatch;
    r := 0;
    if |t'.table| > |t.table| {
      r := StoredReport(row, Newest(t'.table));
    } else if !t'.failed {
      var k: nat, i: nat :| Updates(s, t, t', row.supplied, change, k, i);
      r := NumberIn(t'.table[i].row, column);
      UpdatedReport(s, t, row, change, column, pick, k, i);
    }
  }

  lemma UpdatedReport(s: Schema, t: Tally, row: InputRow, change: Row -> Row, column: Option<string>,
                      pick: seq<Record> -> int, k: nat, i: nat)
    requires WellFormed(s) && TableInv(s, t.table) && !t.failed && Insert(s, t.table, row.supplied, pick).UniqueViolation?
    requires var t' := UpsertRow(s, t, row, change, column, pick); !t'.failed && Updates(s, t, t', row.supplied, change, k, i)
    ensures var t' := UpsertRow(s, t, row, change, column, pick);
            t'.lastInsertID == if t.lastInsertID != 0 then t.lastInsertID else NumberIn(t'.table[i].row, column)
  {
    hide Insert, TableInv, FirstHolder;
    FirstFound(s, t.table, row.supplied);
    var ids := Find(s.keys, t.table, row.supplied);
    FirstFoundKey(s.keys, t.table, row.supplied);
    var k2: nat, x :| FirstHolder(s.keys, t.table, row.supplied, k2, x) && x.id == ids[0];
    OneHolder(s, t.table, row.supplied, k, t.table[i], k2, x);
    SameId(s, t.table, k, row.supplied, t.table[i], Position(t.table, ids[0]));
  }

  /** The first key that has a holder has one holder. */
  lemma OneHolder(s: Schema, table: seq<Record>, supplied: Row, k: nat, x: Record, k2: nat, y: Record)
    requires TableInv(s, table) && FirstHolder(s.keys, table, supplied, k, x) && FirstHolder(s.keys, table, supplied, k2, y)
    ensures x == y
  {
    assert k == k2;
    if x != y {
      assert Agree(x.row, y.row, s.keys[k]);
      assert Agree(y.row, x.row, s.keys[k]);
      assert Clashes(s, x.row, y.row) && Clashes(s, y.row, x.row);
    }
  }

  /** A whole upsert reports the id of its first row that reports one. */
  lemma {:induction false} UpsertLastId(s: Schema, table: seq<Record>, rows: seq<InputRow>, changes: seq<Row -> Row>,
                                        column: Option<string>, pick: seq<Record> -> int) returns (reports: seq<nat>)
    requires WellFormed(s) && TableInv(s, table) && Picks(pick) && |changes| == |rows|
    ensures |reports| == |rows|
    ensures forall i :: 0 <= i < |rows| ==>
              RowReports(s, table, rows, changes, column, pick, i, reports[i])
    ensures IsFirst(reports, Upsert(s, table, rows, changes, column, pick).lastInsertID)
  {
    hide UpsertRow, IsFirst, UpsertReports, TableInv;
    if rows == [] {
      NoneReports();
      reports := [];
    } else {
      var n := |rows| - 1;
      var earlier := UpsertLastId(s, table, rows[..n], changes[..n], column, pick);
      UpsertKeeps(s, table, rows[..n], changes[..n], column, pick);
      var before := Upsert(s, table, rows[..n], changes[..n], column, pick);
      var r := 0;
      if !before.failed {
        r := UpsertRowReports(s, before, rows[n], changes[n], column, pick);
      }
      reports := earlier + [r];
      FirstOfMore(earlier, before.lastInsertID, r);
      assert rows[..n + 1] == rows && changes[..n + 1] == changes;
      forall i | 0 <= i < |rows|
        ensures RowReports(s, table, rows, changes, column, pick, i, reports[i])
      {
        if i < n {
          Prefix(rows, n, i);
          Prefix(rows, n, i + 1);
          Prefix(changes, n, i);
          Prefix(changes, n, i + 1);
        }
      }
    }
  }

  /** The i-th row, if it is reached, reports `r`; otherwise nothing is reported. */
  ghost predicate RowReports(s: Schema, table: seq<Record>, rows: seq<InputRow>, changes: seq<Row -> Row>, column: Option<string>,
                             pick: seq<Record> -> int, i: nat, r: nat)
    requires i < |rows| == |changes|
  {
    var before := Upsert(s, table, rows[..i], changes[..i], column, pick);
    var after := Upsert(s, table, rows[..i + 1], changes[..i + 1], column, pick);
    if before.failed then r == 0 else UpsertReports(s, before, after, rows[i], changes[i], column, r)
  }
}
