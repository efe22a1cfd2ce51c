/**
 * The three row-by-row executors of pkg/mysqlmock/upsert.go: REPLACE, INSERT IGNORE and
 * INSERT ... ON DUPLICATE KEY UPDATE, over a table with unique keys.
 *
 * A statement row is what the source holds after evaluating its expressions: the values given, and
 * the composite-key value the server generated for it (0 for none).  `pick` is SQLite's choice of a
 * row id that is not in use.
 */
module RowExecutors {
  import opened Options
  import opened UniqueKeys

  datatype InputRow = InputRow(supplied: Row, generated: nat)
  datatype Insertion = Inserted(table: seq<Record>, id: int) | UniqueViolation | OtherError
  datatype Tally = Tally(table: seq<Record>, affected: nat, lastInsertID: nat, warnings: nat, failed: bool)

  ghost predicate Picks(pick: seq<Record> -> int) {
    forall t: seq<Record> :: !HasId(t, pick(t))
  }

  /** SQLite's INSERT: all or nothing, and never against a unique key. */
  function Insert(s: Schema, table: seq<Record>, supplied: Row, pick: seq<Record> -> int): Insertion {
    if Mismatch(s, supplied) then OtherError
    else
      var row := Stored(s, supplied, pick(table));
      if Violates(s, table, row) then UniqueViolation
      else Inserted(table + [Record(NewId(s, supplied, pick(table)), row)], NewId(s, supplied, pick(table)))
  }

  /** DELETE FROM table WHERE rowid = ?, for each of the ids. */
  function Without(table: seq<Record>, ids: seq<int>): (r: seq<Record>)
    ensures forall x :: x in r <==> x in table && x.id !in ids
  {
    if table == [] then []
    else (if table[0].id in ids then [] else [table[0]]) + Without(table[1..], ids)
  }

  /** The first id that is not zero wins. */
  function FirstId(last: nat, generated: nat, id: int): nat {
    if last != 0 then last else if generated != 0 then generated else if id > 0 then id else 0
  }

  function Start(table: seq<Record>): Tally {
    Tally(table, 0, 0, 0, false)
  }

  function Took(t: Tally, inserted: Insertion, generated: nat): Tally
    requires inserted.Inserted?
  {
    t.(table := inserted.table, affected := t.affected + 1, lastInsertID := FirstId(t.lastInsertID, generated, inserted.id))
  }

  // ---------------------------------------------------------------------------------------------
  // One row of each statement
  // ---------------------------------------------------------------------------------------------

  /** The conflicting rows are deleted and counted one by one, then the new row is inserted. */
  function ReplaceRow(s: Schema, t: Tally, row: InputRow, pick: seq<Record> -> int): Tally {
    var ids := Find(s.keys, t.table, row.supplied);
    var cleared := t.(table := Without(t.table, ids), affected := t.affected + |ids|);
    var inserted := Insert(s, cleared.table, row.supplied, pick);
    if inserted.Inserted? then Took(cleared, inserted, row.generated) else cleared.(failed := true)
  }

  /** A row that violates a unique key becomes a warning; the warning count is a 16-bit integer. */
  function IgnoreRow(s: Schema, t: Tally, row: InputRow, pick: seq<Record> -> int): Tally {
    match Insert(s, t.table, row.supplied, pick)
    case Inserted(table, id) => Took(t, Inserted(table, id), row.generated)
    case UniqueViolation => t.(warnings := (t.warnings + 1) % 0x10000)
    case OtherError => t.(failed := true)
  }

  function Position(table: seq<Record>, id: int): (i: nat)
    requires HasId(table, id)
    ensures i < |table| && table[i].id == id
  {
    if table[0].id == id then 0
    else
      assert HasId(table[1..], id);
      1 + Position(table[1..], id)
  }

  /** SQLite's UPDATE of one record: refused if it clashes with another one. */
  function Update(s: Schema, table: seq<Record>, i: nat, row: Row): Option<Record>
    requires i < |table|
  {
    var others := table[..i] + table[i + 1..];
    if s.alias.Some? && !Cell(row, s.alias.value).Int? then None
    else if Violates(s, others, row) then None
    else Some(Record(if s.alias.Some? then Cell(row, s.alias.value).n else table[i].id, row))
  }

  /** What the statement reports for an updated row: its auto-increment column, if that is a number. */
  function ReportedId(row: Row, column: Option<string>): nat {
    if column.Some? && Cell(row, column.value).Int? && Cell(row, column.value).n > 0 then Cell(row, column.value).n else 0
  }

  /** The first conflicting row is updated: it counts twice if that changed it and not at all if not. */
  function UpsertRow(s: Schema, t: Tally, row: InputRow, change: Row -> Row, column: Option<string>,
                     pick: seq<Record> -> int): Tally {
    match Insert(s, t.table, row.supplied, pick)
    case Inserted(table, id) => Took(t, Inserted(table, id), row.generated)
    case OtherError => t.(failed := true)
    case UniqueViolation =>
      var ids := Find(s.keys, t.table, row.supplied);
      if ids == [] then t.(failed := true)
      else
        FirstFound(s, t.table, row.supplied);
        var i := Position(t.table, ids[0]);
        var updated := Update(s, t.table, i, change(t.table[i].row));
        if updated.None? then t.(failed := true)
        else
          var table := t.table[i := updated.value];
          if updated.value.id != ids[0] then t.(table := table, failed := true)
          else
            t.(table := table,
               affected := t.affected + if updated.value.row != t.table[i].row then 2 else 0,
               lastInsertID := FirstId(t.lastInsertID, ReportedId(updated.value.row, column), 0))
  }

  lemma FirstFound(s: Schema, table: seq<Record>, supplied: Row)
    requires Find(s.keys, table, supplied) != []
    ensures HasId(table, Find(s.keys, table, supplied)[0])
  {
    var id := Find(s.keys, table, supplied)[0];
    assert id in Find(s.keys, table, supplied);
  }

  // ---------------------------------------------------------------------------------------------
  // Whole statements: every row in turn, up to the first error
  // ---------------------------------------------------------------------------------------------

  function Replace(s: Schema, table: seq<Record>, rows: seq<InputRow>, pick: seq<Record> -> int): Tally {
    if rows == [] then Start(table)
    else
      var t := Replace(s, table, rows[..|rows| - 1], pick);
      if t.failed then t else ReplaceRow(s, t, rows[|rows| - 1], pick)
  }

  function Ignore(s: Schema, table: seq<Record>, rows: seq<InputRow>, pick: seq<Record> -> int): Tally {
    if rows == [] then Start(table)
    else
      var t := Ignore(s, table, rows[..|rows| - 1], pick);
      if t.failed then t else IgnoreRow(s, t, rows[|rows| - 1], pick)
  }

  function Upsert(s: Schema, table: seq<Record>, rows: seq<InputRow>, changes: seq<Row -> Row>, column: Option<string>,
                  pick: seq<Record> -> int): Tally
    requires |changes| == |rows|
  {
    if rows == [] then Start(table)
    else
      var n := |rows| - 1;
      var t := Upsert(s, table, rows[..n], changes[..n], column, pick);
      if t.failed then t else UpsertRow(s, t, rows[n], changes[n], column, pick)
  }

  // ---------------------------------------------------------------------------------------------
  // Uniqueness is kept, whatever happens
  // ---------------------------------------------------------------------------------------------

  lemma InsertKeeps(s: Schema, table: seq<Record>, supplied: Row, pick: seq<Record> -> int)
    requires WellFormed(s) && TableInv(s, table) && Picks(pick)
    ensures var inserted := Insert(s, table, supplied, pick);
            inserted.Inserted? ==> TableInv(s, inserted.table)
  {
    if Insert(s, table, supplied, pick).Inserted? {
      var row, id := Stored(s, supplied, pick(table)), NewId(s, supplied, pick(table));
      forall x | x in table
        ensures x.id != id && !Clashes(s, x.row, row)
      {
        if x.id == id {
          assert s.alias.Some? && Agree(x.row, row, [s.alias.value]);
        }
      }
    }
  }

  lemma {:induction false} WithoutKeeps(s: Schema, table: seq<Record>, ids: seq<int>)
    requires TableInv(s, table)
    ensures TableInv(s, Without(table, ids))
  {
    hide Clashes, TableInv;
    if table != [] {
      TableTail(s, table);
      WithoutKeeps(s, table[1..], ids);
      TableCons(s, table[0], Without(table[1..], ids));
      assert [] + Without(table[1..], ids) == Without(table[1..], ids);
    }
  }

  lemma TableTail(s: Schema, table: seq<Record>)
    requires TableInv(s, table) && table != []
    ensures TableInv(s, table[1..]) && AliasHolds(s, table[0])
    ensures forall x :: x in table[1..] ==> x.id != table[0].id && !Clashes(s, table[0].row, x.row)
  {
    hide Clashes, AliasHolds;
    assert forall x :: x in table[1..] ==> x in table;
  }

  lemma TableCons(s: Schema, x: Record, table: seq<Record>)
    requires TableInv(s, table) && AliasHolds(s, x)
    requires forall y :: y in table ==> y.id != x.id && !Clashes(s, x.row, y.row)
    ensures TableInv(s, [x] + table)
  {
    hide Clashes, AliasHolds;
  }

  lemma UpdateKeeps(s: Schema, table: seq<Record>, i: nat, row: Row)
    requires WellFormed(s) && TableInv(s, table) && i < |table|
    ensures var updated := Update(s, table, i, row);
            updated.Some? ==> TableInv(s, table[i := updated.value])
  {
    var updated := Update(s, table, i, row);
    if updated.Some? {
      var others := table[..i] + table[i + 1..];
      var x := updated.value;
      forall j | 0 <= j < |table| && j != i
        ensures table[j].id != x.id && !Clashes(s, table[j].row, x.row) && !Clashes(s, x.row, table[j].row)
      {
        assert table[j] == others[if j < i then j else j - 1];
        ClashBothWays(s, table[j].row, row);
        assert AliasHolds(s, table[j]);
        if table[j].id == x.id && s.alias.Some? {
          assert Agree(table[j].row, row, [s.alias.value]);
        }
      }
    }
  }

  lemma ClashBothWays(s: Schema, x: Row, y: Row)
    ensures Clashes(s, x, y) == Clashes(s, y, x)
  {
    if Clashes(s, x, y) {
      var k :| k in s.keys && Agree(x, y, k);
      assert Agree(y, x, k);
    }
    if Clashes(s, y, x) {
      var k :| k in s.keys && Agree(y, x, k);
      assert Agree(x, y, k);
    }
  }

  /** REPLACE keeps row ids and unique keys unique over all rows, failed or not. */
  lemma {:induction false} ReplaceKeeps(s: Schema, table: seq<Record>, rows: seq<InputRow>, pick: seq<Record> -> int)
    requires WellFormed(s) && TableInv(s, table) && Picks(pick)
    ensures TableInv(s, Replace(s, table, rows, pick).table)
  {
    hide TableInv, Insert, Find, Without;
    if rows != [] {
      ReplaceKeeps(s, table, rows[..|rows| - 1], pick);
      var t := Replace(s, table, rows[..|rows| - 1], pick);
      var supplied := rows[|rows| - 1].supplied;
      WithoutKeeps(s, t.table, Find(s.keys, t.table, supplied));
      InsertKeeps(s, Without(t.table, Find(s.keys, t.table, supplied)), supplied, pick);
    }
  }

  // ---------------------------------------------------------------------------------------------
  // REPLACE
  // ---------------------------------------------------------------------------------------------

  /** The records that do not stand in the way of a statement's row. */
  function NotConflicting(s: Schema, table: seq<Record>, supplied: Row): (r: seq<Record>)
    ensures forall x :: x in r ==> x in table
  {
    if table == [] then []
    else (if Conflicts(s, table[0].row, supplied) then [] else [table[0]]) + NotConflicting(s, table[1..], supplied)
  }

  lemma {:induction false} WithoutIsNotConflicting(s: Schema, table: seq<Record>, ids: seq<int>, supplied: Row)
    requires forall x :: x in table ==> (x.id in ids <==> Conflicts(s, x.row, supplied))
    ensures Without(table, ids) == NotConflicting(s, table, supplied)
  {
    if table != [] {
      WithoutIsNotConflicting(s, table[1..], ids, supplied);
    }
  }

  /**
   * The record is what an INSERT of the row adds to the table: all columns of the row and an id not
   * in use, which is the value given for it if one is, and stands in its column.
   */
  predicate Adds(s: Schema, table: seq<Record>, supplied: Row, x: Record) {
    x.row == Stored(s, supplied, x.id) && AliasHolds(s, x) && !HasId(table, x.id)
  }

  /** Records with distinct ids leave one by one: as many as there are ids. */
  lemma {:induction false} WithoutCount(table: seq<Record>, ids: seq<int>)
    requires Distinct(ids) && forall id :: id in ids ==> HasId(table, id)
    requires forall i, j :: 0 <= i < j < |table| ==> table[i].id != table[j].id
    ensures |Without(table, ids)| + |ids| == |table|
    decreases |ids|
  {
    hide HasId, Without;
    if ids == [] {
      WithoutNone(table);
    } else {
      var last := ids[|ids| - 1];
      var rest := ids[..|ids| - 1];
      assert last in ids && last !in rest;
      assert forall id :: id in rest ==> id in ids;
      WithoutCount(table, rest);
      WithoutOne(table, rest, last);
      assert rest + [last] == ids;
    }
  }

  lemma {:induction false} WithoutNone(table: seq<Record>)
    ensures Without(table, []) == table
  {
    if table != [] {
      WithoutNone(table[1..]);
    }
  }

  lemma {:induction false} WithoutOne(table: seq<Record>, ids: seq<int>, id: int)
    requires forall i, j :: 0 <= i < j < |table| ==> table[i].id != table[j].id
    requires id !in ids && HasId(table, id)
    ensures |Without(table, ids + [id])| == |Without(table, ids)| - 1
  {
    if table[0].id == id {
      WithoutAbsent(table[1..], ids, id);
    } else {
      assert HasId(table[1..], id);
      WithoutOne(table[1..], ids, id);
    }
  }

  lemma {:induction false} WithoutAbsent(table: seq<Record>, ids: seq<int>, id: int)
    requires forall i :: 0 <= i < |table| ==> table[i].id != id
    ensures Without(table, ids + [id]) == Without(table, ids)
  {
    if table != [] {
      WithoutAbsent(table[1..], ids, id);
    }
  }

  /** SQLite takes the row exactly when no record stands in its way, and then adds just that row. */
  lemma InsertExact(s: Schema, table: seq<Record>, supplied: Row, pick: seq<Record> -> int)
    requires WellFormed(s) && TableInv(s, table) && Picks(pick)
    ensures var inserted := Insert(s, table, supplied, pick);
            && (inserted.OtherError? <==> Mismatch(s, supplied))
            && (inserted.UniqueViolation? <==> !Mismatch(s, supplied) && exists x :: x in table && Conflicts(s, x.row, supplied))
            && (inserted.Inserted? ==>
                  && |inserted.table| == |table| + 1 && inserted.table[..|table|] == table
                  && inserted.id == inserted.table[|table|].id && Adds(s, table, supplied, inserted.table[|table|]))
  {
    hide Clashes, Conflicts;
    if !Mismatch(s, supplied) {
      var row, id := Stored(s, supplied, pick(table)), NewId(s, supplied, pick(table));
      forall x | x in table
        ensures Clashes(s, x.row, row) <==> Conflicts(s, x.row, supplied)
      {
        ClashIsConflict(s, x, supplied, pick(table));
      }
      if !Violates(s, table, row) {
        StoredById(s, supplied, pick(table));
        NewIdUnused(s, table, supplied, pick(table));
      }
    }
  }

  /** Only the generated column depends on the generated id, and then the record has that id. */
  lemma StoredById(s: Schema, supplied: Row, gen: int)
    requires WellFormed(s) && !Mismatch(s, supplied)
    ensures var id := NewId(s, supplied, gen);
            Stored(s, supplied, gen) == Stored(s, supplied, id) && AliasHolds(s, Record(id, Stored(s, supplied, gen)))
  {
  }

  lemma NewIdUnused(s: Schema, table: seq<Record>, supplied: Row, gen: int)
    requires WellFormed(s) && TableInv(s, table) && !Mismatch(s, supplied) && !HasId(table, gen)
    requires !Violates(s, table, Stored(s, supplied, gen))
    ensures !HasId(table, NewId(s, supplied, gen))
  {
    var id := NewId(s, supplied, gen);
    forall x | x in table
      ensures x.id != id
    {
      assert !Clashes(s, x.row, Stored(s, supplied, gen));
      assert s.alias.Some? ==> !Agree(x.row, Stored(s, supplied, gen), [s.alias.value]);
    }
  }

  /**
   * REPLACE of one covered row never violates a key after its deletes: exactly the records that stand
   * in its way leave, the row is added to the others, and every record that left counts once.
   */
  lemma ReplaceRowExact(s: Schema, t: Tally, row: InputRow, pick: seq<Record> -> int)
    requires WellFormed(s) && TableInv(s, t.table) && Picks(pick)
    requires Covered(s, row.supplied) && !Mismatch(s, row.supplied) && !t.failed
    ensures var t', kept := ReplaceRow(s, t, row, pick), NotConflicting(s, t.table, row.supplied);
            && !t'.failed
            && |t'.table| == |kept| + 1 && t'.table[..|kept|] == kept
            && Adds(s, kept, row.supplied, t'.table[|kept|])
            && t'.affected == t.affected + (|t.table| - |kept|) + 1
  {
    hide Find, Conflicts, Clashes, Insert, TableInv, Adds, Covered;
    var ids := Find(s.keys, t.table, row.supplied);
    var cleared := Without(t.table, ids);
    forall x | x in t.table
      ensures x.id in ids <==> Conflicts(s, x.row, row.supplied)
    {
      FoundIffConflicts(s, t.table, row.supplied, x);
    }
    WithoutIsNotConflicting(s, t.table, ids, row.supplied);
    FoundCount(s, t.table, row.supplied);
    WithoutKeeps(s, t.table, ids);
    InsertExact(s, cleared, row.supplied, pick);
  }

  lemma FoundCount(s: Schema, table: seq<Record>, supplied: Row)
    requires WellFormed(s) && TableInv(s, table)
    ensures var ids := Find(s.keys, table, supplied);
            |Without(table, ids)| + |ids| == |table|
  {
    hide Find, Clashes;
    var ids := Find(s.keys, table, supplied);
    forall id | id in ids
      ensures HasId(table, id)
    {
      FoundClashes(s, table, supplied, 0, id);
    }
    WithoutCount(table, ids);
  }

  /**
   * A whole REPLACE whose rows cover their keys goes through, keeps the keys unique, ends with its
   * last row stored, and reports as affected the rows inserted plus the rows deleted.
   */
  lemma {:induction false} ReplaceGoesThrough(s: Schema, table: seq<Record>, rows: seq<InputRow>, pick: seq<Record> -> int)
    requires WellFormed(s) && TableInv(s, table) && Picks(pick)
    requires forall row :: row in rows ==> Covered(s, row.supplied) && !Mismatch(s, row.supplied)
    ensures var t := Replace(s, table, rows, pick);
            && !t.failed
            && TableInv(s, t.table)
            && t.affected == 2 * |rows| + |table| - |t.table|
            && (rows != [] ==> |t.table| > 0 && Adds(s, t.table[..|t.table| - 1], rows[|rows| - 1].supplied, t.table[|t.table| - 1]))
  {
    hide TableInv, Covered, ReplaceRow, Adds, NotConflicting;
    ReplaceKeeps(s, table, rows, pick);
    if rows != [] {
      ReplaceGoesThrough(s, table, rows[..|rows| - 1], pick);
      ReplaceRowExact(s, Replace(s, table, rows[..|rows| - 1], pick), rows[|rows| - 1], pick);
    }
  }

  // ---------------------------------------------------------------------------------------------
  // INSERT IGNORE
  // ---------------------------------------------------------------------------------------------

  predicate KeptOut(s: Schema, table: seq<Record>, supplied: Row) {
    exists x :: x in table && Conflicts(s, x.row, supplied)
  }

  /**
   * What INSERT IGNORE should do, row by row: the row is added, exactly if no record stands in its way
   * at that point, and otherwise leaves the table as it is.
   */
  predicate Accounted(s: Schema, table: seq<Record>, rows: seq<InputRow>, after: seq<Record>) {
    if rows == [] then after == table
    else
      var earlier, supplied := rows[..|rows| - 1], rows[|rows| - 1].supplied;
      || (KeptOut(s, after, supplied) && Accounted(s, table, earlier, after))
      || (after != [] &&
          var before := after[..|after| - 1];
          !KeptOut(s, before, supplied) && Adds(s, before, supplied, after[|after| - 1]) && Accounted(s, table, earlier, before))
  }

  /** One row is stored exactly when nothing stands in its way, and is counted or becomes a warning. */
  lemma IgnoreRowExact(s: Schema, t: Tally, row: InputRow, pick: seq<Record> -> int)
    requires WellFormed(s) && TableInv(s, t.table) && Picks(pick) && !t.failed
    ensures var t' := IgnoreRow(s, t, row, pick);
            && TableInv(s, t'.table)
            && (t'.failed <==> Mismatch(s, row.supplied))
            && (t'.failed || KeptOut(s, t.table, row.supplied) ==> t'.table == t.table && t'.affected == t.affected)
            && (!t'.failed && KeptOut(s, t.table, row.supplied) ==> t'.warnings == (t.warnings + 1) % 0x10000)
            && (!t'.failed && !KeptOut(s, t.table, row.supplied) ==>
                  && |t'.table| == |t.table| + 1 && t'.table[..|t.table|] == t.table
                  && Adds(s, t.table, row.supplied, t'.table[|t.table|])
                  && t'.affected == t.affected + 1 && t'.warnings == t.warnings)
  {
    hide TableInv, Insert, Conflicts, Adds;
    InsertKeeps(s, t.table, row.supplied, pick);
    InsertExact(s, t.table, row.supplied, pick);
  }

  /**
   * INSERT IGNORE only adds: every record stays where it was, each row of the statement is added or
   * kept out by a record that stands in its way, and added and warned rows add up to all rows, the
   * warnings modulo 2^16.
   */
  lemma {:induction false} IgnoreOnlyAdds(s: Schema, table: seq<Record>, rows: seq<InputRow>, pick: seq<Record> -> int)
    requires WellFormed(s) && TableInv(s, table) && Picks(pick)
    ensures var t := Ignore(s, table, rows, pick);
            && TableInv(s, t.table)
            && table <= t.table
            && |t.table| == |table| + t.affected
            && (t.failed <==> exists row :: row in rows && Mismatch(s, row.supplied))
            && (!t.failed ==> t.affected <= |rows| && t.warnings == (|rows| - t.affected) % 0x10000)
            && (!t.failed ==> Accounted(s, table, rows, t.table))
  {
    hide TableInv, IgnoreRow, KeptOut, Adds, Mismatch;
    if rows != [] {
      var n := |rows| - 1;
      IgnoreOnlyAdds(s, table, rows[..n], pick);
      var t := Ignore(s, table, rows[..n], pick);
      assert rows[n] in rows && forall row :: row in rows ==> row in rows[..n] || row == rows[n];
      if !t.failed {
        IgnoreRowExact(s, t, rows[n], pick);
      } else {
        assert forall row :: row in rows[..n] ==> row in rows;
      }
    }
  }

  // ---------------------------------------------------------------------------------------------
  // INSERT ... ON DUPLICATE KEY UPDATE
  // ---------------------------------------------------------------------------------------------

  /**
   * The record to update is the holder of the first key that has one.  It becomes what the clause
   * makes of it and no other record changes, unless the update is refused or moves the row id; a
   * change counts twice and no change not at all.
   */
  ghost predicate Updates(s: Schema, t: Tally, t': Tally, supplied: Row, change: Row -> Row, k: nat, i: nat) {
    && i < |t.table| && FirstHolder(s.keys, t.table, supplied, k, t.table[i])
    && (t'.failed <==> Refused(s, t.table, i, change))
    && var before, after := t.table[i].row, change(t.table[i].row);
       !t'.failed ==>
         && t'.table == t.table[i := Record(t.table[i].id, after)]
         && t'.affected == t.affected + if after == before then 0 else 2
  }

  /**
   * An upsert row is added, and counts once, exactly when nothing stands in its way.  Otherwise the
   * record found is updated; a row that covers its keys always finds one.  Keys stay unique.
   */
  lemma UpsertRowExact(s: Schema, t: Tally, row: InputRow, change: Row -> Row, column: Option<string>,
                       pick: seq<Record> -> int)
    requires WellFormed(s) && TableInv(s, t.table) && Picks(pick) && !t.failed
    ensures var t' := UpsertRow(s, t, row, change, column, pick);
            && TableInv(s, t'.table)
            && (Mismatch(s, row.supplied) ==> t'.failed && t'.table == t.table)
            && (!Mismatch(s, row.supplied) && !KeptOut(s, t.table, row.supplied) ==>
                  && !t'.failed && |t'.table| == |t.table| + 1 && t'.table[..|t.table|] == t.table
                  && Adds(s, t.table, row.supplied, t'.table[|t.table|]) && t'.affected == t.affected + 1)
            && (!Mismatch(s, row.supplied) && KeptOut(s, t.table, row.supplied) ==>
                  || (!Covered(s, row.supplied) && t'.failed && t'.table == t.table)
                  || exists k: nat, i: nat :: Updates(s, t, t', row.supplied, change, k, i))
  {
    hide TableInv, Find, Covered, Insert, Conflicts, Adds, FirstHolder;
    InsertKeeps(s, t.table, row.supplied, pick);
    InsertExact(s, t.table, row.supplied, pick);
    if Insert(s, t.table, row.supplied, pick).UniqueViolation? {
      var ids := Find(s.keys, t.table, row.supplied);
      if ids == [] {
        NothingFoundKept(s, t.table, row.supplied);
      } else {
        UpsertFound(s, t, row, change, column, pick);
      }
    }
  }

  /** With covered keys, whatever stands in the way is found. */
  lemma NothingFoundKept(s: Schema, table: seq<Record>, supplied: Row)
    requires WellFormed(s) && TableInv(s, table) && KeptOut(s, table, supplied) && Find(s.keys, table, supplied) == []
    ensures !Covered(s, supplied)
  {
    hide Find, Conflicts, Covered, TableInv;
    if Covered(s, supplied) {
      var x :| x in table && Conflicts(s, x.row, supplied);
      FoundIffConflicts(s, table, supplied, x);
      assert false;
    }
  }

  lemma UpsertFound(s: Schema, t: Tally, row: InputRow, change: Row -> Row, column: Option<string>, pick: seq<Record> -> int)
    requires WellFormed(s) && TableInv(s, t.table) && !t.failed
    requires Insert(s, t.table, row.supplied, pick).UniqueViolation? && Find(s.keys, t.table, row.supplied) != []
    ensures var t' := UpsertRow(s, t, row, change, column, pick);
            TableInv(s, t'.table) && exists k: nat, i: nat :: Updates(s, t, t', row.supplied, change, k, i)
  {
    hide TableInv, Find, Insert, FirstHolder;
    var ids := Find(s.keys, t.table, row.supplied);
    FirstFound(s, t.table, row.supplied);
    var i := Position(t.table, ids[0]);
    UpdateKeeps(s, t.table, i, change(t.table[i].row));
    FirstFoundKey(s.keys, t.table, row.supplied);
    var k: nat, x :| FirstHolder(s.keys, t.table, row.supplied, k, x) && x.id == ids[0];
    SameId(s, t.table, k, row.supplied, x, i);
    assert Updates(s, t, UpsertRow(s, t, row, change, column, pick), row.supplied, change, k, i);
  }

  lemma SameId(s: Schema, table: seq<Record>, k: nat, supplied: Row, x: Record, i: nat)
    requires TableInv(s, table) && FirstHolder(s.keys, table, supplied, k, x) && i < |table| && table[i].id == x.id
    ensures x == table[i]
  {
  }

  /** The update of a record is refused, or would change its row id. */
  predicate Refused(s: Schema, table: seq<Record>, i: nat, change: Row -> Row)
    requires i < |table|
  {
    var updated := Update(s, table, i, change(table[i].row));
    updated.None? || updated.value.id != table[i].id
  }

  lemma {:induction false} UpsertKeeps(s: Schema, table: seq<Record>, rows: seq<InputRow>, changes: seq<Row -> Row>,
                                       column: Option<string>, pick: seq<Record> -> int)
    requires WellFormed(s) && TableInv(s, table) && Picks(pick) && |changes| == |rows|
    ensures TableInv(s, Upsert(s, table, rows, changes, column, pick).table)
  {
    hide TableInv, UpsertRow;
    if rows != [] {
      var n := |rows| - 1;
      UpsertKeeps(s, table, rows[..n], changes[..n], column, pick);
      var t := Upsert(s, table, rows[..n], changes[..n], column, pick);
      if !t.failed {
        UpsertRowExact(s, t, rows[n], changes[n], column, pick);
      }
    }
  }
}
