/**
 * Unique keys and the hand-written conflict finder (findConflictRowIDs in pkg/mysqlmock/upsert.go).
 *
 * A table is a list of records with row ids.  Column names are taken in lower case and without
 * quotes, and two values are equal when SQLite stores the same value for both.
 */
module UniqueKeys {
  import opened Options

  datatype Value = Null | Int(n: int) | Text(s: string)
  type Row = map<string, Value>
  datatype Record = Record(id: int, row: Row)

  /** `alias` is an INTEGER PRIMARY KEY column: SQLite keeps it equal to the row id. */
  datatype Schema = Schema(columns: set<string>, keys: seq<seq<string>>, defaults: Row, alias: Option<string>)

  predicate WellFormed(s: Schema) {
    && (forall k :: k in s.keys ==> k != [] && forall c :: c in k ==> c in s.columns)
    && (s.alias.Some? ==> s.alias.value in s.columns && [s.alias.value] in s.keys)
  }

  function Cell(row: Row, column: string): Value {
    if column in row then row[column] else Null
  }

  // ---------------------------------------------------------------------------------------------
  // What the unique keys demand
  // ---------------------------------------------------------------------------------------------

  /** Two rows hold the same values, none of them NULL, in all columns of the key. */
  predicate Agree(x: Row, y: Row, key: seq<string>) {
    forall c :: c in key ==> Cell(x, c) != Null && Cell(x, c) == Cell(y, c)
  }

  predicate Clashes(s: Schema, x: Row, y: Row) {
    exists k :: k in s.keys && Agree(x, y, k)
  }

  predicate Violates(s: Schema, table: seq<Record>, row: Row) {
    exists x :: x in table && Clashes(s, x.row, row)
  }

  predicate HasId(table: seq<Record>, id: int) {
    exists x :: x in table && x.id == id
  }

  predicate AliasHolds(s: Schema, x: Record) {
    s.alias.Some? ==> Cell(x.row, s.alias.value) == Int(x.id)
  }

  /** Row ids are distinct, the alias column repeats them, and no two rows clash. */
  predicate TableInv(s: Schema, table: seq<Record>) {
    && (forall i, j :: 0 <= i < j < |table| ==> table[i].id != table[j].id)
    && (forall i, j :: 0 <= i < j < |table| ==> !Clashes(s, table[i].row, table[j].row))
    && (forall x :: x in table ==> AliasHolds(s, x))
  }

  // ---------------------------------------------------------------------------------------------
  // The row an INSERT stores
  // ---------------------------------------------------------------------------------------------

  predicate Given(supplied: Row, column: string) {
    column in supplied && supplied[column] != Null
  }

  predicate Generates(s: Schema, supplied: Row, column: string) {
    s.alias == Some(column) && !Given(supplied, column)
  }

  /** The value of a column that is not generated: the statement's, or else the default. */
  function GivenCell(s: Schema, supplied: Row, column: string): Value {
    if column in supplied then supplied[column] else Cell(s.defaults, column)
  }

  function StoredCell(s: Schema, supplied: Row, gen: int, column: string): Value {
    if Generates(s, supplied, column) then Int(gen) else GivenCell(s, supplied, column)
  }

  /** `gen` is the row id SQLite generates when the alias column is not given. */
  function Stored(s: Schema, supplied: Row, gen: int): Row {
    map c | c in s.columns :: StoredCell(s, supplied, gen, c)
  }

  predicate Mismatch(s: Schema, supplied: Row) {
    s.alias.Some? && Given(supplied, s.alias.value) && !supplied[s.alias.value].Int?
  }

  function NewId(s: Schema, supplied: Row, gen: int): int
    requires !Mismatch(s, supplied)
  {
    if s.alias.Some? && Given(supplied, s.alias.value) then supplied[s.alias.value].n else gen
  }

  // ---------------------------------------------------------------------------------------------
  // The conflict finder
  // ---------------------------------------------------------------------------------------------

  /** Every column of the key has a value that is not NULL in the statement. */
  predicate Seen(supplied: Row, key: seq<string>) {
    key != [] && forall c :: c in key ==> Given(supplied, c)
  }

  predicate Matches(x: Row, key: seq<string>, supplied: Row) {
    forall c :: c in key ==> Given(supplied, c) && Cell(x, c) == supplied[c]
  }

  /** `SELECT rowid FROM table WHERE c1 = ? AND ...` */
  function Query(table: seq<Record>, key: seq<string>, supplied: Row): (r: seq<int>)
    ensures forall x :: x in table && Matches(x.row, key, supplied) ==> x.id in r
    ensures forall id :: id in r ==> exists x :: x in table && x.id == id && Matches(x.row, key, supplied)
  {
    if table == [] then []
    else (if Matches(table[0].row, key, supplied) then [table[0].id] else []) + Query(table[1..], key, supplied)
  }

  /** The ids not yet seen are appended in the order they come. */
  function AddNew(ids: seq<int>, more: seq<int>): (r: seq<int>)
    ensures forall id :: id in r <==> id in ids || id in more
    ensures Distinct(ids) ==> Distinct(r)
    ensures ids <= r
    decreases |more|
  {
    if more == [] then ids
    else AddNew(if more[0] in ids then ids else ids + [more[0]], more[1..])
  }

  predicate Distinct(ids: seq<int>) {
    forall i, j :: 0 <= i < j < |ids| ==> ids[i] != ids[j]
  }

  function Find(keys: seq<seq<string>>, table: seq<Record>, supplied: Row): (r: seq<int>)
    ensures Distinct(r)
    ensures forall id :: id in r <==> exists k :: k in keys && Seen(supplied, k) && id in Query(table, k, supplied)
  {
    if keys == [] then []
    else
      var last := keys[|keys| - 1];
      var found := Find(keys[..|keys| - 1], table, supplied);
      assert keys == keys[..|keys| - 1] + [last];
      if Seen(supplied, last) then AddNew(found, Query(table, last, supplied)) else found
  }

  lemma FindNext(keys: seq<seq<string>>, table: seq<Record>, supplied: Row, k: nat)
    requires k < |keys|
    ensures Find(keys[..k + 1], table, supplied) ==
              if Seen(supplied, keys[k]) then AddNew(Find(keys[..k], table, supplied), Query(table, keys[k], supplied))
              else Find(keys[..k], table, supplied)
  {
    assert keys[..k + 1][..k] == keys[..k];
  }

  /** The rows one query returns join the ids found so far, each id once. */
  method AppendUnseen(ids: seq<int>, rows: seq<int>) returns (rowIDs: seq<int>)
    ensures rowIDs == AddNew(ids, rows)
  {
    hide AddNew;
    rowIDs := ids;
    var seen := set id | id in ids;
    assert rows[..0] == [];
    AddNewNone(ids);
    for i := 0 to |rows|
      invariant rowIDs == AddNew(ids, rows[..i])
      invariant forall id :: id in seen <==> id in rowIDs
    {
      AddNewLast(ids, rows[..i], rows[i]);
      assert rows[..i + 1] == rows[..i] + [rows[i]];
      if rows[i] !in seen {
        seen := seen + {rows[i]};
        rowIDs := rowIDs + [rows[i]];
      }
    }
    assert rows[..|rows|] == rows;
  }

  /** The finder as it loops: over the keys, their columns, and the rows each query returns. */
  method FindConflictRowIDs(keys: seq<seq<string>>, table: seq<Record>, supplied: Row) returns (rowIDs: seq<int>)
    ensures rowIDs == Find(keys, table, supplied)
  {
    hide Find, AddNew, Query;
    rowIDs := [];
    FindNone(table, supplied);
    assert keys[..0] == [];
    for k := 0 to |keys|
      invariant rowIDs == Find(keys[..k], table, supplied)
    {
      var key := keys[k];
      FindNext(keys, table, supplied, k);
      var skip := false;
      var c := 0;
      while c < |key| && !skip
        invariant 0 <= c <= |key|
        invariant skip <==> !(forall i :: 0 <= i < c ==> Given(supplied, key[i]))
      {
        skip := key[c] !in supplied || supplied[key[c]] == Null;
        c := c + 1;
      }
      if !skip && |key| != 0 {
        rowIDs := AppendUnseen(rowIDs, Query(table, key, supplied));
      }
    }
    assert keys[..|keys|] == keys;
  }

  /**
   * The first id found belongs to the first key, in the order of the keys, whose columns are all
   * given and that some record holds.
   */
  lemma {:induction false} FirstFoundKey(keys: seq<seq<string>>, table: seq<Record>, supplied: Row)
    requires Find(keys, table, supplied) != []
    ensures exists k: nat, x :: FirstHolder(keys, table, supplied, k, x) && x.id == Find(keys, table, supplied)[0]
  {
    hide Find, AddNew, Query;
    if keys == [] {
      FindNone(table, supplied);
    } else {
      var n := |keys| - 1;
      assert keys[..n + 1] == keys;
      FindNext(keys, table, supplied, n);
      var found := Find(keys[..n], table, supplied);
      if found != [] {
        FirstFoundKey(keys[..n], table, supplied);
        var k: nat, x :| FirstHolder(keys[..n], table, supplied, k, x) && x.id == found[0];
        FirstHolderLater(keys, table, supplied, n, k, x);
        assert Find(keys, table, supplied)[0] == found[0];
      } else {
        var ids := Query(table, keys[n], supplied);
        AddNewFirst(ids);
        assert ids[0] in ids;
        var x :| x in table && x.id == ids[0] && Matches(x.row, keys[n], supplied);
        NothingFound(keys[..n], table, supplied);
        assert FirstHolder(keys, table, supplied, n, x);
      }
    }
  }

  /** Record `x` holds the k-th key as given, and no earlier key has a holder. */
  predicate FirstHolder(keys: seq<seq<string>>, table: seq<Record>, supplied: Row, k: nat, x: Record) {
    && k < |keys| && x in table && Seen(supplied, keys[k]) && Matches(x.row, keys[k], supplied)
    && forall j, y :: 0 <= j < k && y in table && Seen(supplied, keys[j]) ==> !Matches(y.row, keys[j], supplied)
  }

  lemma FirstHolderLater(keys: seq<seq<string>>, table: seq<Record>, supplied: Row, n: nat, k: nat, x: Record)
    requires n <= |keys| && FirstHolder(keys[..n], table, supplied, k, x)
    ensures FirstHolder(keys, table, supplied, k, x)
  {
    hide Seen, Matches;
    assert forall j :: 0 <= j < n ==> keys[..n][j] == keys[j];
  }

  lemma AddNewFirst(ids: seq<int>)
    ensures AddNew([], ids) != [] ==> ids != [] && AddNew([], ids)[0] == ids[0]
  {
    if ids != [] {
      assert [] + [ids[0]] == [ids[0]];
      assert [ids[0]] <= AddNew([ids[0]], ids[1..]);
    }
  }

  lemma NothingFound(keys: seq<seq<string>>, table: seq<Record>, supplied: Row)
    requires Find(keys, table, supplied) == []
    ensures forall j, y :: 0 <= j < |keys| && y in table && Seen(supplied, keys[j]) ==> !Matches(y.row, keys[j], supplied)
  {
    forall j, y | 0 <= j < |keys| && y in table && Seen(supplied, keys[j])
      ensures !Matches(y.row, keys[j], supplied)
    {
      assert keys[j] in keys && y.id !in Find(keys, table, supplied);
    }
  }

  lemma FindNone(table: seq<Record>, supplied: Row)
    ensures Find([], table, supplied) == []
  {
  }

  lemma AddNewNone(ids: seq<int>)
    ensures AddNew(ids, []) == ids
  {
  }

  lemma {:induction false} AddNewLast(ids: seq<int>, more: seq<int>, id: int)
    ensures AddNew(ids, more + [id]) ==
              if id in AddNew(ids, more) then AddNew(ids, more) else AddNew(ids, more) + [id]
    decreases |more|
  {
    if more == [] {
      assert more + [id] == [id];
    } else {
      assert (more + [id])[1..] == more[1..] + [id];
      AddNewLast(if more[0] in ids then ids else ids + [more[0]], more[1..], id);
    }
  }

  // ---------------------------------------------------------------------------------------------
  // The finder against the constraint
  // ---------------------------------------------------------------------------------------------

  /** The stored row has a value that is not NULL and not freshly generated in every column of the key. */
  predicate CanClash(s: Schema, supplied: Row, key: seq<string>) {
    forall c :: c in key ==> !Generates(s, supplied, c) && GivenCell(s, supplied, c) != Null
  }

  /**
   * The record stands in the way of the statement: they hold the same values, none of them NULL, in
   * all columns of a key, and none of these is generated.
   */
  predicate Conflicts(s: Schema, x: Row, supplied: Row) {
    exists k :: k in s.keys && CanClash(s, supplied, k) && HoldsKey(s, x, supplied, k)
  }

  predicate HoldsKey(s: Schema, x: Row, supplied: Row, key: seq<string>) {
    forall c :: c in key ==> Cell(x, c) == GivenCell(s, supplied, c)
  }

  /** A generated row id that is not the record's makes no difference to whether the two clash. */
  lemma ClashIsConflict(s: Schema, x: Record, supplied: Row, gen: int)
    requires WellFormed(s) && AliasHolds(s, x) && x.id != gen
    ensures Clashes(s, x.row, Stored(s, supplied, gen)) <==> Conflicts(s, x.row, supplied)
  {
    var row := Stored(s, supplied, gen);
    if k :| k in s.keys && Agree(x.row, row, k) {
      forall c | c in k
        ensures !Generates(s, supplied, c) && GivenCell(s, supplied, c) == Cell(x.row, c) != Null
      {
        assert Cell(x.row, c) == Cell(row, c) == StoredCell(s, supplied, gen, c);
      }
      assert CanClash(s, supplied, k) && HoldsKey(s, x.row, supplied, k);
    }
    if k :| k in s.keys && CanClash(s, supplied, k) && HoldsKey(s, x.row, supplied, k) {
      forall c | c in k
        ensures Cell(x.row, c) != Null && Cell(x.row, c) == Cell(row, c)
      {
        assert c in s.columns;
      }
      assert Agree(x.row, row, k);
    }
  }

  /** If the statement covers its keys, the finder gives exactly the records that stand in its way. */
  lemma FoundIffConflicts(s: Schema, table: seq<Record>, supplied: Row, x: Record)
    requires WellFormed(s) && TableInv(s, table) && Covered(s, supplied) && x in table
    ensures x.id in Find(s.keys, table, supplied) <==> Conflicts(s, x.row, supplied)
  {
    hide Find, Clashes, Conflicts;
    ClashIsConflict(s, x, supplied, x.id + 1);
    if x.id in Find(s.keys, table, supplied) {
      FoundClashes(s, table, supplied, x.id + 1, x.id);
      var y :| y in table && y.id == x.id && Clashes(s, y.row, Stored(s, supplied, x.id + 1));
      assert y == x;
    } else if Conflicts(s, x.row, supplied) {
      ClashFound(s, table, supplied, x.id + 1, x);
    }
  }

  /** Every key the stored row could clash on contains a key whose columns are all given. */
  predicate Covered(s: Schema, supplied: Row) {
    forall k :: k in s.keys && CanClash(s, supplied, k) ==>
      exists k' :: k' in s.keys && Seen(supplied, k') && forall c :: c in k' ==> c in k
  }

  /** Whatever the finder returns does clash with the row the INSERT would store. */
  lemma FoundClashes(s: Schema, table: seq<Record>, supplied: Row, gen: int, id: int)
    requires WellFormed(s) && id in Find(s.keys, table, supplied)
    ensures exists x :: x in table && x.id == id && Clashes(s, x.row, Stored(s, supplied, gen))
  {
    var k :| k in s.keys && Seen(supplied, k) && id in Query(table, k, supplied);
    var x :| x in table && x.id == id && Matches(x.row, k, supplied);
    forall c | c in k
      ensures Cell(x.row, c) != Null && Cell(x.row, c) == Cell(Stored(s, supplied, gen), c)
    {
      assert c in s.columns && Given(supplied, c);
    }
    assert Agree(x.row, Stored(s, supplied, gen), k);
  }

  /** If the statement covers its keys, a record that clashes with the stored row is found. */
  lemma ClashFound(s: Schema, table: seq<Record>, supplied: Row, gen: int, x: Record)
    requires WellFormed(s) && Covered(s, supplied)
    requires x in table && AliasHolds(s, x) && x.id != gen
    requires Clashes(s, x.row, Stored(s, supplied, gen))
    ensures x.id in Find(s.keys, table, supplied)
  {
    var row := Stored(s, supplied, gen);
    var k :| k in s.keys && Agree(x.row, row, k);
    forall c | c in k
      ensures !Generates(s, supplied, c) && GivenCell(s, supplied, c) != Null
    {
      assert Cell(x.row, c) == Cell(row, c) == StoredCell(s, supplied, gen, c);
    }
    assert CanClash(s, supplied, k);
    var k' :| k' in s.keys && Seen(supplied, k') && forall c :: c in k' ==> c in k;
    forall c | c in k'
      ensures Given(supplied, c) && Cell(x.row, c) == supplied[c]
    {
      assert Cell(x.row, c) == Cell(row, c) == StoredCell(s, supplied, gen, c);
    }
    assert Matches(x.row, k', supplied);
  }

  /** The finder and the constraint agree on a table: it finds a row exactly when the INSERT violates a key. */
  predicate Agrees(s: Schema, table: seq<Record>, supplied: Row, gen: int) {
    Find(s.keys, table, supplied) != [] <==> Violates(s, table, Stored(s, supplied, gen))
  }

  /** A record that agrees with the stored row on one key and is NULL elsewhere but for the alias. */
  function Witness(s: Schema, supplied: Row, key: seq<string>): Record {
    var id := if s.alias.Some? && Given(supplied, s.alias.value) && supplied[s.alias.value].Int?
              then (if s.alias.value in key then supplied[s.alias.value].n else supplied[s.alias.value].n + 1)
              else 0;
    Record(id, map c | c in s.columns ::
      if s.alias == Some(c) then Int(id) else if c in key then GivenCell(s, supplied, c) else Null)
  }

  lemma WitnessValid(s: Schema, supplied: Row, key: seq<string>)
    requires WellFormed(s)
    ensures TableInv(s, [Witness(s, supplied, key)])
  {
  }

  lemma WitnessClashes(s: Schema, supplied: Row, key: seq<string>, gen: int)
    requires WellFormed(s) && !Mismatch(s, supplied) && key in s.keys && CanClash(s, supplied, key)
    ensures Clashes(s, Witness(s, supplied, key).row, Stored(s, supplied, gen))
  {
    var x, row := Witness(s, supplied, key), Stored(s, supplied, gen);
    forall c | c in key
      ensures Cell(x.row, c) != Null && Cell(x.row, c) == Cell(row, c)
    {
      assert c in s.columns && !Generates(s, supplied, c);
    }
    assert Agree(x.row, row, key);
  }

  lemma CoveredAgrees(s: Schema, table: seq<Record>, supplied: Row, gen: int)
    requires WellFormed(s) && Covered(s, supplied) && TableInv(s, table) && !HasId(table, gen)
    ensures Agrees(s, table, supplied, gen)
  {
    var found := Find(s.keys, table, supplied);
    if found != [] {
      FoundClashes(s, table, supplied, gen, found[0]);
    }
    if Violates(s, table, Stored(s, supplied, gen)) {
      var x :| x in table && Clashes(s, x.row, Stored(s, supplied, gen));
      ClashFound(s, table, supplied, gen, x);
    }
  }

  /**
   * The finder decides the constraint on every table exactly when the statement covers its keys:
   * every key it could clash on contains a key whose columns are all given.  Giving every key
   * column is the usual way to meet this; a column left to a default that is not NULL is how it fails.
   */
  lemma FinderExact(s: Schema, supplied: Row)
    requires WellFormed(s) && !Mismatch(s, supplied)
    ensures Covered(s, supplied) <==>
            forall table, gen :: TableInv(s, table) && !HasId(table, gen) ==> Agrees(s, table, supplied, gen)
  {
    if Covered(s, supplied) {
      forall table, gen | TableInv(s, table) && !HasId(table, gen)
        ensures Agrees(s, table, supplied, gen)
      {
        CoveredAgrees(s, table, supplied, gen);
      }
    } else {
      var k :| k in s.keys && CanClash(s, supplied, k) &&
               !exists k' :: k' in s.keys && Seen(supplied, k') && forall c :: c in k' ==> c in k;
      NotCovered(s, supplied, k);
    }
  }

  lemma {:induction false} FindsNothing(keys: seq<seq<string>>, table: seq<Record>, supplied: Row)
    requires forall k :: k in keys && Seen(supplied, k) ==> Query(table, k, supplied) == []
    ensures Find(keys, table, supplied) == []
  {
    if keys != [] {
      FindsNothing(keys[..|keys| - 1], table, supplied);
    }
  }

  lemma NotCovered(s: Schema, supplied: Row, k: seq<string>)
    requires WellFormed(s) && !Mismatch(s, supplied) && k in s.keys && CanClash(s, supplied, k)
    requires !exists k' :: k' in s.keys && Seen(supplied, k') && forall c :: c in k' ==> c in k
    ensures var x := Witness(s, supplied, k);
            TableInv(s, [x]) && !HasId([x], x.id + 1) && !Agrees(s, [x], supplied, x.id + 1)
  {
    var x := Witness(s, supplied, k);
    WitnessValid(s, supplied, k);
    WitnessClashes(s, supplied, k, x.id + 1);
    assert x in [x];
    forall k' | k' in s.keys && Seen(supplied, k')
      ensures Query([x], k', supplied) == []
    {
      var c :| c in k' && c !in k;
      assert Given(supplied, c) && Cell(x.row, c) != supplied[c];
    }
    FindsNothing(s.keys, [x], supplied);
    assert Violates(s, [x], Stored(s, supplied, x.id + 1));
  }

  /** A key left to its default: the finder finds nothing, and the INSERT violates the key. */
  lemma DefaultKeyMissed()
    ensures var s := Schema({"a"}, [["a"]], map["a" := Int(1)], None);
            var table := [Record(7, map["a" := Int(1)])];
            && WellFormed(s) && TableInv(s, table) && !HasId(table, 8)
            && Find(s.keys, table, map[]) == [] && Violates(s, table, Stored(s, map[], 8))
  {
    var s := Schema({"a"}, [["a"]], map["a" := Int(1)], None);
    var table := [Record(7, map["a" := Int(1)])];
    assert ["a"][0] in ["a"];
    FindsNothing(s.keys, table, map[]);
    assert Agree(table[0].row, Stored(s, map[], 8), ["a"]);
    assert Clashes(s, table[0].row, Stored(s, map[], 8));
  }

  /** A full statement covers its keys. */
  lemma AllGivenCovers(s: Schema, supplied: Row)
    requires WellFormed(s)
    requires forall k, c :: k in s.keys && c in k && c !in supplied ==> s.alias == Some(c) || Cell(s.defaults, c) == Null
    ensures Covered(s, supplied)
  {
    forall k | k in s.keys && CanClash(s, supplied, k)
      ensures exists k' :: k' in s.keys && Seen(supplied, k') && forall c :: c in k' ==> c in k
    {
      forall c | c in k
        ensures Given(supplied, c)
      {
        assert !Generates(s, supplied, c) && GivenCell(s, supplied, c) != Null;
      }
      assert Seen(supplied, k);
    }
  }
}
