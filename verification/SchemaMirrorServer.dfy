/**
 * The refreshes as they run under the lock: rows are deleted and inserted table by table and the
 * flags are set afterwards (pkg/mysqlmock/information_schema.go and the flag methods of
 * pkg/mysqlmock/information_schema_cache.go).
 */
module SchemaMirrorServer {
  import opened Options
  import opened SchemaHistory
  import opened SchemaMirror

  /** The table names of the catalogue, each once, as the query lists them. */
  ghost predicate Lists(names: seq<string>, c: Catalog) {
    && (forall t :: t in c <==> t in names)
    && (forall i, j :: 0 <= i < j < |names| ==> names[i] != names[j])
  }

  /** The rows of the first tables listed. */
  ghost function ListUpTo(names: seq<string>, c: Catalog): map<string, seq<bool>> {
    map t | t in names :: TableRows(c, t)
  }

  ghost function DetailsUpTo(names: seq<string>, c: Catalog): map<string, seq<Detail>> {
    map t | t in names :: DetailRows(c, t)
  }

  lemma NothingUpTo(names: seq<string>, c: Catalog)
    ensures ListUpTo(names[..0], c) == map[] && DetailsUpTo(names[..0], c) == map[]
  {
  }

  lemma NextTable(names: seq<string>, c: Catalog, i: nat)
    requires Lists(names, c) && i < |names|
    ensures names[i] in c
    ensures var t := names[i];
            ListUpTo(names[..i + 1], c) == ListUpTo(names[..i], c)[t := Rows(ListUpTo(names[..i], c), t) + [c[t].view]]
    ensures var t := names[i];
            DetailsUpTo(names[..i + 1], c) == DetailsUpTo(names[..i], c)[t := Rows(DetailsUpTo(names[..i], c), t) + InfoRows(c[t])]
  {
    hide InfoRows, TableRows, DetailRows;
    var t := names[i];
    assert t in names && t !in names[..i] && names[..i + 1] == names[..i] + [t];
    FirstRows(c, t);
  }

  lemma FirstRows(c: Catalog, t: string)
    requires t in c
    ensures [] + [c[t].view] == TableRows(c, t) && [] + InfoRows(c[t]) == DetailRows(c, t)
  {
    hide InfoRows;
  }

  lemma AllTables(names: seq<string>, c: Catalog)
    requires Lists(names, c)
    ensures ListUpTo(names[..|names|], c) == ListOf(c) && DetailsUpTo(names[..|names|], c) == DetailsOf(c)
  {
    hide InfoRows;
    assert names[..|names|] == names;
  }

  lemma NextRow(rows: seq<Detail>, all: seq<Detail>, i: nat)
    requires i < |all|
    ensures (rows + all[..i]) + [all[i]] == rows + all[..i + 1]
  {
  }

  class InformationSchema {
    var tables: map<string, seq<bool>>
    var details: map<string, seq<Detail>>
    var cache: Cache

    constructor ()
      ensures State() == Mirror(map[], map[]) && cache == EMPTY
    {
      tables, details, cache := map[], map[], EMPTY;
    }

    ghost function State(): Mirror
      reads this
    {
      Mirror(tables, details)
    }

    method InsertTable(table: string, view: bool)
      modifies this`tables
      ensures tables == old(tables)[table := Rows(old(tables), table) + [view]]
    {
      tables := tables[table := Rows(tables, table) + [view]];
    }

    method InsertDetail(table: string, row: Detail)
      modifies this`details
      ensures details == old(details)[table := Rows(old(details), table) + [row]]
    {
      details := details[table := Rows(details, table) + [row]];
    }

    method InsertColumns(table: string, columns: seq<string>)
      modifies this`details
      ensures details == old(details)[table := Rows(old(details), table) + ColumnRows(columns)]
    {
      ghost var rows, all := Rows(details, table), ColumnRows(columns);
      details := details[table := Rows(details, table)];
      assert rows + all[..0] == rows;
      for i := 0 to |columns|
        invariant details == old(details)[table := rows + all[..i]]
      {
        NextRow(rows, all, i);
        InsertDetail(table, ColumnRow(columns[i]));
      }
      assert all[..|columns|] == all;
    }

    method InsertKeys(table: string, indexes: seq<string>)
      modifies this`details
      ensures details == old(details)[table := Rows(old(details), table) + IndexRows(indexes)]
    {
      ghost var rows, all := Rows(details, table), IndexRows(indexes);
      details := details[table := Rows(details, table)];
      assert rows + all[..0] == rows;
      for i := 0 to |indexes|
        invariant details == old(details)[table := rows + all[..i]]
      {
        NextRow(rows, all, i);
        InsertDetail(table, IndexRow(indexes[i]));
      }
      assert all[..|indexes|] == all;
    }

    /** One row for each column, then one for each index. */
    method InsertDetails(table: string, info: TableInfo)
      modifies this`details
      ensures details == old(details)[table := Rows(old(details), table) + InfoRows(info)]
    {
      hide ColumnRows, IndexRows;
      ghost var rows := Rows(details, table);
      InsertColumns(table, info.columns);
      InsertKeys(table, info.indexes);
      assert (rows + ColumnRows(info.columns)) + IndexRows(info.indexes) == rows + InfoRows(info);
    }

    /** Deletes everything and inserts every table of the catalogue. */
    method RefreshFull(names: seq<string>, c: Catalog)
      requires Lists(names, c)
      modifies this`tables, this`details
      ensures State() == Refresh(old(State()), Full, c)
    {
      hide InfoRows, ListUpTo, DetailsUpTo, Lists;
      tables, details := map[], map[];
      NothingUpTo(names, c);
      for i := 0 to |names|
        invariant tables == ListUpTo(names[..i], c) && details == DetailsUpTo(names[..i], c)
      {
        NextTable(names, c, i);
        InsertTable(names[i], c[names[i]].view);
        InsertDetails(names[i], c[names[i]]);
      }
      AllTables(names, c);
    }

    /** Rewrites the list of tables and leaves the other rows as they are. */
    method RefreshTableList(names: seq<string>, c: Catalog)
      requires Lists(names, c)
      modifies this`tables
      ensures State() == Refresh(old(State()), TableList, c)
    {
      hide InfoRows, ListUpTo, DetailsUpTo, Lists;
      tables := map[];
      NothingUpTo(names, c);
      for i := 0 to |names|
        invariant tables == ListUpTo(names[..i], c)
      {
        NextTable(names, c, i);
        InsertTable(names[i], c[names[i]].view);
      }
      AllTables(names, c);
    }

    /** Deletes and inserts the rows of one table; a table that is gone keeps no rows. */
    method RefreshTable(table: string, c: Catalog) returns (found: bool)
      modifies this`tables, this`details
      ensures State() == Refresh(old(State()), Target(table), c)
      ensures found <==> table in c
    {
      hide InfoRows;
      tables := tables[table := []];
      details := details[table := []];
      if table !in c {
        return false;
      }
      FirstRows(c, table);
      InsertTable(table, c[table].view);
      InsertDetails(table, c[table]);
      return true;
    }

    method HasRefresh(request: Request, version: nat) returns (hit: bool)
      ensures hit <==> Hit(cache, request, version)
    {
      if cache.full == Some(version) {
        return true;
      }
      match request {
        case Full => hit := false;
        case TableList => hit := cache.list == Some(version);
        case Target(table) => hit := table in cache.tables && cache.tables[table].version == version;
      }
    }

    method SetMark(request: Request, version: nat, found: bool)
      modifies this`cache
      ensures cache == MarkDone(old(cache), request, version, found)
    {
      match request {
        case Full =>
          cache := cache.(full := Some(version));
          cache := cache.(tables := map[]);
        case TableList => cache := cache.(list := Some(version));
        case Target(table) => cache := cache.(tables := cache.tables[table := Mark(version, found)]);
      }
    }
  }
}
