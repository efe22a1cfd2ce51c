/**
 * The server's side of the metadata caches: what each locked section does to the fields, tied to the
 * steps of `SchemaCache` (bumpSchemaVersion in pkg/mysqlmock/server.go, the cache sections of
 * tableColumns and uniqueKeys in pkg/mysqlmock/upsert.go).
 *
 * `st` and `c` are the state of the machine the fields are part of and the connection that runs.
 */
module SchemaCacheServer {
  import opened Options
  import opened SchemaHistory
  import opened SchemaCache

  class MetadataServer {
    var schemaVersion: nat
    var tableColumns: map<string, ColumnsEntry>
    var uniqueKeys: map<string, KeysEntry>

    constructor ()
      ensures schemaVersion == 0 && tableColumns == map[] && uniqueKeys == map[]
    {
      schemaVersion, tableColumns, uniqueKeys := 0, map[], map[];
    }

    /** The fields are those of the machine. */
    ghost predicate Shows(st: State)
      reads this
    {
      schemaVersion == st.history.version && tableColumns == st.columns && uniqueKeys == st.keys
    }

    /** The version is read without a lock. */
    method CurrentSchemaVersion(ghost st: State, ghost c: nat, table: string) returns (version: nat)
      requires Shows(st) && st.history.catalogs != [] && c in st.phases && Begins(st.phases[c])
      ensures Step(st, c, LookUpColumns(table)).phases[c] == ColumnsBegun(table, version, Bumped(st.history))
      ensures Step(st, c, LookUpKeys(table)).phases[c] == KeysBegun(table, version, Bumped(st.history))
    {
      version := schemaVersion;
    }

    /** The first half of a bump. */
    method AnnounceChange(ghost st: State, ghost c: nat, ghost task: Task)
      requires Shows(st) && st.history.catalogs != [] && c in st.phases && st.phases[c].Changed?
      modifies this
      ensures Shows(Step(st, c, task))
    {
      schemaVersion := schemaVersion + 1;
    }

    /** The second half, under the lock: every entry goes, whatever its version. */
    method ClearCaches(ghost st: State, ghost c: nat, ghost task: Task)
      requires Shows(st) && st.history.catalogs != [] && c in st.phases && st.phases[c].Announced?
      modifies this
      ensures Shows(Step(st, c, task))
    {
      tableColumns := map[];
      uniqueKeys := map[];
    }

    method CachedTableColumns(ghost st: State, ghost c: nat, ghost task: Task, table: string, version: nat)
      returns (cached: Option<seq<string>>)
      requires Shows(st) && st.history.catalogs != [] && c in st.phases
      requires st.phases[c].ColumnsBegun? && st.phases[c].table == table && st.phases[c].version == version
      ensures cached.Some? ==> Step(st, c, task).phases[c] == ColumnsDone(table, st.phases[c].since, cached.value)
      ensures cached.None? ==> Step(st, c, task).phases[c] == ColumnsMissed(table, version, st.phases[c].since)
    {
      if table in tableColumns {
        var entry := tableColumns[table];
        if entry.version == version {
          return Some(entry.columns);
        }
      }
      return None;
    }

    method StoreTableColumns(ghost st: State, ghost c: nat, ghost task: Task, table: string, version: nat, columns: seq<string>)
      requires Shows(st) && st.history.catalogs != [] && c in st.phases && st.phases[c].ColumnsRead?
      requires st.phases[c].table == table && st.phases[c].version == version && st.phases[c].columns == columns
      modifies this
      ensures Shows(Step(st, c, task))
      ensures Step(st, c, task).phases[c] == ColumnsDone(table, st.phases[c].since, columns)
    {
      tableColumns := tableColumns[table := ColumnsEntry(version, columns)];
    }

    method CachedUniqueKeys(ghost st: State, ghost c: nat, ghost task: Task, table: string, version: nat)
      returns (cached: Option<KeysEntry>)
      requires Shows(st) && st.history.catalogs != [] && c in st.phases
      requires st.phases[c].KeysBegun? && st.phases[c].table == table && st.phases[c].version == version
      ensures cached.Some? ==>
                Step(st, c, task).phases[c] == KeysDone(table, st.phases[c].since, cached.value.columns, cached.value.indexes)
      ensures cached.None? ==> Step(st, c, task).phases[c] == KeysMissed(table, version, st.phases[c].since)
    {
      if table in uniqueKeys && uniqueKeys[table].version == version {
        return Some(uniqueKeys[table]);
      }
      return None;
    }

    method StoreUniqueKeys(ghost st: State, ghost c: nat, ghost task: Task, table: string, version: nat,
                           columns: seq<string>, indexes: seq<string>)
      requires Shows(st) && st.history.catalogs != [] && c in st.phases && st.phases[c].KeysRead?
      requires st.phases[c].table == table && st.phases[c].version == version
      requires st.phases[c].columns == columns && st.phases[c].indexes == indexes
      modifies this
      ensures Shows(Step(st, c, task))
      ensures Step(st, c, task).phases[c] == KeysDone(table, st.phases[c].since, columns, indexes)
    {
      uniqueKeys := uniqueKeys[table := KeysEntry(version, columns, indexes)];
    }
  }
}
