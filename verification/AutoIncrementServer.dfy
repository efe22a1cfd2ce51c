/**
 * The server's allocation record and a connection's restore set as the objects the server updates
 * in place (pkg/mysqlmock/auto_increment_compat.go and the transaction cases of executeQuery in
 * pkg/mysqlmock/protocol.go).  Every method is proved against `AutoIncrement.Exec`.
 */
module AutoIncrementServer {
  import opened Options
  import opened Integers
  import opened AutoIncrement

  class Server {
    var autoIncrement: map<string, nat>

    constructor ()
      ensures autoIncrement == map[]
    {
      autoIncrement := map[];
    }

    method RecordAllocation(table: string, value: nat) returns (recorded: bool)
      modifies this
      ensures autoIncrement == Record(old(autoIncrement), table, value)
      ensures recorded == Records(old(autoIncrement), table, value)
    {
      if table == "" || value == 0 {
        return false;
      }
      var known := if table in autoIncrement then autoIncrement[table] else 0;
      if value <= known {
        return false;
      }
      autoIncrement := autoIncrement[table := value];
      return true;
    }
  }

  /** SQLite's sequence table, which every connection shares. */
  class Database {
    var sequence: map<string, int>

    constructor ()
      ensures sequence == map[]
    {
      sequence := map[];
    }

    /** An UPDATE that finds no row is followed by an INSERT. */
    method SetSequenceAtLeast(table: string, value: nat)
      modifies this
      ensures sequence == old(sequence)[table := AtLeast(old(sequence), table, value)]
    {
      var seq64 := if value > MAX_INT64 then MAX_INT64 else value;
      if table in sequence {
        sequence := sequence[table := if sequence[table] < seq64 then seq64 else sequence[table]];
      } else {
        sequence := sequence[table := seq64];
      }
    }
  }

  class MysqlConn {
    const server: Server
    const db: Database
    /** SQLite's open frames of this connection. */
    var frames: seq<Frame>
    var inTrans: bool
    var restoreTables: set<string>

    constructor (server: Server, db: Database)
      ensures this.server == server && this.db == db && Conn() == AutoIncrement.Conn([], false, {})
    {
      this.server, this.db := server, db;
      frames, inTrans, restoreTables := [], false, {};
    }

    ghost function Shared(): Shared
      reads server, db
    {
      AutoIncrement.Shared(db.sequence, server.autoIncrement)
    }

    ghost function Conn(): Conn
      reads this
    {
      AutoIncrement.Conn(frames, inTrans, restoreTables)
    }

    method MarkRestoreTable(table: string)
      modifies this
      ensures Conn() == (if old(inTrans) then old(Conn()).(restore := old(restoreTables) + {table}) else old(Conn()))
    {
      if !inTrans {
        return;
      }
      restoreTables := restoreTables + {table};
    }

    /** Restores the marked tables one after the other; the order they come in makes no difference. */
    method RestoreSequences(auto: set<string>)
      modifies db
      ensures Shared() == RestoreAll(old(Shared()), restoreTables, auto)
    {
      var remaining := restoreTables;
      RestoreNone(Shared(), auto);
      while remaining != {}
        invariant remaining <= restoreTables
        invariant server.autoIncrement == old(server.autoIncrement)
        invariant Shared() == RestoreAll(old(Shared()), restoreTables - remaining, auto)
        decreases |remaining|
      {
        var table :| table in remaining;
        RestoreMore(old(Shared()), restoreTables - remaining, table, auto);
        assert restoreTables - (remaining - {table}) == restoreTables - remaining + {table};
        remaining := remaining - {table};
        var value := if table in server.autoIncrement then server.autoIncrement[table] else 0;
        if value != 0 && table in auto {
          db.SetSequenceAtLeast(table, value);
        }
      }
      assert restoreTables - remaining == restoreTables;
    }

    /** SQLite's ROLLBACK, to the start of the given frame. */
    method SqliteRollback(i: nat)
      requires i < |frames|
      modifies db
      ensures db.sequence == Snapshot(frames[i], old(db.sequence))
    {
      if frames[i].snapshot.Some? {
        db.sequence := frames[i].snapshot.value;
      }
    }

    method Begin(auto: set<string>) returns (reply: Reply)
      modifies this
      ensures (Shared(), Conn(), reply) == Exec(old(Shared()), old(Conn()), Statement.Begin, false, auto)
    {
      inTrans := true;
      if frames != [] {
        return Refused;
      }
      frames := [Frame(None, None)];
      return Done;
    }

    method Commit(auto: set<string>) returns (reply: Reply)
      modifies this
      ensures (Shared(), Conn(), reply) == Exec(old(Shared()), old(Conn()), Statement.Commit, false, auto)
    {
      if frames == [] {
        return Refused;
      }
      frames := [];
      restoreTables := {};
      inTrans := false;
      return Done;
    }

    method Rollback(auto: set<string>) returns (reply: Reply)
      modifies this, db
      ensures (Shared(), Conn(), reply) == Exec(old(Shared()), old(Conn()), Statement.Rollback, false, auto)
    {
      if frames == [] {
        return Refused;
      }
      SqliteRollback(0);
      frames := [];
      RestoreSequences(auto);
      inTrans := false;
      restoreTables := {};
      return Done;
    }

    method RollbackAndChain(auto: set<string>) returns (reply: Reply)
      modifies this, db
      ensures (Shared(), Conn(), reply) == Exec(old(Shared()), old(Conn()), Statement.RollbackAndChain, false, auto)
    {
      if frames == [] {
        return Refused;
      }
      SqliteRollback(0);
      frames := [];
      inTrans := false;
      RestoreSequences(auto);
      restoreTables := {};
      reply := Begin(auto);
    }

    method Savepoint(name: string, auto: set<string>) returns (reply: Reply)
      modifies this
      ensures (Shared(), Conn(), reply) == Exec(old(Shared()), old(Conn()), Statement.Savepoint(name), false, auto)
    {
      var writing := exists i :: 0 <= i < |frames| && frames[i].snapshot.Some?;
      frames := frames + [Frame(Some(name), if writing then Some(db.sequence) else None)];
      return Done;
    }

    method RollbackToSavepoint(name: string, auto: set<string>) returns (reply: Reply)
      modifies this, db
      ensures (Shared(), Conn(), reply) == Exec(old(Shared()), old(Conn()), RollbackTo(name), false, auto)
    {
      var i := FindFrame(frames, name);
      if i < 0 {
        return Refused;
      }
      SqliteRollback(i);
      frames := frames[..i + 1];
      RestoreSequences(auto);
      return Done;
    }

    method ReleaseSavepoint(name: string, auto: set<string>) returns (reply: Reply)
      modifies this
      ensures (Shared(), Conn(), reply) == Exec(old(Shared()), old(Conn()), Release(name), false, auto)
    {
      var i := FindFrame(frames, name);
      if i < 0 {
        return Refused;
      }
      frames := frames[..i];
      return Done;
    }

    /** SQLite takes the row: it snapshots at a first write and keeps the sequence of an AUTOINCREMENT table. */
    method SqliteInsert(table: string, id: int, auto: set<string>)
      modifies this, db
      ensures Conn() == old(Conn()).(frames := Filled(old(frames), old(db.sequence)))
      ensures Shared() == Raised(old(Shared()), table, id, auto)
    {
      frames := Filled(frames, db.sequence);
      if table in auto {
        var last := if table in db.sequence then db.sequence[table] else 0;
        db.sequence := db.sequence[table := if last < id then id else last];
      }
    }

    /** An insert whose row id SQLite reports: the server records it and the connection marks the table. */
    method InsertRow(table: string, id: int, auto: set<string>)
      modifies this, db, server
      ensures (Shared(), Conn()) == Insert(old(Shared()), old(Conn()), table, id, auto)
    {
      SqliteInsert(table, id, auto);
      var lastInsertID := if id > 0 then id else 0;
      var recorded := server.RecordAllocation(table, lastInsertID);
      if recorded && table in auto {
        MarkRestoreTable(table);
      }
    }

    /** The next value of a composite key, or none once 2^63-1 is used up. */
    method NextAutoIncrementValue(table: string, maxColumn: int) returns (next: Option<nat>)
      ensures var base := Max(Max(maxColumn, 0), Alloc(server.autoIncrement, table));
              next == if base >= MAX_INT64 then None else Some(base + 1)
    {
      var base := 0;
      if maxColumn > 0 {
        base := maxColumn;
      }
      var known := if table in server.autoIncrement then server.autoIncrement[table] else 0;
      if known > base {
        base := known;
      }
      if base >= MAX_INT64 {
        return None;
      }
      return Some(base + 1);
    }

    /** `busy`: SQLite refuses the row because another connection is writing. */
    method InsertCompositeRow(table: string, maxColumn: int, busy: bool, auto: set<string>) returns (reply: Reply)
      modifies this, db, server
      ensures (Shared(), Conn(), reply)
           == Exec(old(Shared()), old(Conn()), InsertComposite(table, maxColumn), busy, auto)
    {
      var next := NextAutoIncrementValue(table, maxColumn);
      if next.None? || busy {
        return Refused;
      }
      InsertRow(table, next.value, auto);
      return Generated(next.value);
    }
  }

  lemma RestoreNone(sh: Shared, auto: set<string>)
    ensures RestoreAll(sh, {}, auto) == sh
  {
    var none := RestoreAll(sh, {}, auto).sequence;
    assert none.Keys == sh.sequence.Keys;
    assert forall t :: t in none ==> none[t] == sh.sequence[t];
    assert none == sh.sequence;
  }

  /** Restoring one more table touches that table alone. */
  lemma RestoreMore(sh: Shared, tables: set<string>, table: string, auto: set<string>)
    requires table !in tables
    ensures var done := RestoreAll(sh, tables, auto);
            RestoreAll(sh, tables + {table}, auto) ==
              if Restores(sh, table, auto)
              then done.(sequence := done.sequence[table := AtLeast(done.sequence, table, Alloc(sh.alloc, table))])
              else done
  {
    var done := RestoreAll(sh, tables, auto).sequence;
    var more := RestoreAll(sh, tables + {table}, auto).sequence;
    var expected := if Restores(sh, table, auto)
                    then done[table := AtLeast(done, table, Alloc(sh.alloc, table))] else done;
    assert more.Keys == expected.Keys;
    assert forall t :: t in more ==> more[t] == expected[t];
    assert more == expected;
  }
}
