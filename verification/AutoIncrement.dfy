/**
 * AUTO_INCREMENT values across transactions (pkg/mysqlmock/auto_increment_compat.go and the
 * transaction statements of executeQuery in pkg/mysqlmock/protocol.go).
 *
 * The server's allocation record never rolls back; SQLite's sequence table does.  After a rollback
 * a connection raises the sequences of the tables it marked.  The laws say that over every run of
 * every number of connections no value is handed out twice.
 */
module AutoIncrement {
  import opened Options
  import opened Integers

  /** BEGIN (no name) or a savepoint; the snapshot is taken when the transaction first writes. */
  datatype Frame = Frame(name: Option<string>, snapshot: Option<map<string, int>>)

  /** One connection: SQLite's open frames, the status flag and the tables to restore. */
  datatype Conn = Conn(frames: seq<Frame>, inTrans: bool, restore: set<string>)

  /** What the connections share: the live sequence table and the server's allocation record. */
  datatype Shared = Shared(sequence: map<string, int>, alloc: map<string, nat>)

  datatype Statement =
    | Begin
    | Commit
    | Rollback
    | RollbackAndChain
    | Savepoint(name: string)
    | RollbackTo(name: string)
    | Release(name: string)
    | InsertGenerated(table: string, maxRow: int)
    | InsertExplicit(table: string, id: int)
    | InsertComposite(table: string, maxColumn: int)

  datatype Reply = Done | Generated(id: nat) | Inserted(id: nat) | Refused

  function Get<V>(m: map<string, V>, table: string, none: V): V {
    if table in m then m[table] else none
  }

  function Seq(m: map<string, int>, table: string): int {
    Get(m, table, 0)
  }

  function Alloc(m: map<string, nat>, table: string): nat {
    Get(m, table, 0)
  }

  function Max(a: int, b: int): int {
    if a < b then b else a
  }

  // ---------------------------------------------------------------------------------------------
  // One statement on one connection
  // ---------------------------------------------------------------------------------------------

  predicate Records(alloc: map<string, nat>, table: string, value: nat) {
    table != "" && value != 0 && value > Alloc(alloc, table)
  }

  /** The server's allocation record keeps the largest value. */
  function Record(alloc: map<string, nat>, table: string, value: nat): map<string, nat> {
    if Records(alloc, table, value) then alloc[table := value] else alloc
  }

  /** The sequence value after raising it to at least the given one, capped at a signed 64-bit integer. */
  function AtLeast(sequence: map<string, int>, table: string, value: nat): int {
    var v := if value > MAX_INT64 then MAX_INT64 else value;
    if table in sequence then Max(sequence[table], v) else v
  }

  predicate Restores(sh: Shared, table: string, auto: set<string>) {
    table in auto && Alloc(sh.alloc, table) > 0
  }

  /** Every marked table that still uses AUTOINCREMENT is raised to its recorded allocation. */
  function RestoreAll(sh: Shared, tables: set<string>, auto: set<string>): Shared {
    var raised := set t | t in tables && Restores(sh, t, auto);
    sh.(sequence := map t | t in sh.sequence.Keys + raised ::
                      if t in raised then AtLeast(sh.sequence, t, Alloc(sh.alloc, t)) else sh.sequence[t])
  }

  /** The transaction has written: SQLite holds the write lock for it. */
  predicate Writing(frames: seq<Frame>) {
    exists i :: 0 <= i < |frames| && frames[i].snapshot.Some?
  }

  /** At its first write every open frame of the transaction snapshots the sequence table. */
  function Filled(frames: seq<Frame>, sequence: map<string, int>): (r: seq<Frame>)
    ensures |r| == |frames|
  {
    seq(|frames|, i requires 0 <= i < |frames| =>
      if frames[i].snapshot.Some? then frames[i] else frames[i].(snapshot := Some(sequence)))
  }

  /** Position of the innermost frame with the given name, -1 if there is none. */
  function FindFrame(frames: seq<Frame>, name: string): (i: int)
    ensures -1 <= i < |frames|
    ensures i >= 0 ==> frames[i].name == Some(name)
    ensures forall k :: i < k < |frames| ==> frames[k].name != Some(name)
  {
    if frames == [] then -1
    else if frames[|frames| - 1].name == Some(name) then |frames| - 1
    else FindFrame(frames[..|frames| - 1], name)
  }

  /** The sequence table a frame goes back to: the live one if nothing has been written since. */
  function Snapshot(frame: Frame, sequence: map<string, int>): map<string, int> {
    if frame.snapshot.Some? then frame.snapshot.value else sequence
  }

  /** SQLite's own bookkeeping for an inserted row id. */
  function Raised(sh: Shared, table: string, id: int, auto: set<string>): Shared {
    if table in auto then sh.(sequence := sh.sequence[table := Max(Seq(sh.sequence, table), id)]) else sh
  }

  /** An insert that went through: the id is recorded, and the table marked if it uses AUTOINCREMENT. */
  function AfterInsert(sh: Shared, me: Conn, table: string, id: nat, auto: set<string>): (Shared, Conn) {
    var marks := table in auto && Records(sh.alloc, table, id) && me.inTrans;
    (sh.(alloc := Record(sh.alloc, table, id)), if marks then me.(restore := me.restore + {table}) else me)
  }

  function Insert(sh: Shared, me: Conn, table: string, id: int, auto: set<string>): (Shared, Conn) {
    AfterInsert(Raised(sh, table, id, auto), me.(frames := Filled(me.frames, sh.sequence)), table, Max(id, 0), auto)
  }

  /**
   * The effect of one statement; `busy` says that another connection holds SQLite's write lock.
   * BEGIN sets the status flag even when SQLite then refuses it.
   */
  function Exec(sh: Shared, me: Conn, stmt: Statement, busy: bool, auto: set<string>): (Shared, Conn, Reply) {
    match stmt
    case Begin =>
      var flagged := me.(inTrans := true);
      if me.frames != [] then (sh, flagged, Refused) else (sh, flagged.(frames := [Frame(None, None)]), Done)
    case Commit =>
      if me.frames == [] then (sh, me, Refused) else (sh, Conn([], false, {}), Done)
    case Rollback =>
      if me.frames == [] then (sh, me, Refused)
      else
        var back := sh.(sequence := Snapshot(me.frames[0], sh.sequence));
        (RestoreAll(back, me.restore, auto), Conn([], false, {}), Done)
    case RollbackAndChain =>
      if me.frames == [] then (sh, me, Refused)
      else
        var back := sh.(sequence := Snapshot(me.frames[0], sh.sequence));
        (RestoreAll(back, me.restore, auto), Conn([Frame(None, None)], true, {}), Done)
    case Savepoint(name) =>
      var frame := Frame(Some(name), if Writing(me.frames) then Some(sh.sequence) else None);
      (sh, me.(frames := me.frames + [frame]), Done)
    case RollbackTo(name) =>
      var i := FindFrame(me.frames, name);
      if i < 0 then (sh, me, Refused)
      else
        var back := sh.(sequence := Snapshot(me.frames[i], sh.sequence));
        (RestoreAll(back, me.restore, auto), me.(frames := me.frames[..i + 1]), Done)
    case Release(name) =>
      var i := FindFrame(me.frames, name);
      if i < 0 then (sh, me, Refused) else (sh, me.(frames := me.frames[..i]), Done)
    case InsertGenerated(table, maxRow) =>
      var base := Max(Seq(sh.sequence, table), Max(maxRow, 0));
      if busy || base >= MAX_INT64 then (sh, me, Refused)
      else
        var (sh', me') := Insert(sh, me, table, base + 1, auto);
        (sh', me', Generated(base + 1))
    case InsertExplicit(table, id) =>
      if busy || id > MAX_INT64 then (sh, me, Refused)
      else
        var (sh', me') := Insert(sh, me, table, id, auto);
        (sh', me', Inserted(Max(id, 0)))
    case InsertComposite(table, maxColumn) =>
      var base := Max(Max(maxColumn, 0), Alloc(sh.alloc, table));
      if busy || base >= MAX_INT64 then (sh, me, Refused)
      else
        var (sh', me') := Insert(sh, me, table, base + 1, auto);
        (sh', me', Generated(base + 1))
  }

  // ---------------------------------------------------------------------------------------------
  // Any number of connections
  // ---------------------------------------------------------------------------------------------

  datatype State = State(sh: Shared, conns: map<nat, Conn>)

  /** Another connection than `c` holds the write lock. */
  predicate Busy(st: State, c: nat) {
    exists d :: d in st.conns && d != c && Writing(st.conns[d].frames)
  }

  function Step(st: State, c: nat, stmt: Statement, auto: set<string>): (State, Reply)
    requires c in st.conns
  {
    var (sh, me, reply) := Exec(st.sh, st.conns[c], stmt, Busy(st, c), auto);
    (State(sh, st.conns[c := me]), reply)
  }

  /** Every snapshot still covers the record, or the table is marked for restoring. */
  predicate Covered(sh: Shared, me: Conn, auto: set<string>) {
    forall i, t :: 0 <= i < |me.frames| && me.frames[i].snapshot.Some? && t in auto ==>
      Seq(me.frames[i].snapshot.value, t) >= Alloc(sh.alloc, t) || (t in me.restore && Alloc(sh.alloc, t) > 0)
  }

  predicate AllOrNone(frames: seq<Frame>) {
    forall i, j :: 0 <= i < |frames| && 0 <= j < |frames| && frames[i].snapshot.Some? ==> frames[j].snapshot.Some?
  }

  /** Between BEGIN and its end the innermost frame list starts with the unnamed one. */
  predicate InOrder(me: Conn) {
    && (me.inTrans <==> me.frames != [])
    && (me.frames != [] ==> me.frames[0].name.None?)
    && AllOrNone(me.frames)
    && (me.restore != {} ==> Writing(me.frames))
  }

  predicate ConnInv(sh: Shared, me: Conn, auto: set<string>) {
    InOrder(me) && Covered(sh, me, auto)
  }

  predicate SharedInv(sh: Shared, auto: set<string>) {
    && (forall t :: t in auto ==> Alloc(sh.alloc, t) <= Seq(sh.sequence, t))
    && (forall t :: t in sh.alloc ==> sh.alloc[t] <= MAX_INT64)
  }

  /** The live sequence is at least the recorded allocation, and a rollback can keep it so. */
  predicate Inv(st: State, auto: set<string>) {
    && SharedInv(st.sh, auto)
    && (forall c :: c in st.conns ==> ConnInv(st.sh, st.conns[c], auto))
    && (forall c :: c in st.conns && Writing(st.conns[c].frames) ==> !Busy(st, c))
  }

  /** Savepoints are used inside BEGIN only, and each insert suits its kind of table. */
  predicate Allowed(me: Conn, stmt: Statement, auto: set<string>) {
    match stmt
    case Savepoint(_) => me.frames != []
    case InsertGenerated(table, _) => table != "" && table in auto
    case InsertExplicit(table, _) => table != ""
    case InsertComposite(table, _) => table != "" && table !in auto
    case _ => true
  }

  // ---------------------------------------------------------------------------------------------
  // What every statement keeps
  // ---------------------------------------------------------------------------------------------

  /** Restoring raises every marked sequence to the record and lowers none. */
  lemma RestoreRaises(sh: Shared, tables: set<string>, auto: set<string>, t: string)
    requires t in auto && Alloc(sh.alloc, t) <= MAX_INT64
    requires Seq(sh.sequence, t) >= Alloc(sh.alloc, t) || (t in tables && Alloc(sh.alloc, t) > 0)
    ensures Seq(RestoreAll(sh, tables, auto).sequence, t) >= Alloc(sh.alloc, t)
  {
  }

  /** Going back to one of the connection's frames and restoring leaves every sequence covering the record. */
  lemma GoBack(sh: Shared, me: Conn, i: nat, auto: set<string>)
    requires SharedInv(sh, auto) && ConnInv(sh, me, auto) && i < |me.frames|
    ensures var back := RestoreAll(sh.(sequence := Snapshot(me.frames[i], sh.sequence)), me.restore, auto);
            SharedInv(back, auto) && back.alloc == sh.alloc
  {
    var went := sh.(sequence := Snapshot(me.frames[i], sh.sequence));
    forall t | t in auto
      ensures Alloc(sh.alloc, t) <= Seq(RestoreAll(went, me.restore, auto).sequence, t)
    {
      RestoreRaises(went, me.restore, auto, t);
    }
  }

  /** Cutting frames off the end keeps what is true of each frame. */
  lemma CutFrames(sh: Shared, me: Conn, i: nat, auto: set<string>)
    requires ConnInv(sh, me, auto) && 0 < i <= |me.frames|
    ensures ConnInv(sh, me.(frames := me.frames[..i]), auto)
    ensures Writing(me.frames[..i]) == Writing(me.frames)
  {
    if Writing(me.frames) {
      assert me.frames[0].snapshot.Some?;
      assert me.frames[..i][0].snapshot.Some?;
    }
  }

  /** A connection with no transaction, or one that has only begun. */
  lemma NoFrames(sh: Shared, auto: set<string>)
    ensures ConnInv(sh, Conn([], false, {}), auto) && !Writing([])
    ensures ConnInv(sh, Conn([Frame(None, None)], true, {}), auto) && !Writing([Frame(None, None)])
  {
  }

  lemma PushFrame(sh: Shared, me: Conn, name: string, auto: set<string>)
    requires SharedInv(sh, auto) && ConnInv(sh, me, auto) && me.frames != []
    ensures var frame := Frame(Some(name), if Writing(me.frames) then Some(sh.sequence) else None);
            ConnInv(sh, me.(frames := me.frames + [frame]), auto) &&
            Writing(me.frames + [frame]) == Writing(me.frames)
  {
    var frames := me.frames + [Frame(Some(name), if Writing(me.frames) then Some(sh.sequence) else None)];
    if Writing(me.frames) {
      assert frames[0].snapshot.Some?;
    }
  }

  /** At a first write the frames snapshot sequences that cover the record. */
  lemma FilledInv(sh: Shared, me: Conn, auto: set<string>)
    requires SharedInv(sh, auto) && ConnInv(sh, me, auto)
    ensures ConnInv(sh, me.(frames := Filled(me.frames, sh.sequence)), auto)
    ensures me.frames != [] ==> Writing(Filled(me.frames, sh.sequence))
  {
    var filled := Filled(me.frames, sh.sequence);
    if me.frames != [] {
      assert filled[0].snapshot.Some?;
    }
  }

  /** Recording a value keeps the invariant: the table is marked whenever a frame may fall short of it. */
  lemma AfterInsertInv(sh: Shared, me: Conn, table: string, id: nat, auto: set<string>)
    requires SharedInv(sh, auto) && ConnInv(sh, me, auto) && (me.frames != [] ==> Writing(me.frames))
    requires id <= MAX_INT64 && (table in auto ==> id <= Seq(sh.sequence, table))
    ensures var (sh', me') := AfterInsert(sh, me, table, id, auto);
            SharedInv(sh', auto) && ConnInv(sh', me', auto)
  {
  }

  /** An insert keeps the invariant of its connection, and the record never falls. */
  lemma InsertInv(sh: Shared, me: Conn, table: string, id: int, auto: set<string>)
    requires SharedInv(sh, auto) && ConnInv(sh, me, auto) && id <= MAX_INT64
    ensures var (sh', me') := Insert(sh, me, table, id, auto);
            SharedInv(sh', auto) && ConnInv(sh', me', auto) && sh'.alloc == Record(sh.alloc, table, Max(id, 0))
  {
    hide Filled, AfterInsert;
    FilledInv(sh, me, auto);
    var raised := Raised(sh, table, id, auto);
    assert table in auto ==> Seq(raised.sequence, table) >= Max(id, 0);
    AfterInsertInv(raised, me.(frames := Filled(me.frames, sh.sequence)), table, Max(id, 0), auto);
    InsertRecords(sh, me, table, id, auto);
  }

  lemma InsertRecords(sh: Shared, me: Conn, table: string, id: int, auto: set<string>)
    ensures Insert(sh, me, table, id, auto).0.alloc == Record(sh.alloc, table, Max(id, 0))
  {
  }

  /** The record only grows; a generated value is above what was recorded and is what is recorded next. */
  ghost predicate Advances(before: map<string, nat>, after: map<string, nat>, stmt: Statement, reply: Reply) {
    && (forall t :: Alloc(before, t) <= Alloc(after, t))
    && (reply.Generated? ==>
          Alloc(before, Table(stmt)) < reply.id == Alloc(after, Table(stmt)) && reply.id <= MAX_INT64)
    && (reply.Inserted? ==> reply.id <= Alloc(after, Table(stmt)))
  }

  /** The table an insert goes to. */
  function Table(stmt: Statement): string {
    match stmt
    case InsertGenerated(table, _) => table
    case InsertExplicit(table, _) => table
    case InsertComposite(table, _) => table
    case _ => ""
  }

  /**
   * What one statement of one connection keeps: the shared and its own invariant.  It advances the
   * record, and takes the write lock, only when no other connection is writing.
   */
  ghost predicate Keeps(sh: Shared, me: Conn, stmt: Statement, busy: bool, auto: set<string>) {
    var (sh', me', reply) := Exec(sh, me, stmt, busy, auto);
    && SharedInv(sh', auto) && ConnInv(sh', me', auto)
    && Advances(sh.alloc, sh'.alloc, stmt, reply)
    && (busy ==> sh'.alloc == sh.alloc && (Writing(me'.frames) ==> Writing(me.frames)))
  }

  lemma EndsKeep(sh: Shared, me: Conn, stmt: Statement, busy: bool, auto: set<string>)
    requires SharedInv(sh, auto) && ConnInv(sh, me, auto)
    requires stmt.Begin? || stmt.Commit? || stmt.Rollback? || stmt.RollbackAndChain?
    ensures Keeps(sh, me, stmt, busy, auto)
  {
    hide RestoreAll, Writing, AllOrNone, Covered;
    NoFrames(Exec(sh, me, stmt, busy, auto).0, auto);
    if me.frames != [] {
      GoBack(sh, me, 0, auto);
    }
  }

  lemma SavepointsKeep(sh: Shared, me: Conn, stmt: Statement, busy: bool, auto: set<string>)
    requires SharedInv(sh, auto) && ConnInv(sh, me, auto) && Allowed(me, stmt, auto)
    requires stmt.Savepoint? || stmt.RollbackTo? || stmt.Release?
    ensures Keeps(sh, me, stmt, busy, auto)
  {
    hide RestoreAll, Writing, AllOrNone, Covered;
    if stmt.Savepoint? {
      PushFrame(sh, me, stmt.name, auto);
    } else {
      var i := FindFrame(me.frames, stmt.name);
      if i >= 0 {
        GoBack(sh, me, i, auto);
        CutFrames(sh, me, if stmt.Release? then i else i + 1, auto);
        SameRecord(sh, Exec(sh, me, stmt, busy, auto).0, Exec(sh, me, stmt, busy, auto).1, auto);
      }
    }
  }

  lemma InsertsKeep(sh: Shared, me: Conn, stmt: Statement, busy: bool, auto: set<string>)
    requires SharedInv(sh, auto) && ConnInv(sh, me, auto) && Allowed(me, stmt, auto) && Table(stmt) != ""
    ensures Keeps(sh, me, stmt, busy, auto)
  {
    hide Insert, Writing, AllOrNone, Covered;
    match stmt
    case InsertGenerated(table, maxRow) =>
      var base := Max(Seq(sh.sequence, table), Max(maxRow, 0));
      if !busy && base < MAX_INT64 { InsertInv(sh, me, table, base + 1, auto); }
    case InsertExplicit(table, id) =>
      if !busy && id <= MAX_INT64 { InsertInv(sh, me, table, id, auto); }
    case InsertComposite(table, maxColumn) =>
      var base := Max(Max(maxColumn, 0), Alloc(sh.alloc, table));
      if !busy && base < MAX_INT64 { InsertInv(sh, me, table, base + 1, auto); }
  }

  lemma ExecKeeps(sh: Shared, me: Conn, stmt: Statement, busy: bool, auto: set<string>)
    requires SharedInv(sh, auto) && ConnInv(sh, me, auto) && Allowed(me, stmt, auto)
    ensures Keeps(sh, me, stmt, busy, auto)
  {
    hide Keeps, SharedInv, ConnInv;
    if Table(stmt) != "" {
      InsertsKeep(sh, me, stmt, busy, auto);
    } else if stmt.Savepoint? || stmt.RollbackTo? || stmt.Release? {
      SavepointsKeep(sh, me, stmt, busy, auto);
    } else {
      EndsKeep(sh, me, stmt, busy, auto);
    }
  }

  /** A connection's part of the invariant depends on the record only, not on the live sequences. */
  lemma SameRecord(sh: Shared, sh': Shared, other: Conn, auto: set<string>)
    requires ConnInv(sh, other, auto) && sh'.alloc == sh.alloc
    ensures ConnInv(sh', other, auto)
  {
  }

  // ---------------------------------------------------------------------------------------------
  // Whole runs
  // ---------------------------------------------------------------------------------------------

  datatype Event = Event(conn: nat, stmt: Statement)

  /** Every statement of the run is allowed when it comes. */
  predicate Legal(st: State, events: seq<Event>, auto: set<string>)
    decreases |events|
  {
    events == [] ||
    (var e := events[0];
     && e.conn in st.conns
     && Allowed(st.conns[e.conn], e.stmt, auto)
     && Legal(Step(st, e.conn, e.stmt, auto).0, events[1..], auto))
  }

  function Run(st: State, events: seq<Event>, auto: set<string>): (r: (State, seq<Reply>))
    requires Legal(st, events, auto)
    ensures |r.1| == |events|
    decreases |events|
  {
    if events == [] then (st, [])
    else
      var (next, reply) := Step(st, events[0].conn, events[0].stmt, auto);
      var (end, replies) := Run(next, events[1..], auto);
      (end, [reply] + replies)
  }

  /** While no other connection writes, their part holds for any record: they have no snapshots. */
  lemma QuietConn(sh': Shared, other: Conn, auto: set<string>)
    requires InOrder(other) && !Writing(other.frames)
    ensures ConnInv(sh', other, auto)
  {
  }

  /** One statement of any connection keeps the invariant of the whole server. */
  lemma StepInv(st: State, c: nat, stmt: Statement, auto: set<string>)
    requires Inv(st, auto) && c in st.conns && Allowed(st.conns[c], stmt, auto)
    ensures Inv(Step(st, c, stmt, auto).0, auto)
    ensures Advances(st.sh.alloc, Step(st, c, stmt, auto).0.sh.alloc, stmt, Step(st, c, stmt, auto).1)
  {
    hide Exec, Writing, InOrder, Covered, SharedInv;
    var busy := Busy(st, c);
    ExecKeeps(st.sh, st.conns[c], stmt, busy, auto);
    var (sh', me', reply) := Exec(st.sh, st.conns[c], stmt, busy, auto);
    var st' := Step(st, c, stmt, auto).0;
    forall d | d in st'.conns
      ensures ConnInv(sh', st'.conns[d], auto)
    {
      if d != c {
        if busy { SameRecord(st.sh, sh', st.conns[d], auto); } else { QuietConn(sh', st.conns[d], auto); }
      }
    }
    forall d | d in st'.conns && Writing(st'.conns[d].frames)
      ensures !Busy(st', d)
    {
      OneWriter(st, c, me', d);
    }
  }

  lemma AnotherWrites(st: State, c: nat, d: nat)
    requires c in st.conns && d in st.conns && d != c
    ensures Writing(st.conns[d].frames) ==> Busy(st, c)
  {
  }

  lemma OneWriter(st: State, c: nat, me': Conn, d: nat)
    requires forall k :: k in st.conns && Writing(st.conns[k].frames) ==> !Busy(st, k)
    requires c in st.conns && (Busy(st, c) ==> (Writing(me'.frames) ==> Writing(st.conns[c].frames)))
    requires d in st.conns[c := me'] && Writing(st.conns[c := me'][d].frames)
    ensures !Busy(State(st.sh, st.conns[c := me']), d)
  {
    hide Writing;
    var conns := st.conns[c := me'];
    forall k | k in conns && k != d
      ensures !Writing(conns[k].frames)
    {
      if d == c { AnotherWrites(st, c, k); } else if k == c { AnotherWrites(st, c, d); } else { AnotherWrites(st, d, k); }
    }
  }

  /** From any good state on, every generated value is above what is recorded, and the record only grows. */
  lemma {:induction false} RunAbove(st: State, events: seq<Event>, auto: set<string>, j: nat)
    requires Inv(st, auto) && Legal(st, events, auto) && j < |events|
    ensures Inv(Run(st, events, auto).0, auto)
    ensures Run(st, events, auto).1[j].Generated? ==>
              Alloc(st.sh.alloc, Table(events[j].stmt)) < Run(st, events, auto).1[j].id <= MAX_INT64
    decreases |events|
  {
    hide Inv, Step;
    StepInv(st, events[0].conn, events[0].stmt, auto);
    var (next, reply) := Step(st, events[0].conn, events[0].stmt, auto);
    if j > 0 {
      RunAbove(next, events[1..], auto, j - 1);
      assert events[j] == events[1..][j - 1];
    } else if events[1..] != [] {
      RunAbove(next, events[1..], auto, 0);
    }
  }

  /**
   * No value is handed out twice: over every run of every number of connections, a value generated
   * for a table is above every value generated for it or inserted into it before, whatever was
   * rolled back in between, and never above 2^63-1.
   */
  lemma {:induction false} NoValueReuse(st: State, events: seq<Event>, auto: set<string>, i: nat, j: nat)
    requires Inv(st, auto) && Legal(st, events, auto)
    requires i < j < |events| && Table(events[i].stmt) == Table(events[j].stmt)
    requires Run(st, events, auto).1[i].Generated? || Run(st, events, auto).1[i].Inserted?
    ensures Run(st, events, auto).1[j].Generated? ==>
              Run(st, events, auto).1[i].id < Run(st, events, auto).1[j].id <= MAX_INT64
    decreases |events|
  {
    hide Inv, Step;
    StepInv(st, events[0].conn, events[0].stmt, auto);
    var next := Step(st, events[0].conn, events[0].stmt, auto).0;
    assert events[j] == events[1..][j - 1];
    if i == 0 {
      RunAbove(next, events[1..], auto, j - 1);
    } else {
      assert events[i] == events[1..][i - 1];
      NoValueReuse(next, events[1..], auto, i - 1, j - 1);
    }
  }

  /** A freshly started or reset server: nothing recorded, no transaction open. */
  lemma FreshServer(sequence: map<string, int>, conns: set<nat>, auto: set<string>)
    requires forall t :: t in sequence ==> 0 <= sequence[t]
    ensures Inv(State(Shared(sequence, map[]), map c | c in conns :: Conn([], false, {})), auto)
  {
  }

  // ---------------------------------------------------------------------------------------------
  // Where the guarantee ends
  // ---------------------------------------------------------------------------------------------

  /**
   * From every good state: an insert behind a savepoint, going back to the savepoint, and the same
   * insert again hand out the same value exactly when the status flag does not show the transaction.
   */
  lemma SavepointRepeats(sh: Shared, me: Conn, name: string, table: string, maxRow: int, auto: set<string>)
    requires SharedInv(sh, auto) && ConnInv(sh, me, auto) && table in auto && table != ""
    requires Max(Seq(sh.sequence, table), Max(maxRow, 0)) + 1 < MAX_INT64
    ensures var (s1, c1, _) := Exec(sh, me, Savepoint(name), false, auto);
            var (s2, c2, r2) := Exec(s1, c1, InsertGenerated(table, maxRow), false, auto);
            var (s3, c3, r3) := Exec(s2, c2, RollbackTo(name), false, auto);
            var (s4, c4, r4) := Exec(s3, c3, InsertGenerated(table, maxRow), false, auto);
            r2.Generated? && r3.Done? && r4.Generated? && (r2.id == r4.id <==> !me.inTrans)
  {
    hide Covered, FindFrame, AtLeast;
    var (s1, c1, _) := Exec(sh, me, Savepoint(name), false, auto);
    InsertsBehind(sh, me, name, table, maxRow, auto);
    var (s2, c2, r2) := Exec(s1, c1, InsertGenerated(table, maxRow), false, auto);
    GoesBack(sh, s2, c2, |me.frames|, name, auto);
    assert me.inTrans || me.restore == {};
    Repeated(s2.(sequence := sh.sequence), c2.restore, table, r2.id, auto);
    hide Exec;
  }

  /** Behind a savepoint the insert goes through, and marks the table if the status flag is set. */
  lemma InsertsBehind(sh: Shared, me: Conn, name: string, table: string, maxRow: int, auto: set<string>)
    requires SharedInv(sh, auto) && AllOrNone(me.frames) && table in auto && table != ""
    requires Max(Seq(sh.sequence, table), Max(maxRow, 0)) + 1 < MAX_INT64
    ensures var (s1, c1, _) := Exec(sh, me, Savepoint(name), false, auto);
            var (s2, c2, r2) := Exec(s1, c1, InsertGenerated(table, maxRow), false, auto);
            var n := |me.frames|;
            && r2 == Generated(Max(Seq(sh.sequence, table), Max(maxRow, 0)) + 1)
            && |c2.frames| == n + 1 && c2.frames[n] == Frame(Some(name), Some(sh.sequence))
            && Alloc(s2.alloc, table) == r2.id
            && c2.restore == (if me.inTrans then me.restore + {table} else me.restore)
  {
  }

  lemma GoesBack(sh: Shared, s2: Shared, c2: Conn, n: nat, name: string, auto: set<string>)
    requires |c2.frames| == n + 1 && c2.frames[n] == Frame(Some(name), Some(sh.sequence))
    ensures var (s3, _, r3) := Exec(s2, c2, RollbackTo(name), false, auto);
            r3 == Done && s3 == RestoreAll(s2.(sequence := sh.sequence), c2.restore, auto)
  {
    assert FindFrame(c2.frames, name) == n;
    hide RestoreAll;
  }

  /** The sequence after going back: what it was, or raised to the allocation if the table is marked. */
  lemma Repeated(back: Shared, restore: set<string>, table: string, id: nat, auto: set<string>)
    requires table in auto && Alloc(back.alloc, table) == id > Seq(back.sequence, table) && 0 < id <= MAX_INT64
    ensures Seq(RestoreAll(back, restore, auto).sequence, table) == if table in restore then id else Seq(back.sequence, table)
  {
  }

  /** A savepoint outside BEGIN opens a transaction the status flag does not show: the table is not marked. */
  lemma BareSavepointReuses()
    ensures var c0 := Conn([], false, {});
            var (s1, c1, _) := Exec(Shared(map[], map[]), c0, Savepoint("s"), false, {"t"});
            var (s2, c2, r2) := Exec(s1, c1, InsertGenerated("t", 0), false, {"t"});
            var (s3, c3, _) := Exec(s2, c2, RollbackTo("s"), false, {"t"});
            var (s4, c4, r4) := Exec(s3, c3, InsertGenerated("t", 0), false, {"t"});
            r2 == Generated(1) && r4 == Generated(1)
  {
    var c0 := Conn([], false, {});
    var s0 := Shared(map[], map[]);
    var (s1, c1, _) := Exec(s0, c0, Savepoint("s"), false, {"t"});
    assert c1.frames == [Frame(Some("s"), None)];
    var (s2, c2, r2) := Exec(s1, c1, InsertGenerated("t", 0), false, {"t"});
    assert c2.frames == [Frame(Some("s"), Some(map[]))] && c2.restore == {};
    assert FindFrame(c2.frames, "s") == 0;
    assert Seq(RestoreAll(s2.(sequence := map[]), {}, {"t"}).sequence, "t") == 0;
  }

  /** The two SQLite steps of ROLLBACK are not one: an insert of another connection fits in between. */
  lemma InsertBetweenRollbackAndRestoreReuses()
    ensures var c0 := Conn([Frame(None, None)], true, {});
            var (s1, c1, r1) := Exec(Shared(map[], map[]), c0, InsertGenerated("t", 0), false, {"t"});
            var rolledBack := s1.(sequence := Snapshot(c1.frames[0], s1.sequence));
            var (s2, _, r2) := Exec(rolledBack, Conn([], false, {}), InsertGenerated("t", 0), false, {"t"});
            r1 == Generated(1) && r2 == Generated(1) &&
            Seq(RestoreAll(s2, c1.restore, {"t"}).sequence, "t") == 1
  {
    var (s1, c1, r1) := Exec(Shared(map[], map[]), Conn([Frame(None, None)], true, {}), InsertGenerated("t", 0), false, {"t"});
    assert c1.frames == [Frame(None, Some(map[]))];
  }
}
