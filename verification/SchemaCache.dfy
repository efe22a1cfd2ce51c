/**
 * The version-tagged metadata caches under interleaving (tableColumns and uniqueKeys in
 * pkg/mysqlmock/upsert.go, sqliteTableUsesAutoincrement in pkg/mysqlmock/auto_increment_compat.go,
 * bumpSchemaVersion in pkg/mysqlmock/server.go).
 *
 * A lookup reads the version, checks the cache, reads the catalogue and stores; a schema change is
 * committed, announced, and followed by clearing the caches.  Any number of connections take these
 * steps in any order.
 */
module SchemaCache {
  import opened Options
  import opened SchemaHistory

  datatype ColumnsEntry = ColumnsEntry(version: nat, columns: seq<string>)
  datatype KeysEntry = KeysEntry(version: nat, columns: seq<string>, indexes: seq<string>)

  /** Where a connection is; `since` are the changes announced when its lookup began. */
  datatype Phase =
    | Idle
    | Changed(change: nat)
    | Announced
    | ColumnsBegun(table: string, version: nat, since: set<nat>)
    | ColumnsMissed(table: string, version: nat, since: set<nat>)
    | ColumnsRead(table: string, version: nat, since: set<nat>, columns: seq<string>)
    | ColumnsDone(table: string, since: set<nat>, columns: seq<string>)
    | KeysBegun(table: string, version: nat, since: set<nat>)
    | KeysMissed(table: string, version: nat, since: set<nat>)
    | KeysColumnsBegun(table: string, version: nat, since: set<nat>, inner: nat)
    | KeysColumnsMissed(table: string, version: nat, since: set<nat>, inner: nat)
    | KeysColumnsRead(table: string, version: nat, since: set<nat>, inner: nat, columns: seq<string>)
    | KeysColumnsDone(table: string, version: nat, since: set<nat>, columns: seq<string>)
    | KeysRead(table: string, version: nat, since: set<nat>, columns: seq<string>, indexes: seq<string>)
    | KeysDone(table: string, since: set<nat>, columns: seq<string>, indexes: seq<string>)

  datatype State = State(history: History, columns: map<string, ColumnsEntry>, keys: map<string, KeysEntry>,
                         phases: map<nat, Phase>)

  function Columns(c: Catalog, table: string): seq<string> {
    if table in c then c[table].columns else []
  }

  function Indexes(c: Catalog, table: string): seq<string> {
    if table in c then c[table].indexes else []
  }

  /** What an idle connection sets out to do. */
  datatype Task = ChangeSchema(next: Catalog) | LookUpColumns(table: string) | LookUpKeys(table: string)

  function Bumped(h: History): set<nat> {
    h.bumps.Keys
  }

  /** What a step does to the shared fields, and the phase it leads to. */
  datatype Effect = Effect(history: History, columns: map<string, ColumnsEntry>, keys: map<string, KeysEntry>, phase: Phase)

  function To(st: State, phase: Phase): Effect {
    Effect(st.history, st.columns, st.keys, phase)
  }

  /** One step of a connection in the given phase; `task` matters only when it is idle or done. */
  function Next(st: State, phase: Phase, task: Task): Effect
    requires st.history.catalogs != []
  {
    var h := st.history;
    match phase
    case Changed(i) => To(st.(history := Bump(h, i)), Announced)
    case Announced => To(st.(columns := map[], keys := map[]), Idle)
    case ColumnsBegun(t, v, since) =>
      if t in st.columns && st.columns[t].version == v then To(st, ColumnsDone(t, since, st.columns[t].columns))
      else To(st, ColumnsMissed(t, v, since))
    case ColumnsMissed(t, v, since) => To(st, ColumnsRead(t, v, since, Columns(Current(h), t)))
    case ColumnsRead(t, v, since, columns) =>
      To(st.(columns := st.columns[t := ColumnsEntry(v, columns)]), ColumnsDone(t, since, columns))
    case KeysBegun(t, v, since) =>
      if t in st.keys && st.keys[t].version == v then To(st, KeysDone(t, since, st.keys[t].columns, st.keys[t].indexes))
      else To(st, KeysMissed(t, v, since))
    case KeysMissed(t, v, since) => To(st, KeysColumnsBegun(t, v, since, h.version))
    case KeysColumnsBegun(t, v, since, inner) =>
      if t in st.columns && st.columns[t].version == inner then To(st, KeysColumnsDone(t, v, since, st.columns[t].columns))
      else To(st, KeysColumnsMissed(t, v, since, inner))
    case KeysColumnsMissed(t, v, since, inner) => To(st, KeysColumnsRead(t, v, since, inner, Columns(Current(h), t)))
    case KeysColumnsRead(t, v, since, inner, columns) =>
      To(st.(columns := st.columns[t := ColumnsEntry(inner, columns)]), KeysColumnsDone(t, v, since, columns))
    case KeysColumnsDone(t, v, since, columns) => To(st, KeysRead(t, v, since, columns, Indexes(Current(h), t)))
    case KeysRead(t, v, since, columns, indexes) =>
      To(st.(keys := st.keys[t := KeysEntry(v, columns, indexes)]), KeysDone(t, since, columns, indexes))
    case _ => Begin(st, task)
  }

  function Begin(st: State, task: Task): Effect
    requires st.history.catalogs != []
  {
    var h := st.history;
    match task
    case ChangeSchema(next) => To(st.(history := Change(h, next)), Changed(Changes(h) + 1))
    case LookUpColumns(t) => To(st, ColumnsBegun(t, h.version, Bumped(h)))
    case LookUpKeys(t) => To(st, KeysBegun(t, h.version, Bumped(h)))
  }

  function Step(st: State, c: nat, task: Task): State
    requires c in st.phases && st.history.catalogs != []
  {
    var e := Next(st, st.phases[c], task);
    State(e.history, e.columns, e.keys, st.phases[c := e.phase])
  }

  function At(st: State, c: nat, phase: Phase): State {
    st.(phases := st.phases[c := phase])
  }

  // ---------------------------------------------------------------------------------------------
  // What every step keeps
  // ---------------------------------------------------------------------------------------------

  /** The columns were read after every change announced by version `v`. */
  ghost predicate FreshColumns(h: History, table: string, v: nat, columns: seq<string>) {
    v <= h.version && exists k: nat :: Covers(h, k, v) && columns == Columns(h.catalogs[k], table)
  }

  ghost predicate FreshIndexes(h: History, table: string, v: nat, indexes: seq<string>) {
    v <= h.version && exists k: nat :: Covers(h, k, v) && indexes == Indexes(h.catalogs[k], table)
  }

  /** The changes a lookup must reflect were announced by the version it read. */
  predicate Started(h: History, v: nat, since: set<nat>) {
    v <= h.version && forall i :: i in since ==> i in h.bumps && h.bumps[i] <= v
  }

  /** A result reflects every change in `since`. */
  ghost predicate Reflects(h: History, table: string, since: set<nat>, columns: seq<string>) {
    exists k: nat :: k < |h.catalogs| && columns == Columns(h.catalogs[k], table) && forall i :: i in since ==> i <= k
  }

  ghost predicate ReflectsIndexes(h: History, table: string, since: set<nat>, indexes: seq<string>) {
    exists k: nat :: k < |h.catalogs| && indexes == Indexes(h.catalogs[k], table) && forall i :: i in since ==> i <= k
  }

  ghost predicate PhaseInv(h: History, phase: Phase) {
    match phase
    case Idle => true
    case Changed(i) => 0 < i < |h.catalogs| && i !in h.bumps
    case Announced => true
    case ColumnsBegun(t, v, since) => Started(h, v, since)
    case ColumnsMissed(t, v, since) => Started(h, v, since)
    case ColumnsRead(t, v, since, columns) => Started(h, v, since) && FreshColumns(h, t, v, columns)
    case ColumnsDone(t, since, columns) => Reflects(h, t, since, columns)
    case KeysBegun(t, v, since) => Started(h, v, since)
    case KeysMissed(t, v, since) => Started(h, v, since)
    case KeysColumnsBegun(t, v, since, inner) => Started(h, v, since) && v <= inner <= h.version
    case KeysColumnsMissed(t, v, since, inner) => Started(h, v, since) && v <= inner <= h.version
    case KeysColumnsRead(t, v, since, inner, columns) =>
      Started(h, v, since) && v <= inner && FreshColumns(h, t, inner, columns)
    case KeysColumnsDone(t, v, since, columns) => Started(h, v, since) && FreshColumns(h, t, v, columns)
    case KeysRead(t, v, since, columns, indexes) =>
      Started(h, v, since) && FreshColumns(h, t, v, columns) && FreshIndexes(h, t, v, indexes)
    case KeysDone(t, since, columns, indexes) => Reflects(h, t, since, columns) && ReflectsIndexes(h, t, since, indexes)
  }

  ghost predicate EntriesInv(st: State) {
    && (forall t :: t in st.columns ==> FreshColumns(st.history, t, st.columns[t].version, st.columns[t].columns))
    && (forall t :: t in st.keys ==>
          && FreshColumns(st.history, t, st.keys[t].version, st.keys[t].columns)
          && FreshIndexes(st.history, t, st.keys[t].version, st.keys[t].indexes))
  }

  /** No two connections are about to announce the same change. */
  predicate OwnChanges(phases: map<nat, Phase>) {
    forall c, d :: c in phases && d in phases && c != d && phases[c].Changed? && phases[d].Changed? ==>
      phases[c].change != phases[d].change
  }

  ghost predicate Inv(st: State) {
    && Valid(st.history)
    && EntriesInv(st)
    && OwnChanges(st.phases)
    && (forall c :: c in st.phases ==> PhaseInv(st.history, st.phases[c]))
  }

  lemma GrowsEntries(st: State, h': History)
    requires EntriesInv(st) && Grows(st.history, h')
    ensures EntriesInv(st.(history := h'))
  {
    hide Covers;
    forall t | t in st.columns
      ensures FreshColumns(h', t, st.columns[t].version, st.columns[t].columns)
    {
      GrowsColumns(st.history, h', t, st.columns[t].version, st.columns[t].columns);
    }
    forall t | t in st.keys
      ensures FreshColumns(h', t, st.keys[t].version, st.keys[t].columns)
      ensures FreshIndexes(h', t, st.keys[t].version, st.keys[t].indexes)
    {
      GrowsColumns(st.history, h', t, st.keys[t].version, st.keys[t].columns);
      GrowsIndexes(st.history, h', t, st.keys[t].version, st.keys[t].indexes);
    }
  }

  lemma GrowsColumns(h: History, h': History, table: string, v: nat, columns: seq<string>)
    requires FreshColumns(h, table, v, columns) && Grows(h, h')
    ensures FreshColumns(h', table, v, columns)
  {
    var k: nat :| Covers(h, k, v) && columns == Columns(h.catalogs[k], table);
    assert Covers(h', k, v) && h'.catalogs[k] == h.catalogs[k];
  }

  lemma GrowsIndexes(h: History, h': History, table: string, v: nat, indexes: seq<string>)
    requires FreshIndexes(h, table, v, indexes) && Grows(h, h')
    ensures FreshIndexes(h', table, v, indexes)
  {
    var k: nat :| Covers(h, k, v) && indexes == Indexes(h.catalogs[k], table);
    assert Covers(h', k, v) && h'.catalogs[k] == h.catalogs[k];
  }

  lemma GrowsPhase(h: History, h': History, phase: Phase)
    requires PhaseInv(h, phase) && Grows(h, h')
    requires phase.Changed? ==> phase.change !in h'.bumps
    ensures PhaseInv(h', phase)
  {
    hide Covers, FreshColumns, FreshIndexes;
    match phase
    case ColumnsRead(t, v, since, columns) => GrowsColumns(h, h', t, v, columns);
    case KeysColumnsRead(t, v, since, inner, columns) => GrowsColumns(h, h', t, inner, columns);
    case KeysColumnsDone(t, v, since, columns) => GrowsColumns(h, h', t, v, columns);
    case KeysRead(t, v, since, columns, indexes) =>
      GrowsColumns(h, h', t, v, columns);
      GrowsIndexes(h, h', t, v, indexes);
    case _ =>
  }

  /** Reading the catalogue now is fresh for every version there has been. */
  lemma ReadIsFresh(h: History, table: string, v: nat)
    requires Valid(h) && v <= h.version
    ensures FreshColumns(h, table, v, Columns(Current(h), table)) && FreshIndexes(h, table, v, Indexes(Current(h), table))
  {
    CurrentCovers(h, v);
  }

  lemma OlderIsFresh(h: History, table: string, v: nat, w: nat, columns: seq<string>)
    requires FreshColumns(h, table, w, columns) && v <= w
    ensures FreshColumns(h, table, v, columns)
  {
    var k: nat :| Covers(h, k, w) && columns == Columns(h.catalogs[k], table);
    CoversEarlier(h, k, w, v);
  }

  /** What is fresh for the version a lookup read reflects every change announced before it began. */
  lemma FreshReflects(h: History, table: string, v: nat, since: set<nat>, columns: seq<string>)
    requires Started(h, v, since) && FreshColumns(h, table, v, columns)
    ensures Reflects(h, table, since, columns)
  {
    var k: nat :| Covers(h, k, v) && columns == Columns(h.catalogs[k], table);
    assert k < |h.catalogs| && forall i :: i in since ==> i <= k;
  }

  lemma FreshReflectsIndexes(h: History, table: string, v: nat, since: set<nat>, indexes: seq<string>)
    requires Started(h, v, since) && FreshIndexes(h, table, v, indexes)
    ensures ReflectsIndexes(h, table, since, indexes)
  {
    var k: nat :| Covers(h, k, v) && indexes == Indexes(h.catalogs[k], table);
    assert k < |h.catalogs| && forall i :: i in since ==> i <= k;
  }

  predicate Begins(phase: Phase) {
    phase.Idle? || phase.ColumnsDone? || phase.KeysDone?
  }

  predicate InColumns(phase: Phase) {
    phase.ColumnsBegun? || phase.ColumnsMissed? || phase.ColumnsRead?
  }

  /** A step that only reads, stores or clears leaves the history and the other connections alone. */
  lemma StepShape(st: State, c: nat, task: Task)
    requires c in st.phases && st.history.catalogs != []
    requires !st.phases[c].Changed? && !(Begins(st.phases[c]) && task.ChangeSchema?)
    ensures var st' := Step(st, c, task);
            st'.history == st.history && c in st'.phases && st'.phases == st.phases[c := st'.phases[c]] && !st'.phases[c].Changed?
  {
    NextShape(st, st.phases[c], task);
    hide Next;
  }

  lemma NextShape(st: State, phase: Phase, task: Task)
    requires st.history.catalogs != [] && !phase.Changed? && !(Begins(phase) && task.ChangeSchema?)
    ensures Next(st, phase, task).history == st.history && !Next(st, phase, task).phase.Changed?
  {
  }

  lemma ColumnsPhase(st: State, c: nat, task: Task)
    requires Inv(st) && c in st.phases && InColumns(st.phases[c])
    ensures PhaseInv(st.history, Step(st, c, task).phases[c])
  {
    hide FreshColumns, FreshIndexes, Reflects, ReflectsIndexes, Columns, Indexes, Valid, Started, OwnChanges;
    var h := st.history;
    match st.phases[c]
    case ColumnsBegun(t, v, since) =>
      if t in st.columns && st.columns[t].version == v { FreshReflects(h, t, v, since, st.columns[t].columns); }
    case ColumnsMissed(t, v, since) => StartedVersion(h, v, since); ReadIsFresh(h, t, v);
    case ColumnsRead(t, v, since, columns) => FreshReflects(h, t, v, since, columns);
  }

  lemma StartedVersion(h: History, v: nat, since: set<nat>)
    requires Started(h, v, since)
    ensures v <= h.version
  {
  }

  lemma KeysPhase(st: State, c: nat, task: Task)
    requires Inv(st) && c in st.phases && !InColumns(st.phases[c]) && !Begins(st.phases[c])
    requires !st.phases[c].Changed? && !st.phases[c].Announced?
    ensures PhaseInv(st.history, Step(st, c, task).phases[c])
  {
    hide Begin, Bumped, FreshColumns, FreshIndexes, Reflects, ReflectsIndexes, Columns, Indexes, Valid, Started, OwnChanges;
    var h := st.history;
    match st.phases[c]
    case KeysBegun(t, v, since) =>
      if t in st.keys && st.keys[t].version == v {
        FreshReflects(h, t, v, since, st.keys[t].columns);
        FreshReflectsIndexes(h, t, v, since, st.keys[t].indexes);
      }
    case KeysMissed(t, v, since) => StartedVersion(h, v, since);
    case KeysColumnsBegun(t, v, since, inner) =>
      if t in st.columns && st.columns[t].version == inner { OlderIsFresh(h, t, v, inner, st.columns[t].columns); }
    case KeysColumnsMissed(t, v, since, inner) => ReadIsFresh(h, t, inner);
    case KeysColumnsRead(t, v, since, inner, columns) => OlderIsFresh(h, t, v, inner, columns);
    case KeysColumnsDone(t, v, since, columns) => StartedVersion(h, v, since); ReadIsFresh(h, t, v);
    case KeysRead(t, v, since, columns, indexes) =>
      FreshReflects(h, t, v, since, columns);
      FreshReflectsIndexes(h, t, v, since, indexes);
  }

  predicate Stores(phase: Phase) {
    phase.ColumnsRead? || phase.KeysColumnsRead? || phase.KeysRead?
  }

  /** Other steps leave the entries alone, or drop them all. */
  lemma NoStore(st: State, phase: Phase, task: Task)
    requires st.history.catalogs != [] && !Stores(phase)
    ensures var e := Next(st, phase, task);
            (e.columns == st.columns && e.keys == st.keys) || (e.columns == map[] && e.keys == map[])
  {
    hide Begin;
    BeginShape(st, task);
  }

  lemma BeginShape(st: State, task: Task)
    requires st.history.catalogs != []
    ensures Begin(st, task).columns == st.columns && Begin(st, task).keys == st.keys
  {
  }

  /** What is stored was fresh when it was read. */
  lemma StoreKeeps(st: State, c: nat, task: Task)
    requires Inv(st) && c in st.phases && !st.phases[c].Changed? && !(Begins(st.phases[c]) && task.ChangeSchema?)
    ensures EntriesInv(Step(st, c, task))
  {
    hide FreshColumns, FreshIndexes, Reflects, ReflectsIndexes, Columns, Indexes, Valid, Started, OwnChanges;
    assert PhaseInv(st.history, st.phases[c]);
    InvValid(st);
    NextShape(st, st.phases[c], task);
    if !Stores(st.phases[c]) {
      NoStore(st, st.phases[c], task);
      hide Next, PhaseInv;
    }
  }

  lemma NextPhase(st: State, c: nat, task: Task)
    requires Inv(st) && c in st.phases && !st.phases[c].Changed? && !(Begins(st.phases[c]) && task.ChangeSchema?)
    ensures PhaseInv(st.history, Step(st, c, task).phases[c])
  {
    if InColumns(st.phases[c]) {
      ColumnsPhase(st, c, task);
    } else if Begins(st.phases[c]) {
      BeginStarted(st, task);
    } else if !st.phases[c].Announced? {
      KeysPhase(st, c, task);
    }
  }

  lemma BeginStarted(st: State, task: Task)
    requires Valid(st.history) && !task.ChangeSchema?
    ensures PhaseInv(st.history, Begin(st, task).phase)
  {
  }

  /** Every step of every connection keeps the invariant: each entry tagged v was read after the changes announced by v. */
  lemma StepInv(st: State, c: nat, task: Task)
    requires Inv(st) && c in st.phases
    ensures Inv(Step(st, c, task))
  {
    hide EntriesInv, Grows;
    var h := st.history;
    var st' := Step(st, c, task);
    if st.phases[c].Changed? {
      BumpGrows(h, st.phases[c].change);
      HistoryStep(st, c, Announced, st'.history);
    } else if Begins(st.phases[c]) && task.ChangeSchema? {
      ChangeGrows(h, task.next);
      NewChange(st, c, task.next);
      HistoryStep(st, c, Changed(Changes(h) + 1), st'.history);
    } else {
      NotBegun(st, c, task);
    }
  }

  lemma NotBegun(st: State, c: nat, task: Task)
    requires Inv(st) && c in st.phases && !st.phases[c].Changed? && !(Begins(st.phases[c]) && task.ChangeSchema?)
    ensures Inv(Step(st, c, task))
  {
    hide Step, PhaseInv, EntriesInv;
    StepShape(st, c, task);
    NextPhase(st, c, task);
    StoreKeeps(st, c, task);
  }

  lemma NewChange(st: State, c: nat, next: Catalog)
    requires Inv(st)
    ensures PhaseInv(Change(st.history, next), Changed(Changes(st.history) + 1))
    ensures forall d :: d in st.phases && st.phases[d].Changed? ==> st.phases[d].change != Changes(st.history) + 1
  {
    hide EntriesInv;
    forall d | d in st.phases && st.phases[d].Changed?
      ensures st.phases[d].change != Changes(st.history) + 1
    {
      assert PhaseInv(st.history, st.phases[d]);
    }
  }

  /** A step that extends the history. */
  lemma HistoryStep(st: State, c: nat, phase: Phase, h': History)
    requires Inv(st) && c in st.phases && Grows(st.history, h') && PhaseInv(h', phase)
    requires forall d :: d in st.phases && d != c && st.phases[d].Changed? ==> st.phases[d].change !in h'.bumps
    requires phase.Changed? ==> forall d :: d in st.phases && st.phases[d].Changed? ==> st.phases[d].change != phase.change
    ensures Inv(At(st.(history := h'), c, phase))
  {
    hide PhaseInv, EntriesInv;
    GrowsEntries(st, h');
    SameEntries(st.(history := h'), c, phase);
    forall d | d in st.phases && d != c
      ensures PhaseInv(h', st.phases[d])
    {
      GrowsPhase(st.history, h', st.phases[d]);
    }
  }

  lemma SameEntries(st: State, c: nat, phase: Phase)
    ensures EntriesInv(At(st, c, phase)) == EntriesInv(st)
  {
  }

  // ---------------------------------------------------------------------------------------------
  // Whole runs
  // ---------------------------------------------------------------------------------------------

  /** A step of a connection, or a ROLLBACK that puts an earlier catalogue back. */
  datatype Move = Act(conn: nat, task: Task) | Undo(earlier: Catalog)

  /** No connection announces what a ROLLBACK puts back. */
  function RolledBack(st: State, earlier: Catalog): State {
    st.(history := Change(st.history, earlier))
  }

  predicate Connected(st: State, moves: seq<Move>) {
    forall m :: m in moves && m.Act? ==> m.conn in st.phases
  }

  function Run(st: State, moves: seq<Move>): State
    requires st.history.catalogs != [] && Connected(st, moves)
  {
    if moves == [] then st
    else
      var before := Run(st, moves[..|moves| - 1]);
      match moves[|moves| - 1]
      case Undo(earlier) => RolledBack(before, earlier)
      case Act(conn, task) =>
        if conn in before.phases && before.history.catalogs != [] then Step(before, conn, task) else before
  }

  /** A ROLLBACK keeps the invariant too: each entry was read after the changes announced by its version. */
  lemma UndoInv(st: State, earlier: Catalog)
    requires Inv(st)
    ensures Inv(RolledBack(st, earlier))
  {
    hide EntriesInv, PhaseInv, Grows;
    var h' := Change(st.history, earlier);
    ChangeGrows(st.history, earlier);
    GrowsEntries(st, h');
    forall d | d in st.phases
      ensures PhaseInv(h', st.phases[d])
    {
      NotYetAnnounced(st.history, st.phases[d]);
      GrowsPhase(st.history, h', st.phases[d]);
    }
  }

  lemma NotYetAnnounced(h: History, phase: Phase)
    requires PhaseInv(h, phase)
    ensures phase.Changed? ==> phase.change !in h.bumps
  {
  }

  lemma {:induction false} RunInv(st: State, moves: seq<Move>)
    requires Inv(st) && Connected(st, moves)
    ensures Inv(Run(st, moves)) && Run(st, moves).phases.Keys == st.phases.Keys
  {
    hide Inv, Step;
    InvValid(st);
    if moves != [] {
      var last := moves[|moves| - 1];
      RunInv(st, moves[..|moves| - 1]);
      var before := Run(st, moves[..|moves| - 1]);
      InvValid(before);
      match last
      case Undo(earlier) => UndoInv(before, earlier);
      case Act(conn, task) =>
        StepInv(before, conn, task);
        StepKeys(before, conn, task);
    }
  }

  lemma InvValid(st: State)
    requires Inv(st)
    ensures st.history.catalogs != []
  {
  }

  lemma StepKeys(st: State, c: nat, task: Task)
    requires c in st.phases && st.history.catalogs != []
    ensures Step(st, c, task).phases.Keys == st.phases.Keys + {c}
  {
    hide Next;
  }

  /** A server that has just started: nothing cached, every connection idle. */
  lemma StartInv(catalog: Catalog, conns: set<nat>)
    ensures Inv(State(History([catalog], map[], 0), map[], map[], map c | c in conns :: Idle))
  {
  }

  /**
   * No stale hit: in every run of any number of connections, rollbacks included, whatever a lookup
   * returns - from the cache or not - was in the catalogue after every change announced before the
   * lookup began.
   */
  lemma NoStaleHit(st: State, moves: seq<Move>, c: nat)
    requires Inv(st) && c in st.phases && Connected(st, moves)
    ensures var st' := Run(st, moves);
            c in st'.phases &&
            match st'.phases[c]
            case ColumnsDone(t, since, columns) => Reflects(st'.history, t, since, columns)
            case KeysDone(t, since, columns, indexes) =>
              Reflects(st'.history, t, since, columns) && ReflectsIndexes(st'.history, t, since, indexes)
            case _ => true
  {
    RunInv(st, moves);
  }

  /** When the last change was an announced one, no ROLLBACK, a hit for the current version is the current catalogue. */
  lemma QuietHitIsCurrent(st: State, table: string)
    requires Inv(st) && LatestAnnounced(st.history)
    ensures table in st.columns && st.columns[table].version == st.history.version ==>
              st.columns[table].columns == Columns(Current(st.history), table)
    ensures table in st.keys && st.keys[table].version == st.history.version ==>
              st.keys[table].columns == Columns(Current(st.history), table) &&
              st.keys[table].indexes == Indexes(Current(st.history), table)
  {
    var h := st.history;
    forall k: nat | Covers(h, k, h.version)
      ensures k == Changes(h)
    {
      LatestIsCurrent(h, k);
    }
  }

  /**
   * A ROLLBACK leaves every entry in place: one that was current is still a hit for the current
   * version, and is the current catalogue exactly when the ROLLBACK did not change the table.
   */
  lemma HitAfterRollback(st: State, earlier: Catalog, table: string)
    requires Inv(st) && LatestAnnounced(st.history)
    requires table in st.columns && st.columns[table].version == st.history.version
    ensures var st' := RolledBack(st, earlier);
            && table in st'.columns && st'.columns[table].version == st'.history.version
            && (st'.columns[table].columns == Columns(Current(st'.history), table) <==>
                  Columns(Current(st.history), table) == Columns(earlier, table))
  {
    QuietHitIsCurrent(st, table);
  }

  // ---------------------------------------------------------------------------------------------
  // A schema change that is rolled back
  // ---------------------------------------------------------------------------------------------

  /** Two connections, and what is cached of columns. */
  function Two(h: History, columns: map<string, ColumnsEntry>, writer: Phase, reader: Phase): State {
    State(h, columns, map[], map[0 := writer, 1 := reader])
  }

  function WriterStep(st: State, next: Catalog): State
    requires 0 in st.phases && st.history.catalogs != []
  {
    Step(st, 0, ChangeSchema(next))
  }

  function ReaderStep(st: State, table: string): State
    requires 1 in st.phases && st.history.catalogs != []
  {
    Step(st, 1, LookUpColumns(table))
  }

  /** The writer changes the schema, announces the change and clears the caches. */
  lemma WriterRuns(before: Catalog, next: Catalog)
    ensures var h := History([before], map[], 0);
            var st1 := WriterStep(Two(h, map[], Idle, Idle), next);
            st1 == Two(Change(h, next), map[], Changed(1), Idle) &&
            var st2 := WriterStep(st1, next);
            st2 == Two(Bump(Change(h, next), 1), map[], Announced, Idle) &&
            WriterStep(st2, next) == Two(Bump(Change(h, next), 1), map[], Idle, Idle)
  {
  }

  /** The reader begins, misses, reads the catalogue and stores what it read. */
  lemma ReaderMisses(h: History, table: string)
    requires h.catalogs != []
    ensures var read, since := Columns(Current(h), table), Bumped(h);
            var st1 := ReaderStep(Two(h, map[], Idle, Idle), table);
            st1 == Two(h, map[], Idle, ColumnsBegun(table, h.version, since)) &&
            var st2 := ReaderStep(st1, table);
            st2 == Two(h, map[], Idle, ColumnsMissed(table, h.version, since)) &&
            var st3 := ReaderStep(st2, table);
            st3 == Two(h, map[], Idle, ColumnsRead(table, h.version, since, read)) &&
            ReaderStep(st3, table) ==
              Two(h, map[table := ColumnsEntry(h.version, read)], Idle, ColumnsDone(table, since, read))
  {
  }

  /** A reader that finds an entry for the current version takes it. */
  lemma ReaderHits(h: History, table: string, columns: seq<string>, done: Phase)
    requires h.catalogs != [] && done.ColumnsDone?
    ensures var cached := map[table := ColumnsEntry(h.version, columns)];
            var st1 := ReaderStep(Two(h, cached, Idle, done), table);
            st1 == Two(h, cached, Idle, ColumnsBegun(table, h.version, Bumped(h))) &&
            ReaderStep(st1, table) == Two(h, cached, Idle, ColumnsDone(table, Bumped(h), columns))
  {
  }

  /**
   * The server announces a schema change as soon as SQLite has made it, also in an open transaction.
   * When that transaction is rolled back, what was cached in between stays a hit for the current
   * version, although the catalogue is the earlier one again.
   */
  lemma RollbackLeavesStaleHit(before: Catalog, next: Catalog, table: string)
    requires Columns(before, table) != Columns(next, table)
    ensures var start := Two(History([before], map[], 0), map[], Idle, Idle);
            var announced := WriterStep(WriterStep(WriterStep(start, next), next), next);
            var cached := ReaderStep(ReaderStep(ReaderStep(ReaderStep(announced, table), table), table), table);
            var undone := RolledBack(cached, before);
            var hit := ReaderStep(ReaderStep(undone, table), table);
            && Inv(start) && Current(hit.history) == before
            && hit.phases[1].ColumnsDone? && hit.phases[1].columns == Columns(next, table) != Columns(Current(hit.history), table)
  {
    var h := Bump(Change(History([before], map[], 0), next), 1);
    StartInv(before, {0, 1});
    WriterRuns(before, next);
    ReaderMisses(h, table);
    ReaderHits(Change(h, before), table, Columns(next, table), ColumnsDone(table, Bumped(h), Columns(next, table)));
    hide WriterStep, ReaderStep, Inv;
  }
}
