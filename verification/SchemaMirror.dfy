/**
 * The lazily filled information_schema mirror (refreshInformationSchema,
 * refreshInformationSchemaTableList and refreshInformationSchemaTable in
 * pkg/mysqlmock/information_schema.go, the flags in pkg/mysqlmock/information_schema_cache.go).
 *
 * A refresh reads the version, takes the lock, checks the flags, rewrites its part of the mirror in
 * one batch, sets its flag and releases the lock.  Schema changes are committed and announced at any
 * time in between; only clearing the flags takes the lock.
 */
module SchemaMirror {
  import opened Options
  import opened SchemaHistory

  datatype Detail = ColumnRow(column: string) | IndexRow(index: string)

  /** The rows of `tables`, and of the other mirrored tables, by table name. */
  datatype Mirror = Mirror(tables: map<string, seq<bool>>, details: map<string, seq<Detail>>)

  datatype Request = Full | TableList | Target(table: string)
  datatype Mark = Mark(version: nat, exists_: bool)
  datatype Cache = Cache(full: Option<nat>, list: Option<nat>, tables: map<string, Mark>)

  const EMPTY: Cache := Cache(None, None, map[])

  function Rows<T>(m: map<string, seq<T>>, table: string): seq<T> {
    if table in m then m[table] else []
  }

  /** The mirror rows of a table, as the catalogue has it. */
  function TableRows(c: Catalog, table: string): seq<bool> {
    if table in c then [c[table].view] else []
  }

  function DetailRows(c: Catalog, table: string): seq<Detail> {
    if table in c then InfoRows(c[table]) else []
  }

  function InfoRows(info: TableInfo): seq<Detail> {
    ColumnRows(info.columns) + IndexRows(info.indexes)
  }

  function ColumnRows(columns: seq<string>): (rows: seq<Detail>)
    ensures |rows| == |columns|
  {
    seq(|columns|, i requires 0 <= i < |columns| => ColumnRow(columns[i]))
  }

  function IndexRows(indexes: seq<string>): (rows: seq<Detail>)
    ensures |rows| == |indexes|
  {
    seq(|indexes|, i requires 0 <= i < |indexes| => IndexRow(indexes[i]))
  }

  // ---------------------------------------------------------------------------------------------
  // The batches
  // ---------------------------------------------------------------------------------------------

  function ListOf(c: Catalog): map<string, seq<bool>> {
    map t | t in c :: TableRows(c, t)
  }

  function DetailsOf(c: Catalog): map<string, seq<Detail>> {
    map t | t in c :: DetailRows(c, t)
  }

  /** What a batch makes of the mirror. */
  function Refresh(m: Mirror, request: Request, c: Catalog): Mirror {
    match request
    case Full => Mirror(ListOf(c), DetailsOf(c))
    case TableList => m.(tables := ListOf(c))
    case Target(t) => Mirror(m.tables[t := TableRows(c, t)], m.details[t := DetailRows(c, t)])
  }

  predicate Hit(cache: Cache, request: Request, v: nat) {
    || cache.full == Some(v)
    || match request
       case Full => false
       case TableList => cache.list == Some(v)
       case Target(t) => t in cache.tables && cache.tables[t].version == v
  }

  /** The flag a finished refresh sets; a full refresh drops the marks of single tables. */
  function MarkDone(cache: Cache, request: Request, v: nat, found: bool): Cache {
    match request
    case Full => cache.(full := Some(v), tables := map[])
    case TableList => cache.(list := Some(v))
    case Target(t) => cache.(tables := cache.tables[t := Mark(v, found)])
  }

  // ---------------------------------------------------------------------------------------------
  // The steps
  // ---------------------------------------------------------------------------------------------

  datatype Phase =
    | Idle
    | Changed(change: nat)
    | Announced
    | Begun(request: Request, version: nat)
    | Refreshed(request: Request, version: nat, found: bool)

  datatype State = State(history: History, mirror: Mirror, cache: Cache, lock: Option<nat>, phases: map<nat, Phase>)

  datatype Task = ChangeSchema(next: Catalog) | Ask(request: Request)

  function At(st: State, c: nat, phase: Phase): State {
    st.(phases := st.phases[c := phase])
  }

  /** One step of one connection; one that needs the lock waits while another holds it. */
  function Step(st: State, c: nat, task: Task): State
    requires c in st.phases && st.history.catalogs != []
  {
    var h := st.history;
    match st.phases[c]
    case Idle =>
      (match task
       case ChangeSchema(next) => At(st.(history := Change(h, next)), c, Changed(Changes(h) + 1))
       case Ask(request) => At(st, c, Begun(request, h.version)))
    case Changed(i) => At(st.(history := Bump(h, i)), c, Announced)
    case Announced => if st.lock.Some? then st else At(st.(cache := EMPTY), c, Idle)
    case Begun(request, v) =>
      if st.lock.Some? then st
      else if Hit(st.cache, request, v) then At(st, c, Idle)
      else
        At(st.(mirror := Refresh(st.mirror, request, Current(h)), lock := Some(c)), c,
           Refreshed(request, v, request.Target? && request.table in Current(h)))
    case Refreshed(request, v, found) =>
      At(st.(cache := MarkDone(st.cache, request, v, found), lock := None), c, Idle)
  }

  // ---------------------------------------------------------------------------------------------
  // What a flag promises
  // ---------------------------------------------------------------------------------------------

  /** The rows were written from a catalogue that has every change announced by version `v`. */
  ghost predicate ListPart(h: History, m: Mirror, v: nat, table: string) {
    exists k: nat :: Covers(h, k, v) && Rows(m.tables, table) == TableRows(h.catalogs[k], table)
  }

  ghost predicate DetailPart(h: History, m: Mirror, v: nat, table: string) {
    exists k: nat :: Covers(h, k, v) && Rows(m.details, table) == DetailRows(h.catalogs[k], table)
  }

  ghost predicate FoundPart(h: History, v: nat, table: string, found: bool) {
    exists k: nat :: Covers(h, k, v) && (found <==> table in h.catalogs[k])
  }

  ghost predicate Part(h: History, m: Mirror, request: Request, v: nat, found: bool) {
    && v <= h.version
    && match request
       case Full => forall t :: ListPart(h, m, v, t) && DetailPart(h, m, v, t)
       case TableList => forall t :: ListPart(h, m, v, t)
       case Target(t) => ListPart(h, m, v, t) && DetailPart(h, m, v, t) && FoundPart(h, v, t, found)
  }

  ghost predicate CacheInv(h: History, m: Mirror, cache: Cache) {
    && (cache.full.Some? ==> Part(h, m, Full, cache.full.value, false))
    && (cache.list.Some? ==> Part(h, m, TableList, cache.list.value, false))
    && (forall t :: t in cache.tables ==> Part(h, m, Target(t), cache.tables[t].version, cache.tables[t].exists_))
  }

  ghost predicate PhaseInv(st: State, c: nat, phase: Phase) {
    match phase
    case Idle => true
    case Changed(i) => 0 < i < |st.history.catalogs| && i !in st.history.bumps
    case Announced => true
    case Begun(_, v) => v <= st.history.version
    case Refreshed(request, v, found) => st.lock == Some(c) && Part(st.history, st.mirror, request, v, found)
  }

  predicate OwnChanges(phases: map<nat, Phase>) {
    forall c, d :: c in phases && d in phases && c != d && phases[c].Changed? && phases[d].Changed? ==>
      phases[c].change != phases[d].change
  }

  ghost predicate Inv(st: State) {
    && Valid(st.history)
    && CacheInv(st.history, st.mirror, st.cache)
    && OwnChanges(st.phases)
    && (forall c :: c in st.phases ==> PhaseInv(st, c, st.phases[c]))
  }

  // ---------------------------------------------------------------------------------------------
  // Batches keep every promise
  // ---------------------------------------------------------------------------------------------

  /** A batch rewrites a table's rows from the current catalogue or leaves them as they are. */
  lemma RefreshRows(m: Mirror, request: Request, c: Catalog, table: string)
    ensures var m' := Refresh(m, request, c);
            && (Rows(m'.tables, table) == TableRows(c, table) || Rows(m'.tables, table) == Rows(m.tables, table))
            && (Rows(m'.details, table) == DetailRows(c, table) || Rows(m'.details, table) == Rows(m.details, table))
            && (request.Full? || request == Target(table) ==>
                  Rows(m'.tables, table) == TableRows(c, table) && Rows(m'.details, table) == DetailRows(c, table))
            && (request.TableList? ==> Rows(m'.tables, table) == TableRows(c, table))
  {
    hide InfoRows;
  }

  lemma BatchList(h: History, m: Mirror, request: Request, v: nat, table: string)
    requires Valid(h) && v <= h.version
    ensures var m' := Refresh(m, request, Current(h));
            && (ListPart(h, m, v, table) ==> ListPart(h, m', v, table))
            && (DetailPart(h, m, v, table) ==> DetailPart(h, m', v, table))
            && (request.Full? || request == Target(table) ==> ListPart(h, m', v, table) && DetailPart(h, m', v, table))
            && (request.TableList? ==> ListPart(h, m', v, table))
            && FoundPart(h, v, table, table in Current(h))
  {
    hide Refresh, TableRows, DetailRows;
    RefreshRows(m, request, Current(h), table);
    CurrentCovers(h, v);
    assert h.catalogs[Changes(h)] == Current(h);
  }

  /** A batch keeps what every flag promises, of whatever version, and delivers what its own will promise. */
  lemma BatchKeeps(h: History, m: Mirror, request: Request, other: Request, v: nat, found: bool)
    requires Valid(h)
    ensures Part(h, m, other, v, found) ==> Part(h, Refresh(m, request, Current(h)), other, v, found)
    ensures v <= h.version ==>
              Part(h, Refresh(m, request, Current(h)), request, v, request.Target? && request.table in Current(h))
  {
    hide ListPart, DetailPart, FoundPart, Refresh;
    if v <= h.version {
      forall t
        ensures ListPart(h, m, v, t) ==> ListPart(h, Refresh(m, request, Current(h)), v, t)
        ensures DetailPart(h, m, v, t) ==> DetailPart(h, Refresh(m, request, Current(h)), v, t)
        ensures request.Full? || request == Target(t) ==>
                  ListPart(h, Refresh(m, request, Current(h)), v, t) && DetailPart(h, Refresh(m, request, Current(h)), v, t)
        ensures request.TableList? ==> ListPart(h, Refresh(m, request, Current(h)), v, t)
        ensures FoundPart(h, v, t, t in Current(h))
      {
        BatchList(h, m, request, v, t);
      }
    }
  }

  lemma BatchCache(h: History, m: Mirror, request: Request, cache: Cache)
    requires Valid(h) && CacheInv(h, m, cache)
    ensures CacheInv(h, Refresh(m, request, Current(h)), cache)
  {
    hide Part, Refresh;
    if cache.full.Some? {
      BatchKeeps(h, m, request, Full, cache.full.value, false);
    }
    if cache.list.Some? {
      BatchKeeps(h, m, request, TableList, cache.list.value, false);
    }
    forall t | t in cache.tables
      ensures Part(h, Refresh(m, request, Current(h)), Target(t), cache.tables[t].version, cache.tables[t].exists_)
    {
      BatchKeeps(h, m, request, Target(t), cache.tables[t].version, cache.tables[t].exists_);
    }
  }

  // ---------------------------------------------------------------------------------------------
  // Schema changes keep every promise
  // ---------------------------------------------------------------------------------------------

  lemma GrowsTable(h: History, h': History, m: Mirror, v: nat, table: string, found: bool)
    requires Grows(h, h') && v <= h.version
    ensures ListPart(h, m, v, table) ==> ListPart(h', m, v, table)
    ensures DetailPart(h, m, v, table) ==> DetailPart(h', m, v, table)
    ensures FoundPart(h, v, table, found) ==> FoundPart(h', v, table, found)
  {
    hide TableRows, DetailRows;
    assert forall k: nat :: Covers(h, k, v) ==> Covers(h', k, v) && h'.catalogs[k] == h.catalogs[k];
  }

  lemma GrowsPart(h: History, h': History, m: Mirror, request: Request, v: nat, found: bool)
    requires Grows(h, h')
    ensures Part(h, m, request, v, found) ==> Part(h', m, request, v, found)
  {
    hide ListPart, DetailPart, FoundPart, Grows;
    GrowsVersion(h, h');
    if v <= h.version {
      forall t
        ensures ListPart(h, m, v, t) ==> ListPart(h', m, v, t)
        ensures DetailPart(h, m, v, t) ==> DetailPart(h', m, v, t)
        ensures FoundPart(h, v, t, found) ==> FoundPart(h', v, t, found)
      {
        GrowsTable(h, h', m, v, t, found);
      }
    }
  }

  lemma GrowsVersion(h: History, h': History)
    requires Grows(h, h')
    ensures h.version <= h'.version && Valid(h')
  {
  }

  lemma GrowsCache(h: History, h': History, m: Mirror, cache: Cache)
    requires Grows(h, h') && CacheInv(h, m, cache)
    ensures CacheInv(h', m, cache)
  {
    hide Part, Grows;
    if cache.full.Some? {
      GrowsPart(h, h', m, Full, cache.full.value, false);
    }
    if cache.list.Some? {
      GrowsPart(h, h', m, TableList, cache.list.value, false);
    }
    forall t | t in cache.tables
      ensures Part(h', m, Target(t), cache.tables[t].version, cache.tables[t].exists_)
    {
      GrowsPart(h, h', m, Target(t), cache.tables[t].version, cache.tables[t].exists_);
    }
  }

  // ---------------------------------------------------------------------------------------------
  // Every step, every run
  // ---------------------------------------------------------------------------------------------

  /** A schema change committed or announced. */
  lemma HistoryStep(st: State, c: nat, phase: Phase, h': History)
    requires Inv(st) && c in st.phases && Grows(st.history, h')
    requires phase.Changed? || phase.Announced?
    requires PhaseInv(st.(history := h'), c, phase)
    requires forall d :: d in st.phases && d != c && st.phases[d].Changed? ==> st.phases[d].change !in h'.bumps
    requires phase.Changed? ==> forall d :: d in st.phases && st.phases[d].Changed? ==> st.phases[d].change != phase.change
    ensures Inv(At(st.(history := h'), c, phase))
  {
    hide CacheInv, Part, Grows;
    GrowsCache(st.history, h', st.mirror, st.cache);
    GrowsVersion(st.history, h');
    GrowsLength(st.history, h');
    forall d | d in st.phases && d != c
      ensures PhaseInv(At(st.(history := h'), c, phase), d, st.phases[d])
    {
      assert PhaseInv(st, d, st.phases[d]);
      match st.phases[d]
      case Refreshed(request, v, found) => GrowsPart(st.history, h', st.mirror, request, v, found);
      case _ =>
    }
  }

  lemma GrowsLength(h: History, h': History)
    requires Grows(h, h')
    ensures |h.catalogs| <= |h'.catalogs|
  {
  }

  /** A refresh that has to work: the batch, under the lock. */
  lemma BatchStep(st: State, c: nat, request: Request, v: nat)
    requires Inv(st) && c in st.phases && st.phases[c] == Begun(request, v) && st.lock.None?
    ensures Inv(At(st.(mirror := Refresh(st.mirror, request, Current(st.history)), lock := Some(c)), c,
                   Refreshed(request, v, request.Target? && request.table in Current(st.history))))
  {
    hide CacheInv, Part, Refresh;
    BatchCache(st.history, st.mirror, request, st.cache);
    assert PhaseInv(st, c, st.phases[c]);
    BatchKeeps(st.history, st.mirror, request, request, v, false);
    forall d | d in st.phases
      ensures !st.phases[d].Refreshed?
    {
      assert PhaseInv(st, d, st.phases[d]);
    }
  }

  lemma MarkKeeps(h: History, m: Mirror, cache: Cache, request: Request, v: nat, found: bool)
    requires CacheInv(h, m, cache) && Part(h, m, request, v, found)
    ensures CacheInv(h, m, MarkDone(cache, request, v, found))
  {
    hide ListPart, DetailPart, FoundPart;
  }

  /** Steps that touch only the flags and the lock. */
  lemma FlagStep(st: State, c: nat, cache: Cache, lock: Option<nat>, phase: Phase)
    requires Inv(st) && c in st.phases && CacheInv(st.history, st.mirror, cache)
    requires phase.Idle? || (phase.Begun? && phase.version == st.history.version)
    requires lock == st.lock || (st.phases[c].Refreshed? && lock.None?)
    ensures Inv(At(st.(cache := cache, lock := lock), c, phase))
  {
    hide CacheInv, Part;
    forall d | d in st.phases && d != c
      ensures PhaseInv(At(st.(cache := cache, lock := lock), c, phase), d, st.phases[d])
    {
      assert PhaseInv(st, d, st.phases[d]) && PhaseInv(st, c, st.phases[c]);
    }
  }

  lemma StepInv(st: State, c: nat, task: Task)
    requires Inv(st) && c in st.phases
    ensures Inv(Step(st, c, task))
  {
    hide CacheInv, Part, Grows, Refresh, Hit, MarkDone;
    var h := st.history;
    assert PhaseInv(st, c, st.phases[c]);
    match st.phases[c]
    case Idle =>
      match task {
        case ChangeSchema(next) =>
          ChangeGrows(h, next);
          forall d | d in st.phases && st.phases[d].Changed?
            ensures st.phases[d].change != Changes(h) + 1 && st.phases[d].change !in Change(h, next).bumps
          {
            assert PhaseInv(st, d, st.phases[d]);
          }
          HistoryStep(st, c, Changed(Changes(h) + 1), Change(h, next));
        case Ask(request) => FlagStep(st, c, st.cache, st.lock, Begun(request, h.version));
      }
    case Changed(i) =>
      BumpGrows(h, i);
      forall d | d in st.phases && d != c && st.phases[d].Changed?
        ensures st.phases[d].change !in Bump(h, i).bumps
      {
        assert PhaseInv(st, d, st.phases[d]);
      }
      HistoryStep(st, c, Announced, Bump(h, i));
    case Announced =>
      EmptyInv(h, st.mirror);
      if st.lock.None? { FlagStep(st, c, EMPTY, st.lock, Idle); }
    case Begun(request, v) =>
      if st.lock.None? {
        if Hit(st.cache, request, v) { FlagStep(st, c, st.cache, st.lock, Idle); } else { BatchStep(st, c, request, v); }
      }
    case Refreshed(request, v, found) =>
      MarkKeeps(h, st.mirror, st.cache, request, v, found);
      FlagStep(st, c, MarkDone(st.cache, request, v, found), None, Idle);
  }

  lemma EmptyInv(h: History, m: Mirror)
    ensures CacheInv(h, m, EMPTY)
  {
  }

  datatype Move = Move(conn: nat, task: Task)

  function Run(st: State, moves: seq<Move>): State {
    if moves == [] then st
    else
      var before := Run(st, moves[..|moves| - 1]);
      var last := moves[|moves| - 1];
      if last.conn in before.phases && before.history.catalogs != [] then Step(before, last.conn, last.task) else before
  }

  lemma {:induction false} RunInv(st: State, moves: seq<Move>)
    requires Inv(st)
    ensures Inv(Run(st, moves))
  {
    hide Step, CacheInv, PhaseInv;
    if moves != [] {
      var last := moves[|moves| - 1];
      RunInv(st, moves[..|moves| - 1]);
      var before := Run(st, moves[..|moves| - 1]);
      if last.conn in before.phases && before.history.catalogs != [] {
        StepInv(before, last.conn, last.task);
      }
    }
  }

  /** A server that has just started: no flag set, whatever the mirror holds. */
  lemma StartInv(catalog: Catalog, mirror: Mirror, conns: set<nat>)
    ensures Inv(State(History([catalog], map[], 0), mirror, EMPTY, None, map c | c in conns :: Idle))
  {
  }

  /** The part of the mirror a request asks for is the catalogue's, row for row and without duplicates. */
  predicate Matches(m: Mirror, c: Catalog, request: Request, table: string) {
    && (request.Full? || request.TableList? || request == Target(table) ==> Rows(m.tables, table) == TableRows(c, table))
    && (request.Full? || request == Target(table) ==> Rows(m.details, table) == DetailRows(c, table))
  }

  /** The flag a request sets, for version v. */
  predicate Flagged(cache: Cache, request: Request, v: nat) {
    match request
    case Full => cache.full == Some(v)
    case TableList => cache.list == Some(v)
    case Target(t) => t in cache.tables && cache.tables[t].version == v
  }

  /** The columns among the rows, in order. */
  function ColumnsIn(rows: seq<Detail>): seq<string> {
    if rows == [] then []
    else (match rows[0] case ColumnRow(name) => [name] case IndexRow(_) => []) + ColumnsIn(rows[1..])
  }

  function IndexesIn(rows: seq<Detail>): seq<string> {
    if rows == [] then []
    else (match rows[0] case ColumnRow(_) => [] case IndexRow(name) => [name]) + IndexesIn(rows[1..])
  }

  /** The mirror shows the table as the catalogue has it: what it is, its columns and its indexes. */
  predicate Shows(m: Mirror, c: Catalog, table: string) {
    && Rows(m.tables, table) == (if table in c then [c[table].view] else [])
    && ColumnsIn(Rows(m.details, table)) == (if table in c then c[table].columns else [])
    && IndexesIn(Rows(m.details, table)) == (if table in c then c[table].indexes else [])
  }

  lemma {:induction false} IndexesShown(indexes: seq<string>)
    ensures ColumnsIn(IndexRows(indexes)) == [] && IndexesIn(IndexRows(indexes)) == indexes
  {
    if indexes != [] {
      IndexesShown(indexes[1..]);
      assert IndexRows(indexes)[1..] == IndexRows(indexes[1..]);
    }
  }

  lemma FirstColumn(column: string, later: seq<Detail>)
    ensures ColumnsIn([ColumnRow(column)] + later) == [column] + ColumnsIn(later)
    ensures IndexesIn([ColumnRow(column)] + later) == IndexesIn(later)
  {
    assert ([ColumnRow(column)] + later)[1..] == later;
  }

  lemma {:induction false} ColumnsShown(columns: seq<string>, later: seq<Detail>)
    ensures ColumnsIn(ColumnRows(columns) + later) == columns + ColumnsIn(later)
    ensures IndexesIn(ColumnRows(columns) + later) == IndexesIn(later)
  {
    var rows := ColumnRows(columns) + later;
    if columns == [] {
      assert rows == later;
    } else {
      ColumnsShown(columns[1..], later);
      assert rows == [ColumnRow(columns[0])] + (ColumnRows(columns[1..]) + later);
      FirstColumn(columns[0], ColumnRows(columns[1..]) + later);
      hide ColumnsIn, IndexesIn, ColumnRows;
      assert [columns[0]] + (columns[1..] + ColumnsIn(later)) == columns + ColumnsIn(later);
    }
  }

  lemma MatchesShows(m: Mirror, c: Catalog, table: string)
    requires Rows(m.tables, table) == TableRows(c, table)
    ensures Rows(m.details, table) == DetailRows(c, table) ==> Shows(m, c, table)
  {
    if table in c {
      ColumnsShown(c[table].columns, IndexRows(c[table].indexes));
      IndexesShown(c[table].indexes);
      assert c[table].columns + [] == c[table].columns;
    }
  }

  /**
   * Coherence: after any run of full, table-list and single-table refreshes and schema changes by any
   * number of connections, once every change has been announced a flag for the current version means
   * that its part of the mirror equals the catalogue, and a table's mark tells whether it exists.
   */
  lemma MirrorCoherent(st: State, moves: seq<Move>, request: Request, table: string)
    requires Inv(st)
    requires Quiet(Run(st, moves).history)
    requires Flagged(Run(st, moves).cache, request, Run(st, moves).history.version)
    ensures var now := Run(st, moves);
            && now.history.catalogs != []
            && Matches(now.mirror, Current(now.history), request, table)
            && (request.Target? ==> (now.cache.tables[request.table].exists_ <==> request.table in Current(now.history)))
            && (request.Full? || request == Target(table) ==> Shows(now.mirror, Current(now.history), table))
  {
    hide Run, TableRows, DetailRows;
    RunInv(st, moves);
    var now := Run(st, moves);
    var h := now.history;
    forall k: nat | Covers(h, k, h.version)
      ensures k == Changes(h)
    {
      QuietIsCurrent(h, k);
    }
    var found := if request.Target? then now.cache.tables[request.table].exists_ else false;
    assert Part(h, now.mirror, request, h.version, found);
    assert request.Full? || request.TableList? || request == Target(table) ==> ListPart(h, now.mirror, h.version, table);
    assert request.Full? || request == Target(table) ==> DetailPart(h, now.mirror, h.version, table);
    if request.Full? || request == Target(table) {
      MatchesShows(now.mirror, Current(h), table);
    }
  }
}
