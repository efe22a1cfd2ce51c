/**
 * The schema version (bumpSchemaVersion and currentSchemaVersion in pkg/mysqlmock/server.go): a
 * schema change is committed first and announced later, by incrementing a counter.
 */
module SchemaHistory {

  /** What the catalogue says of a table. */
  datatype TableInfo = TableInfo(view: bool, columns: seq<string>, indexes: seq<string>)
  type Catalog = map<string, TableInfo>

  /**
   * `catalogs[k]` is the catalogue after k committed changes; `bumps` maps a change to the version
   * its connection announced it with, once it has done so.
   */
  datatype History = History(catalogs: seq<Catalog>, bumps: map<nat, nat>, version: nat)

  predicate Valid(h: History) {
    && h.catalogs != []
    && (forall i :: i in h.bumps ==> 0 < i < |h.catalogs| && h.bumps[i] <= h.version)
  }

  function Changes(h: History): nat
    requires h.catalogs != []
  {
    |h.catalogs| - 1
  }

  function Current(h: History): Catalog
    requires h.catalogs != []
  {
    h.catalogs[|h.catalogs| - 1]
  }

  /** A schema change is committed. */
  function Change(h: History, next: Catalog): History {
    h.(catalogs := h.catalogs + [next])
  }

  /** The connection of change `i` increments the version. */
  function Bump(h: History, i: nat): History {
    h.(bumps := h.bumps[i := h.version + 1], version := h.version + 1)
  }

  /** The catalogue after `k` changes includes every change announced by version `v` or before. */
  predicate Covers(h: History, k: nat, v: nat) {
    k < |h.catalogs| && forall i :: i in h.bumps && h.bumps[i] <= v ==> i <= k
  }

  /** Every committed change has been announced. */
  predicate Quiet(h: History) {
    forall i :: 0 < i < |h.catalogs| ==> i in h.bumps
  }

  /** What has been read covers every version there has been so far. */
  lemma CurrentCovers(h: History, v: nat)
    requires Valid(h)
    ensures Covers(h, Changes(h), v)
  {
  }

  lemma CoversEarlier(h: History, k: nat, v: nat, w: nat)
    requires Covers(h, k, v) && w <= v
    ensures Covers(h, k, w)
  {
  }

  /** Once everything is announced, what covers the current version is the current catalogue. */
  lemma QuietIsCurrent(h: History, k: nat)
    requires Valid(h) && Quiet(h) && Covers(h, k, h.version)
    ensures k == Changes(h)
  {
    if 0 < Changes(h) {
      assert Changes(h) in h.bumps;
    }
  }

  /** The last change to the catalogue has been announced, or there was none. */
  predicate LatestAnnounced(h: History)
    requires h.catalogs != []
  {
    Changes(h) == 0 || Changes(h) in h.bumps
  }

  /** Then what covers the current version is the current catalogue, whatever came unannounced before. */
  lemma LatestIsCurrent(h: History, k: nat)
    requires Valid(h) && LatestAnnounced(h) && Covers(h, k, h.version)
    ensures k == Changes(h)
  {
  }

  /** The history only grows, so everything known of it stays true. */
  ghost predicate Grows(h: History, h': History) {
    && Valid(h') && h.version <= h'.version && h.catalogs <= h'.catalogs
    && (forall i :: i in h.bumps ==> i in h'.bumps && h'.bumps[i] == h.bumps[i])
    && (forall k: nat, v: nat :: Covers(h, k, v) && v <= h.version ==> Covers(h', k, v))
  }

  lemma ChangeGrows(h: History, next: Catalog)
    requires Valid(h)
    ensures Grows(h, Change(h, next))
  {
  }

  lemma BumpGrows(h: History, i: nat)
    requires Valid(h) && 0 < i < |h.catalogs| && i !in h.bumps
    ensures Grows(h, Bump(h, i))
  {
  }
}
