/**
 * The bounded translation caches (cacheStore and the cached translators in
 * pkg/mysqlmock/sql_translation_cache.go): at most 4096 entries, the oldest key leaves first.
 */
module TranslationCache {
  import opened Options

  const LIMIT: nat := 4096

  datatype Cache<V> = Cache(items: map<string, V>, order: seq<string>)

  predicate NoDuplicates(keys: seq<string>) {
    forall i, j :: 0 <= i < j < |keys| ==> keys[i] != keys[j]
  }

  /** The order lists each cached key once, and there are at most as many as allowed. */
  ghost predicate Sound<V>(c: Cache<V>) {
    && NoDuplicates(c.order)
    && (forall k :: k in c.items <==> k in c.order)
    && |c.order| <= LIMIT
  }

  /** Storing: a known key keeps its place, a new one goes to the end and the oldest makes room. */
  function Store<V>(c: Cache<V>, key: string, value: V): Cache<V> {
    if key in c.items then c.(items := c.items[key := value])
    else
      var kept := if |c.order| < LIMIT then c.order else c.order[|c.order| - LIMIT + 1..];
      Cache((map k | k in c.items && k in kept :: c.items[k])[key := value], kept + [key])
  }

  lemma StoreSound<V>(c: Cache<V>, key: string, value: V)
    requires Sound(c)
    ensures Sound(Store(c, key, value))
    ensures key in Store(c, key, value).items && Store(c, key, value).items[key] == value
    ensures forall k :: k in Store(c, key, value).items && k != key ==>
              k in c.items && Store(c, key, value).items[k] == c.items[k]
  {
    var c' := Store(c, key, value);
    if key !in c.items {
      var kept := if |c.order| < LIMIT then c.order else c.order[|c.order| - LIMIT + 1..];
      assert forall k :: k in kept ==> k in c.order;
      assert key !in kept;
    }
  }

  /** The most recent of the keys appended so far, as many as fit. */
  function Window(log: seq<string>): seq<string> {
    if |log| <= 4096 then log else log[|log| - 4096..]
  }

  lemma StoreOrder<V>(c: Cache<V>, key: string, value: V, log: seq<string>)
    requires c.order == Window(log)
    ensures Store(c, key, value).order == Window(if key in c.items then log else log + [key])
  {
  }

  function Listed(order: seq<string>): set<string> {
    set k | k in order
  }

  lemma {:induction false} ListedSize(order: seq<string>)
    requires NoDuplicates(order)
    ensures |Listed(order)| == |order|
    decreases |order|
  {
    if order == [] {
      assert Listed(order) == {};
    } else {
      var last := order[|order| - 1];
      var rest := order[..|order| - 1];
      ListedSize(rest);
      assert last !in Listed(rest);
      assert Listed(order) == Listed(rest) + {last};
    }
  }

  /** As many map entries as listed keys. */
  lemma SizeIsOrder<V>(items: map<string, V>, order: seq<string>)
    requires NoDuplicates(order) && forall k :: k in items <==> k in order
    ensures |items| == |order|
  {
    hide NoDuplicates;
    ListedSize(order);
    assert items.Keys == Listed(order);
  }

  // ---------------------------------------------------------------------------------------------
  // First in, first out
  // ---------------------------------------------------------------------------------------------

  /** Storing the keys in turn, from an empty cache, with the keys that were appended along the way. */
  function StoreAll<V>(keys: seq<string>, value: string -> V): (Cache<V>, seq<string>) {
    if keys == [] then (Cache(map[], []), [])
    else
      var (c, log) := StoreAll(keys[..|keys| - 1], value);
      var key := keys[|keys| - 1];
      (Store(c, key, value(key)), if key in c.items then log else log + [key])
  }

  /** After any run of stores the cache holds exactly the last 4096 keys that were new when they came. */
  lemma {:induction false} FirstInFirstOut<V>(keys: seq<string>, value: string -> V)
    ensures var (c, log) := StoreAll(keys, value);
            && Sound(c)
            && c.order == Window(log)
            && (forall k :: k in c.items ==> c.items[k] == value(k))
  {
    hide Sound, Store, Window;
    if keys == [] {
      EmptySound<V>();
    } else {
      var (c, log) := StoreAll(keys[..|keys| - 1], value);
      var key := keys[|keys| - 1];
      FirstInFirstOut(keys[..|keys| - 1], value);
      StoreSound(c, key, value(key));
      StoreOrder(c, key, value(key), log);
    }
  }

  lemma EmptySound<V>()
    ensures Sound<V>(Cache(map[], []))
    ensures Window([]) == []
  {
  }

  // ---------------------------------------------------------------------------------------------
  // Interleaved translators
  // ---------------------------------------------------------------------------------------------

  /** A connection looks a text up, translates it outside the lock on a miss, then stores it. */
  datatype Phase<V> = Idle | Missed(key: string) | Translated(key: string, value: V) | Answered(key: string, value: V)

  datatype State<V> = State(cache: Cache<V>, phases: map<nat, Phase<V>>)

  function Step<V>(st: State<V>, c: nat, key: string, translate: string -> V): State<V>
    requires c in st.phases
  {
    match st.phases[c]
    case Missed(k) => st.(phases := st.phases[c := Translated(k, translate(k))])
    case Translated(k, v) => State(Store(st.cache, k, v), st.phases[c := Answered(k, v)])
    case _ =>
      if key in st.cache.items then st.(phases := st.phases[c := Answered(key, st.cache.items[key])])
      else st.(phases := st.phases[c := Missed(key)])
  }

  /** Every cached value and every answer is what translating the text afresh gives. */
  ghost predicate Transparent<V>(st: State<V>, translate: string -> V) {
    && Sound(st.cache)
    && (forall k :: k in st.cache.items ==> st.cache.items[k] == translate(k))
    && (forall c :: c in st.phases ==>
          match st.phases[c]
          case Translated(k, v) => v == translate(k)
          case Answered(k, v) => v == translate(k)
          case _ => true)
  }

  function Run<V>(st: State<V>, moves: seq<(nat, string)>, translate: string -> V): State<V> {
    if moves == [] then st
    else
      var before := Run(st, moves[..|moves| - 1], translate);
      var last := moves[|moves| - 1];
      if last.0 in before.phases then Step(before, last.0, last.1, translate) else before
  }

  /** Over every interleaving of cached translations the cache cannot be told from no cache. */
  lemma {:induction false} CacheIsTransparent<V>(st: State<V>, moves: seq<(nat, string)>, translate: string -> V)
    requires Transparent(st, translate)
    ensures Transparent(Run(st, moves, translate), translate)
  {
    hide Sound, Store;
    if moves != [] {
      CacheIsTransparent(st, moves[..|moves| - 1], translate);
      var before := Run(st, moves[..|moves| - 1], translate);
      var last := moves[|moves| - 1];
      if last.0 in before.phases && before.phases[last.0].Translated? {
        StoreSound(before.cache, before.phases[last.0].key, before.phases[last.0].value);
      }
    }
  }

  // ---------------------------------------------------------------------------------------------
  // The cache object
  // ---------------------------------------------------------------------------------------------

  class FifoCache<V> {
    var items: map<string, V>
    var order: seq<string>

    constructor ()
      ensures State() == Cache(map[], [])
    {
      items, order := map[], [];
    }

    ghost function State(): Cache<V>
      reads this
    {
      Cache(items, order)
    }

    /** Evicts from the front of the order until there is room for one more. */
    method MakeRoom()
      requires Sound(State())
      modifies this
      ensures Trimmed(old(State()), State()) && |order| < LIMIT
    {
      hide Sound, Trimmed;
      ghost var before := State();
      TrimNothing(before);
      while |items| >= LIMIT
        invariant Trimmed(before, State())
        decreases |items|
      {
        TrimOne(before, State());
        var evict := order[0];
        order := order[1..];
        if evict !in items {
          continue;
        }
        items := map k | k in items && k != evict :: items[k];
      }
      TrimmedSize(before, State());
    }

    /** cacheStore */
    method CacheStore(key: string, value: V)
      requires Sound(State())
      modifies this
      ensures State() == Store(old(State()), key, value) && Sound(State())
    {
      hide Store, Sound, Trimmed;
      StoreSound(State(), key, value);
      if key in items {
        KnownKey(State(), key, value);
        items := items[key := value];
        return;
      }
      MakeRoom();
      NewKey(old(State()), key, value, items, order);
      items := items[key := value];
      order := order + [key];
    }
  }

  /** What is left after evictions: at most the oldest key of a full cache is gone. */
  ghost predicate Trimmed<V>(before: Cache<V>, now: Cache<V>) {
    && NoDuplicates(now.order) && (forall k :: k in now.items <==> k in now.order)
    && (now.order == before.order || (|before.order| == LIMIT && now.order == before.order[1..]))
    && (forall k :: k in now.items ==> k in before.items && now.items[k] == before.items[k])
    && (forall k :: k in before.items <==> k in before.order)
    && |before.order| <= LIMIT
  }

  lemma TrimNothing<V>(c: Cache<V>)
    requires Sound(c)
    ensures Trimmed(c, c)
  {
  }

  lemma TrimmedSize<V>(before: Cache<V>, now: Cache<V>)
    requires Trimmed(before, now)
    ensures |now.items| == |now.order|
  {
    SizeIsOrder(now.items, now.order);
  }

  lemma TrimOne<V>(before: Cache<V>, now: Cache<V>)
    requires Trimmed(before, now) && |now.items| >= LIMIT
    ensures now.order != [] && now.order[0] in now.items
    ensures var fewer := map k | k in now.items && k != now.order[0] :: now.items[k];
            Trimmed(before, Cache(fewer, now.order[1..])) && |fewer| < |now.items|
  {
    hide NoDuplicates;
    TrimmedSize(before, now);
    Evicted(now.items, now.order);
    assert now.order == before.order;
  }

  lemma KnownKey<V>(c: Cache<V>, key: string, value: V)
    requires key in c.items
    ensures Store(c, key, value) == c.(items := c.items[key := value])
  {
  }

  lemma NewKey<V>(c: Cache<V>, key: string, value: V, items: map<string, V>, order: seq<string>)
    requires key !in c.items && |order| < LIMIT && Trimmed(c, Cache(items, order))
    ensures Store(c, key, value) == Cache(items[key := value], order + [key])
  {
    assert order == if |c.order| < LIMIT then c.order else c.order[|c.order| - LIMIT + 1..];
    assert items == map k | k in c.items && k in order :: c.items[k];
  }

  lemma Evicted<V>(items: map<string, V>, order: seq<string>)
    requires NoDuplicates(order) && order != [] && forall k :: k in items <==> k in order
    ensures var fewer := map k | k in items && k != order[0] :: items[k];
            && order[0] in items
            && NoDuplicates(order[1..])
            && (forall k :: k in fewer <==> k in order[1..])
            && |fewer| == |order| - 1
  {
    var fewer := map k | k in items && k != order[0] :: items[k];
    assert order == [order[0]] + order[1..];
    SizeIsOrder(fewer, order[1..]);
  }

  // ---------------------------------------------------------------------------------------------
  // Lists of statements are cloned on the way in and on the way out
  // ---------------------------------------------------------------------------------------------

  /** Storing at the same place in two caches that list the same keys. */
  lemma StoreSame<V, W>(c: Cache<V>, d: Cache<W>, key: string, v: V, w: W)
    requires c.order == d.order && c.items.Keys == d.items.Keys
    ensures Store(c, key, v).order == Store(d, key, w).order
    ensures Store(c, key, v).items.Keys == Store(d, key, w).items.Keys
    ensures Store(d, key, w).items[key] == w
    ensures forall k :: k in Store(d, key, w).items && k != key ==> k in d.items && Store(d, key, w).items[k] == d.items[k]
  {
    assert key in c.items <==> key in d.items;
    assert forall k :: k in c.items <==> k in d.items;
  }

  /** The statement cache: its values are arrays, which a caller could write to. */
  class StatementCache {
    const lists: FifoCache<array<string>>
    ghost var Repr: set<object>

    ghost predicate Valid()
      reads this, lists, Repr
    {
      && this in Repr && lists in Repr
      && Sound(lists.State())
      && (forall k :: k in lists.items ==> lists.items[k] in Repr)
    }

    constructor ()
      ensures Valid() && fresh(Repr) && Contents() == Cache(map[], [])
    {
      lists := new FifoCache();
      new;
      Repr := {this, lists};
      EmptySound<array<string>>();
    }

    /** What is cached, as values, and in which order it goes. */
    ghost function Contents(): Cache<seq<string>>
      requires Valid()
      reads this, lists, Repr
    {
      Cache(map k | k in lists.items :: lists.items[k][..], lists.order)
    }

    /** The array handed out is the caller's own: it is not one the cache keeps. */
    method Lookup(key: string) returns (found: bool, out: array<string>)
      requires Valid()
      ensures found <==> key in Contents().items
      ensures found ==> out[..] == Contents().items[key]
      ensures fresh(out) && out !in Repr
    {
      if key in lists.items {
        out := Clone(lists.items[key]);
        found := true;
      } else {
        out := new string[0];
        found := false;
      }
    }

    /**
     * What is kept is the cache's own: later writes to the caller's array do not reach it.  It is
     * stored like everything else: at most 4096 lists, the oldest goes first.
     */
    method Keep(key: string, translated: array<string>)
      requires Valid()
      modifies this, lists
      ensures Valid() && fresh(Repr - old(Repr))
      ensures translated !in old(Repr) ==> translated !in Repr
      ensures Contents() == Store(old(Contents()), key, translated[..]) && Sound(Contents())
    {
      hide Sound, Store;
      ghost var before, values := lists.State(), Contents();
      var mine := Clone(translated);
      StoreSound(before, key, mine);
      lists.CacheStore(key, mine);
      Repr := Repr + {mine};
      StoreSame(before, values, key, mine, translated[..]);
      StoreSame(values, before, key, translated[..], mine);
      assert Contents().items == Store(values, key, translated[..]).items;
      SameSound(lists.State(), Contents());
    }
  }

  lemma SameSound<V, W>(c: Cache<V>, d: Cache<W>)
    requires Sound(c) && c.order == d.order && c.items.Keys == d.items.Keys
    ensures Sound(d)
  {
    assert forall k :: k in c.items <==> k in d.items;
  }

  method Clone(a: array<string>) returns (b: array<string>)
    ensures fresh(b) && b[..] == a[..]
  {
    b := new string[a.Length](i requires 0 <= i < a.Length reads a => a[i]);
  }

  /** A caller that writes to what it was given changes nothing the cache gives to the next one. */
  method WriteToAnswer(cache: StatementCache, key: string, text: string) returns (found: bool, again: array<string>)
    requires cache.Valid()
    ensures cache.Valid() && cache.Contents() == old(cache.Contents())
    ensures found <==> key in old(cache.Contents()).items
    ensures found ==> again[..] == old(cache.Contents()).items[key]
  {
    var out;
    found, out := cache.Lookup(key);
    if found && out.Length > 0 {
      out[0] := text;
    }
    found, again := cache.Lookup(key);
  }
}
