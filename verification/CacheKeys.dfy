/**
 * Keys of the information_schema result caches (informationSchemaQueryCacheKey and
 * showFullFieldsCacheKey in pkg/mysqlmock/information_schema_cache.go).
 *
 * The query key writes each part behind its length in decimal; the other key only separates its
 * parts by NUL bytes.
 */
module CacheKeys {
  import Text

  const NUL: char := 0 as char

  /** What stands between the parts of a key. */
  const SEPARATOR: string := [0 as char]

  // ---------------------------------------------------------------------------------------------
  // Decimal numbers
  // ---------------------------------------------------------------------------------------------

  function Digit(d: nat): (c: char)
    requires d < 10
    ensures c == (d + 48) as char
  {
    (d + 48) as char
  }

  /** The `%d` of a length. */
  function Decimal(n: nat): (s: string)
    ensures s != "" && forall i :: 0 <= i < |s| ==> Text.IsDigit(s[i])
  {
    if n < 10 then [Digit(n)] else Decimal(n / 10) + [Digit(n % 10)]
  }

  function Number(s: string): nat
    requires forall i :: 0 <= i < |s| ==> Text.IsDigit(s[i])
  {
    if s == "" then 0
    else
      assert Text.IsDigit(s[|s| - 1]);
      10 * Number(s[..|s| - 1]) + (s[|s| - 1] as int - 48)
  }

  lemma {:induction false} DecimalRoundTrip(n: nat)
    ensures Number(Decimal(n)) == n
  {
    if n >= 10 {
      DecimalRoundTrip(n / 10);
      assert Decimal(n)[..|Decimal(n)| - 1] == Decimal(n / 10);
    } else {
      assert Decimal(n)[..0] == "";
    }
  }

  // ---------------------------------------------------------------------------------------------
  // Length-prefixed parts
  // ---------------------------------------------------------------------------------------------

  /** writeInformationSchemaCacheKeyPart */
  function Part(value: string): string {
    Decimal(|value|) + (":" + (value + SEPARATOR))
  }

  function Parts(values: seq<string>): string {
    if values == [] then "" else Part(values[0]) + Parts(values[1..])
  }

  /** Where the digits of two equal texts end, their numbers end. */
  lemma SameNumber(a: nat, b: nat, x: string, y: string)
    requires Decimal(a) + (":" + x) == Decimal(b) + (":" + y)
    ensures a == b && x == y
  {
    var s, t := Decimal(a) + (":" + x), Decimal(b) + (":" + y);
    SameLength(Decimal(a), Decimal(b), x, y);
    assert s[..|Decimal(a)|] == Decimal(a) && t[..|Decimal(b)|] == Decimal(b);
    DecimalRoundTrip(a);
    DecimalRoundTrip(b);
    assert s[|Decimal(a)| + 1..] == x && t[|Decimal(b)| + 1..] == y;
  }

  lemma SameLength(a: string, b: string, x: string, y: string)
    requires forall i :: 0 <= i < |a| ==> Text.IsDigit(a[i])
    requires forall i :: 0 <= i < |b| ==> Text.IsDigit(b[i])
    requires a + (":" + x) == b + (":" + y)
    ensures |a| == |b|
  {
    var s := a + (":" + x);
    assert s[|a|] == ':' && s[|b|] == ':';
    assert forall i :: 0 <= i < |a| ==> s[i] == a[i];
    assert forall i :: 0 <= i < |b| ==> s[i] == b[i];
  }

  lemma SamePart(a: string, b: string, x: string, y: string)
    requires Part(a) + x == Part(b) + y
    ensures a == b && x == y
  {
    hide Decimal;
    var p, q := a + [NUL] + x, b + [NUL] + y;
    assert Part(a) + x == Decimal(|a|) + (":" + p);
    assert Part(b) + y == Decimal(|b|) + (":" + q);
    SameNumber(|a|, |b|, p, q);
    assert p[..|a|] == a && q[..|b|] == b;
    assert p[|a| + 1..] == x && q[|b| + 1..] == y;
  }

  /** No two lists of parts share a key: every part, whatever bytes it holds, can be read back. */
  lemma {:induction false} PartsInjective(a: seq<string>, b: seq<string>)
    requires Parts(a) == Parts(b)
    ensures a == b
  {
    hide Part;
    if a == [] || b == [] {
      PartsEmpty(a);
      PartsEmpty(b);
    } else {
      SamePart(a[0], b[0], Parts(a[1..]), Parts(b[1..]));
      PartsInjective(a[1..], b[1..]);
      assert a == [a[0]] + a[1..] && b == [b[0]] + b[1..];
    }
  }

  lemma PartsEmpty(a: seq<string>)
    ensures Parts(a) == "" <==> a == []
  {
  }

  /** informationSchemaQueryCacheKey, with the arguments already rendered. */
  function QueryKey(db: string, query: string, args: seq<string>): string {
    Parts([Text.Lower(db), query] + args)
  }

  /** Two queries share a cached result only if database, text and every argument agree. */
  lemma QueryKeyInjective(db1: string, query1: string, args1: seq<string>, db2: string, query2: string, args2: seq<string>)
    ensures QueryKey(db1, query1, args1) == QueryKey(db2, query2, args2) <==>
              Text.Lower(db1) == Text.Lower(db2) && query1 == query2 && args1 == args2
  {
    var a, b := [Text.Lower(db1), query1] + args1, [Text.Lower(db2), query2] + args2;
    if QueryKey(db1, query1, args1) == QueryKey(db2, query2, args2) {
      PartsInjective(a, b);
      assert a[0] == b[0] && a[1] == b[1] && a[2..] == args1 && b[2..] == args2;
    }
  }

  method InformationSchemaQueryCacheKey(db: string, query: string, args: seq<string>) returns (key: string)
    ensures key == QueryKey(db, query, args)
  {
    hide Part;
    ghost var values := [Text.Lower(db), query] + args;
    PartsStep(values, 0);
    PartsStep(values, 1);
    key := Part(Text.Lower(db));
    key := key + Part(query);
    assert values[0..] == values;
    for i := 0 to |args|
      invariant Parts(values) == key + Parts(values[2 + i..])
    {
      PartsStep(values, 2 + i);
      assert key + (Part(args[i]) + Parts(values[3 + i..])) == (key + Part(args[i])) + Parts(values[3 + i..]);
      key := key + Part(args[i]);
    }
    assert values[2 + |args|..] == [] && key + "" == key;
  }

  lemma PartsStep(values: seq<string>, i: nat)
    requires i < |values|
    ensures Parts(values[i..]) == Part(values[i]) + Parts(values[i + 1..])
  {
    assert values[i..][1..] == values[i + 1..];
  }

  // ---------------------------------------------------------------------------------------------
  // NUL-separated parts
  // ---------------------------------------------------------------------------------------------

  /** showFullFieldsCacheKey */
  function ShowFullFieldsKey(db: string, table: string, like: string, collation: string): string {
    Text.Lower(db) + (SEPARATOR + (Text.Lower(table) + (SEPARATOR + (like + (SEPARATOR + Text.Lower(collation))))))
  }

  lemma CutAtNul(a: string, b: string, x: string, y: string)
    requires NUL !in a && NUL !in b && a + ([NUL] + x) == b + ([NUL] + y)
    ensures a == b && x == y
  {
    var s, t := a + ([NUL] + x), b + ([NUL] + y);
    assert s[|a|] == NUL && t[|b|] == NUL;
    assert |a| == |b|;
    assert s[..|a|] == a && t[..|b|] == b && s[|a| + 1..] == x && t[|b| + 1..] == y;
  }

  lemma LowerKeepsNul(s: string)
    requires NUL !in s
    ensures NUL !in Text.Lower(s)
  {
    forall i | 0 <= i < |s|
      ensures Text.Lower(s)[i] != NUL
    {
      assert s[i] in s;
    }
  }

  /** For names and patterns without NUL bytes the keys differ whenever a part does. */
  lemma ShowFullFieldsInjective(db1: string, table1: string, like1: string, collation1: string,
                                db2: string, table2: string, like2: string, collation2: string)
    requires NUL !in db1 && NUL !in table1 && NUL !in like1
    requires NUL !in db2 && NUL !in table2 && NUL !in like2
    requires ShowFullFieldsKey(db1, table1, like1, collation1) == ShowFullFieldsKey(db2, table2, like2, collation2)
    ensures Text.Lower(db1) == Text.Lower(db2) && Text.Lower(table1) == Text.Lower(table2) && like1 == like2
    ensures Text.Lower(collation1) == Text.Lower(collation2)
  {
    LowerKeepsNul(db1);
    LowerKeepsNul(db2);
    LowerKeepsNul(table1);
    LowerKeepsNul(table2);
    var x1, y1 := like1 + ([NUL] + Text.Lower(collation1)), Text.Lower(table1) + ([NUL] + (like1 + ([NUL] + Text.Lower(collation1))));
    var x2, y2 := like2 + ([NUL] + Text.Lower(collation2)), Text.Lower(table2) + ([NUL] + (like2 + ([NUL] + Text.Lower(collation2))));
    hide Text.Lower;
    CutAtNul(Text.Lower(db1), Text.Lower(db2), y1, y2);
    CutAtNul(Text.Lower(table1), Text.Lower(table2), x1, x2);
    CutAtNul(like1, like2, Text.Lower(collation1), Text.Lower(collation2));
  }

  /** Two requests that are different, and share a key. */
  predicate Clash(db1: string, table1: string, like1: string, collation1: string,
                  db2: string, table2: string, like2: string, collation2: string) {
    && ShowFullFieldsKey(db1, table1, like1, collation1) == ShowFullFieldsKey(db2, table2, like2, collation2)
    && !(Text.Lower(db1) == Text.Lower(db2) && Text.Lower(table1) == Text.Lower(table2) && like1 == like2 &&
         Text.Lower(collation1) == Text.Lower(collation2))
  }

  predicate IsLower(s: string) {
    Text.Lower(s) == s
  }

  /** A NUL byte of the pattern with only lower case before it, or behind it: one side can change its part. */
  predicate Movable(like: string) {
    exists i :: 0 <= i < |like| && like[i] == NUL && (IsLower(like[..i]) || IsLower(like[i + 1..]))
  }

  lemma LowerAppend(a: string, b: string)
    ensures Text.Lower(a + b) == Text.Lower(a) + Text.Lower(b)
  {
  }

  lemma LowerTwice(s: string)
    ensures IsLower(Text.Lower(s)) && IsLower([NUL]) && (NUL in Text.Lower(s) <==> NUL in s)
  {
    forall i | 0 <= i < |s|
      ensures Text.Lower(s)[i] == NUL <==> s[i] == NUL
    {
    }
    assert NUL in s ==> exists i :: 0 <= i < |s| && s[i] == NUL;
    assert NUL in Text.Lower(s) ==> exists i :: 0 <= i < |s| && Text.Lower(s)[i] == NUL;
  }

  lemma LowerSlice(s: string, i: nat, j: nat)
    requires IsLower(s) && i <= j <= |s|
    ensures IsLower(s[i..j])
  {
    forall k | 0 <= k < j - i
      ensures Text.Lower(s[i..j])[k] == s[i..j][k]
    {
      assert Text.Lower(s)[i + k] == s[i + k];
    }
  }

  lemma LowerJoin(a: string, b: string)
    requires IsLower(a) && IsLower(b)
    ensures IsLower(a + ([NUL] + b))
  {
    LowerTwice("");
    LowerAppend([NUL], b);
    LowerAppend(a, [NUL] + b);
  }

  /**
   * With a NUL byte in the pattern, and lower case behind it, the rest of the pattern may as well be
   * the start of the collation: for every table these two requests share a key.
   */
  lemma ShowFullFieldsCollide(db: string, table: string, like: string, more: string, collation: string)
    requires IsLower(more)
    ensures Clash(db, table, like + ([NUL] + more), collation, db, table, like, more + ([NUL] + Text.Lower(collation)))
  {
    LowerTwice(collation);
    LowerJoin(more, Text.Lower(collation));
    hide Text.Lower;
    var c := Text.Lower(collation);
    assert (like + ([NUL] + more)) + ([NUL] + c) == like + ([NUL] + (more + ([NUL] + c)));
    assert |like + ([NUL] + more)| > |like|;
  }

  // ---------------------------------------------------------------------------------------------
  // Exactly which requests can clash
  // ---------------------------------------------------------------------------------------------

  /** Where one text is cut at NUL bytes twice, the cuts are the same or one is inside the other's piece. */
  lemma TwoCuts(a: string, x: string, b: string, y: string)
    requires a + ([NUL] + x) == b + ([NUL] + y)
    ensures |a| == |b| ==> a == b && x == y
    ensures |a| < |b| ==> a == b[..|a|] && b[|a|] == NUL && x == b[|a| + 1..] + ([NUL] + y) && NUL in x
    ensures |a| < |b| ==> NUL in b
  {
    var s := a + ([NUL] + x);
    assert s[..|a|] == a && s[..|b|] == b && s[|a|] == NUL && s[|a| + 1..] == x;
    if |a| < |b| {
      assert b[|a|] == s[|a|];
      assert s[|a| + 1..] == b[|a| + 1..] + ([NUL] + y);
      assert x[|b| - |a| - 1] == NUL;
    } else if |a| == |b| {
      assert (b + ([NUL] + y))[|b| + 1..] == y;
    }
  }

  lemma LowerStart(a: string, b: string)
    requires IsLower(a + b)
    ensures IsLower(a)
  {
    LowerSlice(a + b, 0, |a|);
    assert (a + b)[0..|a|] == a;
  }

  lemma LowerRest(s: string, i: nat)
    requires IsLower(s) && i <= |s|
    ensures IsLower(s[i..])
  {
    LowerSlice(s, i, |s|);
    assert s[i..|s|] == s[i..];
  }

  /** A lower-case piece that ends inside the pattern or behind it. */
  lemma PieceInPattern(like: string, c: string, piece: string, y: string)
    requires like + ([NUL] + c) == piece + ([NUL] + y) && NUL !in c && IsLower(piece)
    ensures Movable(like) || (like == piece && c == y)
  {
    hide IsLower;
    TwoCuts(like, c, piece, y);
    TwoCuts(piece, y, like, c);
  }

  /** The whole pattern is read as something else only if it can be moved. */
  lemma PatternStands(like1: string, c1: string, like2: string, c2: string)
    requires like1 + ([NUL] + c1) == like2 + ([NUL] + c2) && NUL !in c1 && IsLower(c2) && !Movable(like1)
    ensures like1 == like2 && c1 == c2
  {
    hide IsLower;
    TwoCuts(like1, c1, like2, c2);
    TwoCuts(like2, c2, like1, c1);
    if |like2| < |like1| {
      LowerStart(like1[|like2| + 1..], [NUL] + c1);
    }
  }

  /** A name before the pattern stands. */
  lemma NameStands(a: string, b: string, y: string, like: string, c: string)
    requires a + ([NUL] + (like + ([NUL] + c))) == b + ([NUL] + y) && NUL !in a && IsLower(b)
    requires NUL !in c && !Movable(like) && NUL in y
    ensures a == b && like + ([NUL] + c) == y
  {
    hide IsLower, Movable;
    var x := like + ([NUL] + c);
    TwoCuts(a, x, b, y);
    TwoCuts(b, y, a, x);
    if |a| < |b| {
      LowerRest(b, |a| + 1);
      PieceInPattern(like, c, b[|a| + 1..], y);
    }
  }

  /** The database stands. */
  lemma DatabaseStands(d: string, t: string, like: string, c: string, b: string, t2: string, z: string)
    requires d + ([NUL] + (t + ([NUL] + (like + ([NUL] + c))))) == b + ([NUL] + (t2 + ([NUL] + z)))
    requires NUL !in d && NUL !in t && NUL !in c && IsLower(b) && IsLower(t2) && !Movable(like) && NUL in z
    ensures d == b && t + ([NUL] + (like + ([NUL] + c))) == t2 + ([NUL] + z)
  {
    hide IsLower, Movable;
    var x, y := t + ([NUL] + (like + ([NUL] + c))), t2 + ([NUL] + z);
    TwoCuts(d, x, b, y);
    TwoCuts(b, y, d, x);
    if |d| < |b| {
      LowerRest(b, |d| + 1);
      assert NUL in y;
      NameStands(t, b[|d| + 1..], y, like, c);
      PieceInPattern(like, c, t2, z);
    }
  }

  /**
   * A request shares its key with a different one exactly when there is a NUL byte in its database,
   * table or collation, or one in its pattern with only lower case on one of its sides.
   */
  lemma ShowFullFieldsShared(db: string, table: string, like: string, collation: string)
    ensures (exists db2, table2, like2, collation2 :: Clash(db, table, like, collation, db2, table2, like2, collation2))
            <==> NUL in db || NUL in table || NUL in collation || Movable(like)
  {
    if NUL in db || NUL in table || NUL in collation || Movable(like) {
      var db2, table2, like2, collation2 := Moved(db, table, like, collation);
    } else {
      forall db2, table2, like2, collation2
        ensures !Clash(db, table, like, collation, db2, table2, like2, collation2)
      {
        NoClash(db, table, like, collation, db2, table2, like2, collation2);
      }
    }
  }

  lemma NoClash(db1: string, table1: string, like1: string, collation1: string,
                db2: string, table2: string, like2: string, collation2: string)
    requires NUL !in db1 && NUL !in table1 && NUL !in collation1 && !Movable(like1)
    ensures !Clash(db1, table1, like1, collation1, db2, table2, like2, collation2)
  {
    if ShowFullFieldsKey(db1, table1, like1, collation1) == ShowFullFieldsKey(db2, table2, like2, collation2) {
      var d1, t1, c1 := Text.Lower(db1), Text.Lower(table1), Text.Lower(collation1);
      var d2, t2, c2 := Text.Lower(db2), Text.Lower(table2), Text.Lower(collation2);
      LowerTwice(db1);
      LowerTwice(table1);
      LowerTwice(collation1);
      LowerTwice(db2);
      LowerTwice(table2);
      LowerTwice(collation2);
      hide Text.Lower, Movable;
      var z := like2 + ([NUL] + c2);
      assert z[|like2|] == NUL;
      DatabaseStands(d1, t1, like1, c1, d2, t2, z);
      NameStands(t1, t2, z, like1, c1);
      PatternStands(like1, c1, like2, c2);
    }
  }

  /** Such a request and another with the same key. */
  lemma Moved(db: string, table: string, like: string, collation: string)
    returns (db2: string, table2: string, like2: string, collation2: string)
    requires NUL in db || NUL in table || NUL in collation || Movable(like)
    ensures Clash(db, table, like, collation, db2, table2, like2, collation2)
  {
    var d, t, c := Text.Lower(db), Text.Lower(table), Text.Lower(collation);
    LowerTwice(db);
    LowerTwice(table);
    LowerTwice(collation);
    db2, table2, like2, collation2 := d, t, like, c;
    hide Text.Lower, IsLower, Movable;
    if NUL in db {
      db2, table2 := CutFirst(d, t, like + ([NUL] + c));
    } else if NUL in table {
      db2, table2 := CutSecond(d, t, like + ([NUL] + c));
    } else if NUL in collation {
      like2, collation2 := CutLast(like, c);
    } else {
      table2, like2, collation2 := CutPattern(t, like, c);
    }
    Clashes(db, table, like, collation, db2, table2, like2, collation2);
  }

  lemma Clashes(db1: string, table1: string, like1: string, collation1: string,
                db2: string, table2: string, like2: string, collation2: string)
    requires IsLower(db2) && IsLower(table2) && IsLower(collation2)
    requires var d, t, c := Text.Lower(db1), Text.Lower(table1), Text.Lower(collation1);
             d + ([NUL] + (t + ([NUL] + (like1 + ([NUL] + c))))) == db2 + ([NUL] + (table2 + ([NUL] + (like2 + ([NUL] + collation2)))))
             && (d != db2 || t != table2 || like1 != like2 || c != collation2)
    ensures Clash(db1, table1, like1, collation1, db2, table2, like2, collation2)
  {
    hide Text.Lower;
  }

  lemma CutFirst(d: string, t: string, rest: string) returns (d2: string, t2: string)
    requires IsLower(d) && IsLower(t) && NUL in d
    ensures IsLower(d2) && IsLower(t2) && d2 != d
    ensures d + ([NUL] + (t + ([NUL] + rest))) == d2 + ([NUL] + (t2 + ([NUL] + rest)))
  {
    hide IsLower;
    var i :| 0 <= i < |d| && d[i] == NUL;
    Split(d, i);
    d2, t2 := d[..i], d[i + 1..] + ([NUL] + t);
    LowerJoin(d[i + 1..], t);
    assert |d2| < |d|;
  }

  lemma CutSecond(d: string, t: string, rest: string) returns (d2: string, t2: string)
    requires IsLower(d) && IsLower(t) && NUL in t
    ensures IsLower(d2) && IsLower(t2) && t2 != t
    ensures d + ([NUL] + (t + ([NUL] + rest))) == d2 + ([NUL] + (t2 + ([NUL] + rest)))
  {
    hide IsLower;
    var i :| 0 <= i < |t| && t[i] == NUL;
    Split(t, i);
    d2, t2 := d + ([NUL] + t[..i]), t[i + 1..];
    LowerJoin(d, t[..i]);
    assert |t2| < |t|;
  }

  lemma CutLast(like: string, c: string) returns (like2: string, c2: string)
    requires IsLower(c) && NUL in c
    ensures IsLower(c2) && c2 != c && like + ([NUL] + c) == like2 + ([NUL] + c2)
  {
    hide IsLower;
    var i :| 0 <= i < |c| && c[i] == NUL;
    Split(c, i);
    like2, c2 := like + ([NUL] + c[..i]), c[i + 1..];
    assert |c2| < |c|;
  }

  /** A cut may be made at either separator. */
  lemma MovedCut(t: string, n: string, x: string, y: string, c: string)
    ensures t + (n + ((x + (n + y)) + (n + c))) == (t + (n + x)) + (n + (y + (n + c)))
    ensures t + (n + ((x + (n + y)) + (n + c))) == t + (n + (x + (n + (y + (n + c)))))
  {
  }

  lemma CutPattern(t: string, like: string, c: string) returns (t2: string, like2: string, c2: string)
    requires IsLower(t) && IsLower(c) && Movable(like)
    ensures IsLower(t2) && IsLower(c2) && like2 != like
    ensures t + ([NUL] + (like + ([NUL] + c))) == t2 + ([NUL] + (like2 + ([NUL] + c2)))
  {
    hide IsLower;
    var i :| 0 <= i < |like| && like[i] == NUL && (IsLower(like[..i]) || IsLower(like[i + 1..]));
    var x, y := like[..i], like[i + 1..];
    assert like == x + ([NUL] + y);
    assert |x| < |like| && |y| < |like|;
    MovedCut(t, [NUL], x, y, c);
    if IsLower(x) {
      LowerJoin(t, x);
      t2, like2, c2 := t + ([NUL] + x), y, c;
    } else {
      LowerJoin(y, c);
      t2, like2, c2 := t, x, y + ([NUL] + c);
    }
  }

  lemma Split(s: string, i: nat)
    requires IsLower(s) && i < |s| && s[i] == NUL
    ensures s == s[..i] + ([NUL] + s[i + 1..]) && IsLower(s[..i]) && IsLower(s[i + 1..])
  {
    LowerSlice(s, 0, i);
    LowerSlice(s, i + 1, |s|);
    assert s[0..i] == s[..i] && s[i + 1..|s|] == s[i + 1..];
  }
}
