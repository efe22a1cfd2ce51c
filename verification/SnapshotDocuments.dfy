/**
 * The JSON documents of the query snapshots (QuerySnapshotJSON, UnsupportedSnapshotJSON and the size
 * estimators in pkg/mysqlmock/diagnostics.go): the buffer is sized exactly, and reading a document
 * by the grammar of RFC 8259 gives the recorded entries.
 */
module SnapshotDocuments {
  import opened Options
  import opened SnapshotStrings

  datatype Field = Field(name: string, value: string, omitEmpty: bool)

  datatype QueryEvent = QueryEvent(command: string, route: string, database: string, sql: string, normalizedSql: string)

  datatype UnsupportedQuery = UnsupportedQuery(command: string, routeStage: string, currentDb: string, sql: string,
                                               normalizedSql: string, suggestion: string)

  /** The normalised text is left out where it is the text itself. */
  function Normalized(sql: string, normalizedSql: string): string {
    if normalizedSql == sql then "" else normalizedSql
  }

  function QueryFields(q: QueryEvent): seq<Field> {
    [Field("command", q.command, true), Field("route", q.route, true), Field("database", q.database, true),
     Field("sql", q.sql, false), Field("normalized_sql", Normalized(q.sql, q.normalizedSql), true)]
  }

  function UnsupportedFields(q: UnsupportedQuery): seq<Field> {
    [Field("command", q.command, true), Field("route_stage", q.routeStage, true), Field("database", q.currentDb, true),
     Field("sql", q.sql, false), Field("normalized_sql", Normalized(q.sql, q.normalizedSql), true),
     Field("suggestion", q.suggestion, true)]
  }

  predicate Omitted(f: Field) {
    f.omitEmpty && f.value == ""
  }

  /** The fields that are written. */
  function Kept(fields: seq<Field>): seq<Field> {
    if fields == [] then [] else (if Omitted(fields[0]) then [] else [fields[0]]) + Kept(fields[1..])
  }

  // ---------------------------------------------------------------------------------------------
  // The document, each part followed by the rest of it
  // ---------------------------------------------------------------------------------------------

  function Queries(): (s: string) { "queries" }

  /** `{`, the name of the one member, and the bracket that opens its array. */
  function Opening(rest: string): (s: string) {
    "{" + ("\n  " + (("\"" + (Queries() + "\"")) + (":" + (" " + ("[" + rest)))))
  }

  function Start(): (s: string) { Opening("\n") }
  function Finish(): (s: string) { "\n  ]\n}\n" }
  function Empty(): (s: string) { Opening("]" + ("\n" + ("}" + "\n"))) }
  function ObjectStart(): (s: string) { "    {\n" }
  function ObjectEnd(): (s: string) { "\n    }" }
  function Comma(): (s: string) { ",\n" }
  function Indent(): (s: string) { "      " }
  function NameStart(): (s: string) { Indent() + "\"" }
  function NameEnd(): (s: string) { "\": " }

  function FieldText(f: Field): string {
    NameStart() + f.name + NameEnd() + Encoded(f.value)
  }

  /** The fields, separated by commas, then `rest`; `first` says whether one has been written before. */
  function FieldsText(fields: seq<Field>, first: bool, rest: string): string {
    if fields == [] then rest
    else if Omitted(fields[0]) then FieldsText(fields[1..], first, rest)
    else (if first then "" else Comma()) + (FieldText(fields[0]) + FieldsText(fields[1..], false, rest))
  }

  function EntryText(fields: seq<Field>, rest: string): string {
    ObjectStart() + FieldsText(fields, true, ObjectEnd() + rest)
  }

  function EntriesText(entries: seq<seq<Field>>, first: bool, rest: string): string {
    if entries == [] then rest
    else (if first then "" else Comma()) + EntryText(entries[0], EntriesText(entries[1..], false, rest))
  }

  function Document(entries: seq<seq<Field>>): string {
    if entries == [] then Empty() else Start() + EntriesText(entries, true, Finish())
  }

  // ---------------------------------------------------------------------------------------------
  // The writer and the size estimator
  // ---------------------------------------------------------------------------------------------

  lemma {:induction false} FieldsFrom(fields: seq<Field>, i: nat, first: bool, rest: string)
    requires i < |fields|
    ensures FieldsText(fields[i..], first, rest) ==
              if Omitted(fields[i]) then FieldsText(fields[i + 1..], first, rest)
              else (if first then "" else Comma()) + (FieldText(fields[i]) + FieldsText(fields[i + 1..], false, rest))
  {
    hide FieldText, Comma;
    assert fields[i..][1..] == fields[i + 1..];
  }

  lemma NoFields(fields: seq<Field>, first: bool, rest: string)
    ensures FieldsText(fields[|fields|..], first, rest) == rest
  {
  }

  lemma Regroup(a: string, b: string, c: string, d: string)
    ensures a + (b + (c + d)) == ((a + b) + c) + d
  {
  }

  /** appendSnapshotStringField, field after field. */
  method AppendFields(out: string, fields: seq<Field>) returns (r: string)
    ensures r == out + FieldsText(fields, true, "")
  {
    hide FieldsText, FieldText, Comma, NameStart, NameEnd, Encoded;
    r := out;
    var fieldCount := 0;
    assert fields[0..] == fields;
    for i := 0 to |fields|
      invariant fieldCount >= 0
      invariant out + FieldsText(fields, true, "") == r + FieldsText(fields[i..], fieldCount == 0, "")
    {
      FieldsFrom(fields, i, fieldCount == 0, "");
      if fields[i].omitEmpty && fields[i].value == "" {
        continue;
      }
      ghost var later := FieldsText(fields[i + 1..], false, "");
      Regroup(r, if fieldCount == 0 then "" else Comma(), FieldText(fields[i]), later);
      if fieldCount > 0 {
        r := r + Comma();
      } else {
        assert r + "" == r;
      }
      r := AppendField(r, fields[i]);
      fieldCount := fieldCount + 1;
    }
    NoFields(fields, fieldCount == 0, "");
    assert r + "" == r;
  }

  method AppendField(out: string, f: Field) returns (r: string)
    ensures r == out + FieldText(f)
  {
    hide NameStart, NameEnd, Encoded;
    r := out + NameStart();
    r := r + f.name;
    r := r + NameEnd();
    r := AppendSnapshotJsonString(r, f.value);
    assert r == out + (NameStart() + f.name + NameEnd() + Encoded(f.value));
  }

  lemma {:induction false} FieldsSplit(fields: seq<Field>, first: bool, rest: string)
    ensures FieldsText(fields, first, rest) == FieldsText(fields, first, "") + rest
  {
    hide FieldText, Comma;
    if fields != [] {
      FieldsSplit(fields[1..], first, rest);
      FieldsSplit(fields[1..], false, rest);
      if !Omitted(fields[0]) {
        var sep, later := if first then "" else Comma(), FieldsText(fields[1..], false, "");
        assert sep + (FieldText(fields[0]) + (later + rest)) == (sep + (FieldText(fields[0]) + later)) + rest;
      }
    }
  }

  /** One entry on its own. */
  function EntryOnly(fields: seq<Field>): string {
    ObjectStart() + FieldsText(fields, true, "") + ObjectEnd()
  }

  lemma EntrySplit(fields: seq<Field>, rest: string)
    ensures EntryText(fields, rest) == EntryOnly(fields) + rest
  {
    hide FieldsText, ObjectStart, ObjectEnd;
    FieldsSplit(fields, true, ObjectEnd() + rest);
  }

  lemma EntriesFrom(entries: seq<seq<Field>>, i: nat, first: bool, rest: string)
    requires i < |entries|
    ensures EntriesText(entries[i..], first, rest) ==
              ((if first then "" else Comma()) + EntryOnly(entries[i])) + EntriesText(entries[i + 1..], false, rest)
  {
    hide EntryText, EntryOnly, Comma;
    assert entries[i..][1..] == entries[i + 1..];
    EntrySplit(entries[i], EntriesText(entries[i + 1..], false, rest));
  }

  lemma EntryNotEmpty(fields: seq<Field>)
    ensures |EntryOnly(fields)| > 0
  {
    hide FieldsText, ObjectEnd;
  }

  /**
   * The document as it is appended to: a comma goes before every object that is not the first, which
   * the writer sees from the length of the buffer.
   */
  method SnapshotJson(entries: seq<seq<Field>>) returns (out: string)
    ensures out == Document(entries)
  {
    hide EntriesText, EntryOnly, Comma, Start, Finish, Empty, ObjectStart, ObjectEnd;
    if |entries| == 0 {
      return Empty();
    }
    out := Start();
    assert entries[0..] == entries;
    for i := 0 to |entries|
      invariant Document(entries) == out + EntriesText(entries[i..], i == 0, Finish())
      invariant |out| >= |Start()| && (i == 0 <==> |out| == |Start()|)
    {
      EntriesFrom(entries, i, i == 0, Finish());
      EntryNotEmpty(entries[i]);
      ghost var before := out;
      ghost var sep := if i == 0 then "" else Comma();
      if |out| > |Start()| {
        out := out + Comma();
      }
      assert out == before + sep;
      out := AppendEntry(out, entries[i]);
      assert before + ((sep + EntryOnly(entries[i])) + EntriesText(entries[i + 1..], false, Finish()))
          == out + EntriesText(entries[i + 1..], false, Finish());
    }
    NoEntries(entries, Finish());
    out := out + Finish();
  }

  method AppendEntry(out: string, fields: seq<Field>) returns (r: string)
    ensures r == out + EntryOnly(fields)
  {
    hide FieldsText, ObjectStart, ObjectEnd;
    r := out + ObjectStart();
    r := AppendFields(r, fields);
    r := r + ObjectEnd();
    assert r == out + (ObjectStart() + FieldsText(fields, true, "") + ObjectEnd());
  }

  lemma NoEntries(entries: seq<seq<Field>>, rest: string)
    ensures EntriesText(entries[|entries|..], |entries| == 0, rest) == rest
  {
  }

  /** estimateSnapshotStringField, field after field. */
  method EstimateFields(size: nat, fields: seq<Field>) returns (r: nat)
    ensures r == size + |FieldsText(fields, true, "")|
  {
    hide FieldsText, FieldText, Comma;
    r := size;
    var fieldCount := 0;
    assert fields[0..] == fields;
    for i := 0 to |fields|
      invariant fieldCount >= 0
      invariant size + |FieldsText(fields, true, "")| == r + |FieldsText(fields[i..], fieldCount == 0, "")|
    {
      FieldsFrom(fields, i, fieldCount == 0, "");
      if fields[i].omitEmpty && fields[i].value == "" {
        continue;
      }
      if fieldCount > 0 {
        r := r + |Comma()|;
      }
      FieldSize(fields[i]);
      var valueLen := SnapshotJsonStringLen(fields[i].value);
      r := r + |NameStart()| + |fields[i].name| + |NameEnd()| + valueLen;
      fieldCount := fieldCount + 1;
    }
    NoFields(fields, fieldCount == 0, "");
  }

  lemma FieldSize(f: Field)
    ensures |FieldText(f)| == |NameStart()| + |f.name| + |NameEnd()| + |Encoded(f.value)|
  {
    hide NameStart, NameEnd, Encoded;
  }

  /** The size the buffer is allocated with is exactly the length of the document. */
  method EstimateSnapshotSize(entries: seq<seq<Field>>) returns (size: nat)
    ensures size == |Document(entries)|
  {
    hide EntriesText, Comma, Start, Finish, Empty, ObjectStart, ObjectEnd, FieldsText;
    if |entries| == 0 {
      return |Empty()|;
    }
    size := |Start()| + |Finish()|;
    assert entries[0..] == entries;
    for i := 0 to |entries|
      invariant |Document(entries)| + |Finish()| == size + |EntriesText(entries[i..], i == 0, Finish())|
    {
      EntriesFrom(entries, i, i == 0, Finish());
      if i > 0 {
        size := size + |Comma()|;
      }
      size := size + |ObjectStart()| + |ObjectEnd()|;
      size := EstimateFields(size, entries[i]);
    }
    NoEntries(entries, Finish());
  }

  method QuerySnapshotJson(queries: seq<QueryEvent>) returns (out: string, capacity: nat)
    ensures out == Document(seq(|queries|, i requires 0 <= i < |queries| => QueryFields(queries[i])))
    ensures capacity == |out|
  {
    var entries := seq(|queries|, i requires 0 <= i < |queries| => QueryFields(queries[i]));
    capacity := EstimateSnapshotSize(entries);
    out := SnapshotJson(entries);
  }

  method UnsupportedSnapshotJson(queries: seq<UnsupportedQuery>) returns (out: string, capacity: nat)
    ensures out == Document(seq(|queries|, i requires 0 <= i < |queries| => UnsupportedFields(queries[i])))
    ensures capacity == |out|
  {
    var entries := seq(|queries|, i requires 0 <= i < |queries| => UnsupportedFields(queries[i]));
    capacity := EstimateSnapshotSize(entries);
    out := SnapshotJson(entries);
  }

  // ---------------------------------------------------------------------------------------------
  // A reader of the documents
  // ---------------------------------------------------------------------------------------------

  predicate IsJsonSpace(c: char) {
    c == ' ' || c == '\t' || c == '\n' || c == '\r'
  }

  function SkipBlanks(t: string): (r: string)
    ensures |r| <= |t|
  {
    if t != "" && IsJsonSpace(t[0]) then SkipBlanks(t[1..]) else t
  }

  /** The text after the given character, which must come next. */
  function After(t: string, c: char): (r: Option<string>)
    ensures r.Some? ==> |r.value| < |t|
  {
    var u := SkipBlanks(t);
    if u != "" && u[0] == c then Some(u[1..]) else None
  }

  function ReadText(t: string): (r: Option<(string, string)>)
    ensures r.Some? ==> |r.value.1| < |t|
  {
    ReadString(SkipBlanks(t))
  }

  datatype Member = Member(name: string, value: string)

  function ReadMember(t: string): (r: Option<(Member, string)>)
    ensures r.Some? ==> |r.value.1| < |t|
  {
    var name := ReadText(t);
    if name.None? then None
    else
      var colon := After(name.value.1, ':');
      if colon.None? then None
      else
        var value := ReadText(colon.value);
        if value.None? then None else Some((Member(name.value.0, value.value.0), value.value.1))
  }

  /** Members separated by commas, up to the closing brace. */
  function ReadMembers(t: string): (r: Option<(seq<Member>, string)>)
    ensures r.Some? ==> |r.value.1| < |t|
    decreases |t|
  {
    var m := ReadMember(t);
    if m.None? then None
    else
      var end := After(m.value.1, '}');
      if end.Some? then Some(([m.value.0], end.value))
      else
        var comma := After(m.value.1, ',');
        if comma.None? then None
        else
          var later := ReadMembers(comma.value);
          if later.None? then None else Some(([m.value.0] + later.value.0, later.value.1))
  }

  function ReadObject(t: string): (r: Option<(seq<Member>, string)>)
    ensures r.Some? ==> |r.value.1| < |t|
  {
    var open := After(t, '{');
    if open.None? then None else ReadMembers(open.value)
  }

  /** Objects separated by commas, up to the closing bracket. */
  function ReadObjects(t: string): (r: Option<(seq<seq<Member>>, string)>)
    decreases |t|
  {
    var o := ReadObject(t);
    if o.None? then None
    else
      var end := After(o.value.1, ']');
      if end.Some? then Some(([o.value.0], end.value))
      else
        var comma := After(o.value.1, ',');
        if comma.None? then None
        else
          var later := ReadObjects(comma.value);
          if later.None? then None else Some(([o.value.0] + later.value.0, later.value.1))
  }

  function ReadArray(t: string): Option<(seq<seq<Member>>, string)> {
    var end := After(t, ']');
    if end.Some? then Some(([], end.value)) else ReadObjects(t)
  }

  /** `{"queries": [...]}`, with nothing but white space behind it. */
  function ReadDocument(t: string): Option<seq<seq<Member>>> {
    var open := After(t, '{');
    var name := if open.None? then None else ReadText(open.value);
    var colon := if name.None? || name.value.0 != "queries" then None else After(name.value.1, ':');
    var bracket := if colon.None? then None else After(colon.value, '[');
    var items := if bracket.None? then None else ReadArray(bracket.value);
    var close := if items.None? then None else After(items.value.1, '}');
    if close.None? || SkipBlanks(close.value) != "" then None else Some(items.value.0)
  }
}
