/**
 * Reading a snapshot document back: the entries that were recorded, with the empty fields left out.
 */
module SnapshotReading {
  import opened Options
  import opened SnapshotStrings
  import opened SnapshotDocuments

  predicate Blank(w: string) {
    forall i :: 0 <= i < |w| ==> IsJsonSpace(w[i])
  }

  /** What a field is read as. */
  function MemberOf(f: Field): Member {
    Member(f.name, Repaired(f.value))
  }

  function MembersOf(fields: seq<Field>): (m: seq<Member>)
    ensures |m| == |fields|
  {
    seq(|fields|, i requires 0 <= i < |fields| => MemberOf(fields[i]))
  }

  /** The entries a document records. */
  function Recorded(entries: seq<seq<Field>>): (r: seq<seq<Member>>)
    ensures |r| == |entries|
  {
    seq(|entries|, i requires 0 <= i < |entries| => MembersOf(Kept(entries[i])))
  }

  /** A name that needs no escaping. */
  predicate NeedsNoEscape(name: string) {
    forall i :: 0 <= i < |name| ==> name[i] as int < 0x80 && Safe(name[i])
  }

  /** Every entry keeps a field, and its names need no escaping. */
  predicate Proper(fields: seq<Field>) {
    Kept(fields) != [] && forall f :: f in fields ==> NeedsNoEscape(f.name)
  }

  // ---------------------------------------------------------------------------------------------
  // White space, punctuation and strings
  // ---------------------------------------------------------------------------------------------

  lemma {:induction false} SkipsBlank(w: string, x: string)
    requires Blank(w) && (x == "" || !IsJsonSpace(x[0]))
    ensures SkipBlanks(w + x) == x
  {
    if w == "" {
      assert w + x == x;
    } else {
      assert (w + x)[1..] == w[1..] + x;
      SkipsBlank(w[1..], x);
    }
  }

  lemma AfterReads(w: string, c: char, x: string)
    requires Blank(w) && !IsJsonSpace(c)
    ensures After(w + ([c] + x), c) == Some(x)
    ensures forall d :: d != c ==> After(w + ([c] + x), d) == None
  {
    SkipsBlank(w, [c] + x);
    assert ([c] + x)[1..] == x;
  }

  lemma TextReads(w: string, value: string, x: string)
    requires Blank(w)
    ensures ReadText(w + (Encoded(value) + x)) == Some((Repaired(value), x))
  {
    SkipsBlank(w, Encoded(value) + x);
    EncodedReads(value, x);
  }

  lemma {:induction false} PlainBody(name: string)
    requires NeedsNoEscape(name)
    ensures Body(name) == name && Repaired(name) == name
  {
    if name != "" {
      PlainBody(name[1..]);
      assert RuneLen(name) == 1 && name == name[..1] + name[1..];
    }
  }

  lemma NameText(name: string)
    requires NeedsNoEscape(name)
    ensures NameStart() + name + NameEnd() == Indent() + (Encoded(name) + (":" + " "))
  {
    PlainBody(name);
    NameEndShape();
    hide Indent, NameEnd, Body;
    assert (Indent() + "\"") + name + ("\"" + (":" + " ")) == Indent() + (("\"" + (name + "\"")) + (":" + " "));
  }

  lemma NameEndShape()
    ensures NameEnd() == "\"" + (":" + " ")
  {
  }

  lemma IndentBlank(w: string)
    requires Blank(w)
    ensures Blank(w + Indent()) && Blank(" ") && Blank("")
  {
  }

  lemma MemberReads(w: string, f: Field, x: string)
    requires Blank(w) && NeedsNoEscape(f.name)
    ensures ReadMember(w + (FieldText(f) + x)) == Some((MemberOf(f), x))
  {
    hide ReadText, After, Encoded, Repaired, NameStart, NameEnd, NeedsNoEscape, Indent, Blank;
    NameText(f.name);
    PlainRepaired(f.name);
    IndentBlank(w);
    var w' := w + Indent();
    var value := Encoded(f.value) + x;
    assert w + (FieldText(f) + x) == w' + (Encoded(f.name) + (":" + (" " + value)));
    TextReads(w', f.name, ":" + (" " + value));
    assert "" + (":" + (" " + value)) == ":" + (" " + value);
    AfterReads("", ':', " " + value);
    TextReads(" ", f.value, x);
  }

  lemma PlainRepaired(name: string)
    requires NeedsNoEscape(name)
    ensures Repaired(name) == name
  {
    PlainBody(name);
  }

  // ---------------------------------------------------------------------------------------------
  // Objects
  // ---------------------------------------------------------------------------------------------

  predicate NoneOmitted(fields: seq<Field>) {
    forall f :: f in fields ==> !Omitted(f)
  }

  /** Fields that are left out leave no trace. */
  lemma {:induction false} KeptText(fields: seq<Field>, first: bool, rest: string)
    ensures FieldsText(fields, first, rest) == FieldsText(Kept(fields), first, rest)
    ensures NoneOmitted(Kept(fields)) && forall f :: f in Kept(fields) ==> f in fields
  {
    hide FieldText, Comma;
    if fields != [] {
      KeptText(fields[1..], first, rest);
      KeptText(fields[1..], false, rest);
      if !Omitted(fields[0]) {
        assert Kept(fields) == [fields[0]] + Kept(fields[1..]);
        assert ([fields[0]] + Kept(fields[1..]))[1..] == Kept(fields[1..]);
      } else {
        assert Kept(fields) == Kept(fields[1..]);
      }
    }
  }

  lemma LaterFields(fields: seq<Field>, rest: string)
    requires fields != [] && NoneOmitted(fields)
    ensures FieldsText(fields, true, rest) == FieldText(fields[0]) + FieldsText(fields[1..], false, rest)
    ensures FieldsText(fields, false, rest) == Comma() + FieldsText(fields, true, rest)
  {
    hide FieldText, Comma;
    assert !Omitted(fields[0]);
    var later := FieldText(fields[0]) + FieldsText(fields[1..], false, rest);
    assert "" + later == later;
  }

  lemma CommaShape()
    ensures Comma() == "," + "\n" && Blank("\n") && ObjectEnd() == "\n    " + "}" && Blank("\n    ")
    ensures ObjectStart() == "    " + ("{" + "\n") && Blank("    ")
  {
  }

  lemma {:induction false} MembersRead(fields: seq<Field>, w: string, x: string)
    requires fields != [] && NoneOmitted(fields) && Blank(w) && forall f :: f in fields ==> NeedsNoEscape(f.name)
    ensures ReadMembers(w + FieldsText(fields, true, ObjectEnd() + x)) == Some((MembersOf(fields), x))
    decreases |fields|
  {
    hide FieldText, FieldsText, ReadMember, After, Comma, ObjectEnd, NeedsNoEscape, MemberOf, Blank;
    var rest := ObjectEnd() + x;
    var later := FieldsText(fields[1..], false, rest);
    LaterFields(fields, rest);
    MemberReads(w, fields[0], later);
    CommaShape();
    BlankEmpty();
    if fields[1..] == [] {
      OnlyField(fields, rest);
      assert later == "\n    " + ("}" + x);
      AfterReads("\n    ", '}', x);
      assert MembersOf(fields) == [MemberOf(fields[0])];
    } else {
      LaterFields(fields[1..], rest);
      var tail := "\n" + FieldsText(fields[1..], true, rest);
      assert later == "" + ("," + tail);
      AfterReads("", ',', tail);
      MembersRead(fields[1..], "\n", x);
      assert MembersOf(fields) == [MemberOf(fields[0])] + MembersOf(fields[1..]);
    }
  }

  lemma OnlyField(fields: seq<Field>, rest: string)
    requires |fields| == 1
    ensures FieldsText(fields[1..], false, rest) == rest
  {
  }

  lemma BlankEmpty()
    ensures Blank("")
  {
  }

  lemma ObjectReads(w: string, fields: seq<Field>, x: string)
    requires Blank(w) && Proper(fields)
    ensures ReadObject(w + EntryText(fields, x)) == Some((MembersOf(Kept(fields)), x))
  {
    hide FieldsText, ReadMembers, After, ObjectStart, ObjectEnd, MembersOf, NeedsNoEscape, Kept, NoneOmitted;
    var rest := ObjectEnd() + x;
    KeptText(fields, true, rest);
    CommaShape();
    var tail := "\n" + FieldsText(Kept(fields), true, rest);
    BlankJoin(w, "    ");
    assert w + EntryText(fields, x) == (w + "    ") + ("{" + tail);
    AfterReads(w + "    ", '{', tail);
    MembersRead(Kept(fields), "\n", x);
  }

  lemma BlankJoin(a: string, b: string)
    requires Blank(a) && Blank(b)
    ensures Blank(a + b)
  {
  }

  // ---------------------------------------------------------------------------------------------
  // Documents
  // ---------------------------------------------------------------------------------------------

  lemma LaterEntries(entries: seq<seq<Field>>, rest: string)
    requires entries != []
    ensures EntriesText(entries, true, rest) == EntryText(entries[0], EntriesText(entries[1..], false, rest))
    ensures EntriesText(entries, false, rest) == Comma() + EntriesText(entries, true, rest)
  {
    hide EntryText, Comma;
    var text := EntryText(entries[0], EntriesText(entries[1..], false, rest));
    assert "" + text == text;
  }

  lemma OnlyEntry(entries: seq<seq<Field>>, rest: string)
    requires |entries| == 1
    ensures EntriesText(entries[1..], false, rest) == rest
  {
  }

  /** What closes the array and the document. */
  lemma FinishShape()
    ensures Finish() == "\n  " + ("]" + ("\n" + ("}" + "\n"))) && Blank("\n  ") && Blank("\n")
  {
  }

  lemma {:induction false} ObjectsRead(entries: seq<seq<Field>>, w: string)
    requires entries != [] && Blank(w) && forall e :: e in entries ==> Proper(e)
    ensures ReadObjects(w + EntriesText(entries, true, Finish())) == Some((Recorded(entries), "\n" + ("}" + "\n")))
    decreases |entries|
  {
    hide EntryText, EntriesText, ReadObject, After, Comma, Finish, Proper, MembersOf, Kept, Blank;
    var later := EntriesText(entries[1..], false, Finish());
    var end := "\n" + ("}" + "\n");
    LaterEntries(entries, Finish());
    ObjectReads(w, entries[0], later);
    FinishShape();
    CommaShape();
    BlankEmpty();
    if entries[1..] == [] {
      OnlyEntry(entries, Finish());
      AfterReads("\n  ", ']', end);
      assert Recorded(entries) == [MembersOf(Kept(entries[0]))];
    } else {
      LaterEntries(entries[1..], Finish());
      var tail := "\n" + EntriesText(entries[1..], true, Finish());
      assert later == "" + ("," + tail);
      AfterReads("", ',', tail);
      ObjectsRead(entries[1..], "\n");
      assert Recorded(entries) == [MembersOf(Kept(entries[0]))] + Recorded(entries[1..]);
    }
  }

  /** An array that holds an object does not end at once. */
  lemma ArrayReads(entries: seq<seq<Field>>)
    requires entries != [] && forall e :: e in entries ==> Proper(e)
    ensures ReadArray("\n" + EntriesText(entries, true, Finish())) == Some((Recorded(entries), "\n" + ("}" + "\n")))
  {
    hide EntryText, EntriesText, ReadObjects, After, Finish, Proper, Recorded, FieldsText, ObjectEnd, ObjectStart;
    ObjectsRead(entries, "\n");
    LaterEntries(entries, Finish());
    CommaShape();
    var rest := EntriesText(entries[1..], false, Finish());
    EntryStarts(entries[0], rest);
    var x := "\n" + FieldsText(entries[0], true, ObjectEnd() + rest);
    BlankJoin("\n", "    ");
    assert "\n" + ("    " + ("{" + x)) == ("\n" + "    ") + ("{" + x);
    AfterReads("\n" + "    ", '{', x);
  }

  lemma EntryStarts(fields: seq<Field>, rest: string)
    ensures EntryText(fields, rest) == "    " + ("{" + ("\n" + FieldsText(fields, true, ObjectEnd() + rest)))
  {
    hide FieldsText, ObjectEnd, ObjectStart;
    CommaShape();
  }

  /** What opens the document, up to the bracket of the array. */
  lemma OpeningReads(x: string)
    ensures var t := Opening(x);
            var open := After(t, '{');
            && open.Some?
            && var name := ReadText(open.value);
            && name.Some? && name.value.0 == "queries"
            && var colon := After(name.value.1, ':');
            && colon.Some? && After(colon.value, '[') == Some(x)
  {
    hide NeedsNoEscape, Body, Repaired;
    QueriesPlain();
    PlainBody(Queries());
    FinishShape();
    BlankSpace();
    hide After, ReadText, Encoded, Queries, Finish, Blank;
    var a := " " + ("[" + x);
    var b := Encoded(Queries()) + (":" + a);
    var t := Opening(x);
    assert t == "" + ("{" + ("\n  " + b)) && ":" + a == "" + (":" + a);
    AfterReads("", '{', "\n  " + b);
    TextReads("\n  ", Queries(), ":" + a);
    AfterReads("", ':', a);
    AfterReads(" ", '[', x);
  }

  lemma BlankSpace()
    ensures Blank(" ") && Blank("")
  {
  }

  lemma QueriesPlain()
    ensures NeedsNoEscape(Queries())
  {
  }

  lemma Closing()
    ensures After("\n" + ("}" + "\n"), '}') == Some("\n") && SkipBlanks("\n") == ""
  {
    FinishShape();
    AfterReads("\n", '}', "\n");
    SkipsBlank("\n", "");
    assert "\n" + "" == "\n";
  }

  /**
   * Reading a document gives, entry by entry and in order, the fields that were recorded: empty
   * optional ones left out, bytes that are no UTF-8 replaced, everything else as it was.
   */
  lemma DocumentReads(entries: seq<seq<Field>>)
    requires forall e :: e in entries ==> Proper(e)
    ensures ReadDocument(Document(entries)) == Some(Recorded(entries))
  {
    hide After, ReadText, ReadArray, Opening, Queries, Finish, EntriesText, Recorded, SkipBlanks;
    Closing();
    if entries == [] {
      var end := "\n" + ("}" + "\n");
      OpeningReads("]" + end);
      EmptyArray(end);
      NothingRecorded();
    } else {
      var x := "\n" + EntriesText(entries, true, Finish());
      OpeningGrows("\n", EntriesText(entries, true, Finish()));
      OpeningReads(x);
      ArrayReads(entries);
    }
  }

  lemma OpeningGrows(a: string, b: string)
    ensures Opening(a) + b == Opening(a + b)
  {
    hide Queries;
    var name := "\"" + (Queries() + "\"");
    assert ("{" + ("\n  " + (name + (":" + (" " + ("[" + a)))))) + b == "{" + (("\n  " + (name + (":" + (" " + ("[" + a))))) + b);
    assert ("\n  " + (name + (":" + (" " + ("[" + a))))) + b == "\n  " + ((name + (":" + (" " + ("[" + a)))) + b);
    assert (name + (":" + (" " + ("[" + a)))) + b == name + ((":" + (" " + ("[" + a))) + b);
    assert (":" + (" " + ("[" + a))) + b == ":" + (" " + ("[" + (a + b)));
  }

  lemma EmptyArray(x: string)
    ensures ReadArray("]" + x) == Some(([], x))
  {
    BlankEmpty();
    AfterReads("", ']', x);
    assert "" + ("]" + x) == "]" + x;
  }

  lemma NothingRecorded()
    ensures Recorded([]) == []
  {
  }

  // ---------------------------------------------------------------------------------------------
  // The two kinds of snapshot
  // ---------------------------------------------------------------------------------------------

  lemma NamesPlain()
    ensures NeedsNoEscape("command") && NeedsNoEscape("route") && NeedsNoEscape("route_stage") && NeedsNoEscape("database")
    ensures NeedsNoEscape("sql") && NeedsNoEscape("normalized_sql") && NeedsNoEscape("suggestion")
  {
  }

  lemma {:induction false} KeepsRequired(fields: seq<Field>, k: nat)
    requires k < |fields| && !Omitted(fields[k])
    ensures Kept(fields) != []
  {
    if k > 0 {
      KeepsRequired(fields[1..], k - 1);
    }
  }

  /** Every query event makes a proper entry: its text is always there. */
  lemma QueryProper(q: QueryEvent)
    ensures Proper(QueryFields(q))
  {
    NamesPlain();
    hide NeedsNoEscape;
    KeepsRequired(QueryFields(q), 3);
  }

  lemma UnsupportedProper(q: UnsupportedQuery)
    ensures Proper(UnsupportedFields(q))
  {
    NamesPlain();
    hide NeedsNoEscape;
    KeepsRequired(UnsupportedFields(q), 3);
  }

  // ---------------------------------------------------------------------------------------------
  // What a reader of the golden files gets
  // ---------------------------------------------------------------------------------------------

  /** The value of the member of that name. */
  function ValueOf(members: seq<Member>, name: string): Option<string> {
    if members == [] then None
    else if members[0].name == name then Some(members[0].value)
    else ValueOf(members[1..], name)
  }

  /** The first field of that name that is written. */
  function WrittenValue(fields: seq<Field>, name: string): Option<string> {
    if fields == [] then None
    else if fields[0].name == name && !Omitted(fields[0]) then Some(Repaired(fields[0].value))
    else WrittenValue(fields[1..], name)
  }

  lemma {:induction false} WrittenIsRead(fields: seq<Field>, name: string)
    ensures ValueOf(MembersOf(Kept(fields)), name) == WrittenValue(fields, name)
  {
    hide Repaired;
    if fields == [] {
      assert MembersOf(Kept(fields)) == [];
    } else {
      WrittenIsRead(fields[1..], name);
      var later := Kept(fields[1..]);
      assert Kept(fields) == (if Omitted(fields[0]) then [] else [fields[0]]) + later;
      hide Kept, MembersOf, ValueOf;
      if Omitted(fields[0]) {
        assert [] + later == later;
      } else {
        FirstMember(fields[0], later, name);
      }
    }
  }

  lemma FirstMember(field: Field, later: seq<Field>, name: string)
    ensures ValueOf(MembersOf([field] + later), name) ==
              if field.name == name then Some(Repaired(field.value)) else ValueOf(MembersOf(later), name)
  {
    hide Repaired;
    assert MembersOf([field] + later) == [MemberOf(field)] + MembersOf(later);
    assert ([MemberOf(field)] + MembersOf(later))[1..] == MembersOf(later);
  }

  /** A text that is left out if it is empty. */
  function Optional(text: string): Option<string> {
    if text == "" then None else Some(Repaired(text))
  }

  /** The event as the file shows it. */
  predicate ShowsQuery(entry: seq<Member>, q: QueryEvent) {
    && ValueOf(entry, "command") == Optional(q.command)
    && ValueOf(entry, "route") == Optional(q.route)
    && ValueOf(entry, "database") == Optional(q.database)
    && ValueOf(entry, "sql") == Some(Repaired(q.sql))
    && ValueOf(entry, "normalized_sql") == (if q.normalizedSql == q.sql then None else Optional(q.normalizedSql))
  }

  predicate ShowsUnsupported(entry: seq<Member>, q: UnsupportedQuery) {
    && ValueOf(entry, "command") == Optional(q.command)
    && ValueOf(entry, "route_stage") == Optional(q.routeStage)
    && ValueOf(entry, "database") == Optional(q.currentDb)
    && ValueOf(entry, "sql") == Some(Repaired(q.sql))
    && ValueOf(entry, "normalized_sql") == (if q.normalizedSql == q.sql then None else Optional(q.normalizedSql))
    && ValueOf(entry, "suggestion") == Optional(q.suggestion)
  }

  /** A field among fields of other names. */
  lemma {:induction false} FieldAt(fields: seq<Field>, k: nat)
    requires k < |fields| && forall i :: 0 <= i < |fields| && i != k ==> |fields[i].name| != |fields[k].name|
    ensures WrittenValue(fields, fields[k].name) == if Omitted(fields[k]) then None else Some(Repaired(fields[k].value))
  {
    if k > 0 {
      FieldAt(fields[1..], k - 1);
    } else {
      NoSuchField(fields[1..], fields[0].name);
    }
  }

  lemma {:induction false} NoSuchField(fields: seq<Field>, name: string)
    requires forall i :: 0 <= i < |fields| ==> |fields[i].name| != |name|
    ensures WrittenValue(fields, name).None?
  {
    if fields != [] {
      NoSuchField(fields[1..], name);
    }
  }

  lemma QueryShown(q: QueryEvent)
    ensures ShowsQuery(MembersOf(Kept(QueryFields(q))), q)
  {
    var fields := QueryFields(q);
    hide MembersOf, Kept, ValueOf, WrittenValue, Repaired;
    forall k | 0 <= k < |fields|
      ensures ValueOf(MembersOf(Kept(fields)), fields[k].name) ==
                if Omitted(fields[k]) then None else Some(Repaired(fields[k].value))
    {
      WrittenIsRead(fields, fields[k].name);
      FieldAt(fields, k);
    }
    assert fields[0].name == "command" && fields[1].name == "route" && fields[2].name == "database";
    assert fields[3].name == "sql" && fields[4].name == "normalized_sql";
  }

  lemma UnsupportedShown(q: UnsupportedQuery)
    ensures ShowsUnsupported(MembersOf(Kept(UnsupportedFields(q))), q)
  {
    var fields := UnsupportedFields(q);
    hide MembersOf, Kept, ValueOf, WrittenValue, Repaired;
    forall k | 0 <= k < |fields|
      ensures ValueOf(MembersOf(Kept(fields)), fields[k].name) ==
                if Omitted(fields[k]) then None else Some(Repaired(fields[k].value))
    {
      WrittenIsRead(fields, fields[k].name);
      FieldAt(fields, k);
    }
    assert fields[0].name == "command" && fields[1].name == "route_stage" && fields[2].name == "database";
    assert fields[3].name == "sql" && fields[4].name == "normalized_sql" && fields[5].name == "suggestion";
  }

  /** Reading a snapshot of queries gives every event, in order, member for member. */
  lemma QueriesRead(queries: seq<QueryEvent>)
    ensures var r := ReadDocument(Document(seq(|queries|, i requires 0 <= i < |queries| => QueryFields(queries[i]))));
            r.Some? && |r.value| == |queries| && forall i :: 0 <= i < |queries| ==> ShowsQuery(r.value[i], queries[i])
  {
    hide ReadDocument, Document, QueryFields, ShowsQuery, Proper;
    var entries := seq(|queries|, i requires 0 <= i < |queries| => QueryFields(queries[i]));
    forall e | e in entries ensures Proper(e) {
      var i :| 0 <= i < |queries| && e == QueryFields(queries[i]);
      QueryProper(queries[i]);
    }
    DocumentReads(entries);
    forall i | 0 <= i < |queries| ensures ShowsQuery(Recorded(entries)[i], queries[i]) {
      QueryShown(queries[i]);
    }
  }

  lemma UnsupportedRead(queries: seq<UnsupportedQuery>)
    ensures var r := ReadDocument(Document(seq(|queries|, i requires 0 <= i < |queries| => UnsupportedFields(queries[i]))));
            r.Some? && |r.value| == |queries| && forall i :: 0 <= i < |queries| ==> ShowsUnsupported(r.value[i], queries[i])
  {
    hide ReadDocument, Document, UnsupportedFields, ShowsUnsupported, Proper;
    var entries := seq(|queries|, i requires 0 <= i < |queries| => UnsupportedFields(queries[i]));
    forall e | e in entries ensures Proper(e) {
      var i :| 0 <= i < |queries| && e == UnsupportedFields(queries[i]);
      UnsupportedProper(queries[i]);
    }
    DocumentReads(entries);
    forall i | 0 <= i < |queries| ensures ShowsUnsupported(Recorded(entries)[i], queries[i]) {
      UnsupportedShown(queries[i]);
    }
  }

  // ---------------------------------------------------------------------------------------------
  // The layout of the golden files
  // ---------------------------------------------------------------------------------------------

  /** A member on a line of its own, indented by six blanks. */
  function Line(f: Field): string {
    "      \"" + f.name + "\": " + Encoded(f.value)
  }

  /** Every brace, bracket and member has its line, indented by two blanks a level; an empty list has its brackets side by side. */
  lemma Layout(f: Field, g: Field, entries: seq<seq<Field>>, rest: string)
    requires !Omitted(f) && !Omitted(g)
    ensures Document([]) == "{\n  \"queries\": []\n}\n"
    ensures entries != [] ==> Document(entries) == "{\n  \"queries\": [\n" + EntriesText(entries, true, "\n  ]\n}\n")
    ensures EntryText([f, g], rest) == "    {\n" + (Line(f) + (",\n" + (Line(g) + ("\n    }" + rest))))
  {
    hide Encoded, Line;
    TwoFields(f, g, ObjectEnd() + rest);
    hide FieldsText;
    assert Document([]) == "{\n  \"queries\": []\n}\n";
    assert Start() == "{\n  \"queries\": [\n";
  }

  lemma TwoFields(f: Field, g: Field, rest: string)
    requires !Omitted(f) && !Omitted(g)
    ensures FieldsText([f, g], true, rest) == Line(f) + (",\n" + (Line(g) + rest))
  {
    hide Encoded;
    assert [f, g][1..] == [g] && [g][1..] == [];
    assert FieldsText([g], false, rest) == Comma() + (FieldText(g) + rest);
    assert FieldText(f) == Line(f) && FieldText(g) == Line(g);
  }
}
