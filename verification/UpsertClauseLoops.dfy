/**
 * The update-clause rewriter as it walks the clause by position (buildSQLiteUpsertUpdate and
 * rewriteUpsertReference in pkg/mysqlmock/upsert.go, readSQLNameToken in pkg/mysqlmock/sqlscanner.go).
 */
module UpsertClauseLoops {
  import opened Options
  import opened Text
  import opened SqlScanner
  import opened SqlSplitting
  import opened SqlParsing
  import opened TokenLists
  import opened UniqueKeys
  import opened UpsertClause

  /** White space skipped by position. */
  lemma SpacesAt(s: string, pos: nat, at: nat)
    requires pos <= |s| && at == pos + SpaceLen(s[pos..])
    ensures SkipSpaces(s[pos..]) == s[at..]
  {
    Suffix(s, pos, at - pos);
  }

  lemma QuotedNameAt(s: string, pos: nat, at: nat)
    requires pos <= |s| && at < |s| && SkipSpaces(s[pos..]) == s[at..] && (s[at] == '`' || s[at] == '"')
    ensures var end := at + 1 + QuoteTail(s[at + 1..], s[at]); NameToken(s[pos..]) == Parsed(s[at..end], s[end..])
  {
    hide QuoteTail, SkipSpaces;
    Suffix(s, at, 1);
    Suffix(s, at, 1 + QuoteTail(s[at + 1..], s[at]));
  }

  lemma BareNameAt(s: string, pos: nat, at: nat)
    requires pos <= |s| && at < |s| && SkipSpaces(s[pos..]) == s[at..] && s[at] != '`' && s[at] != '"'
    ensures var end := at + IdentifierLen(s[at..]);
            NameToken(s[pos..]) == if end > at then Parsed(s[at..end], s[end..]) else Failed
  {
    hide IdentifierLen, SkipSpaces;
    Suffix(s, at, IdentifierLen(s[at..]));
  }

  lemma NoNameAt(s: string, pos: nat)
    requires pos <= |s| && SkipSpaces(s[pos..]) == s[|s|..]
    ensures NameToken(s[pos..]).Failed?
  {
    hide SkipSpaces;
  }

  method ReadSqlNameToken(s: string, pos: nat) returns (name: string, end: nat, ok: bool)
    requires pos <= |s|
    ensures ok <==> NameToken(s[pos..]).Parsed?
    ensures ok ==> pos < end <= |s| && NameToken(s[pos..]) == Parsed(name, s[end..])
  {
    hide QuoteTail, NameToken, SpaceLen, IdentifierLen, SkipSpaces;
    var at := SkipSqlSpaces(s, pos);
    SpacesAt(s, pos, at);
    if at >= |s| {
      NoNameAt(s, pos);
      return "", at, false;
    }
    if s[at] == '`' || s[at] == '"' {
      QuotedNameAt(s, pos, at);
      end, ok := QuotedSqlSpan(s, at);
      Suffix(s, at, 1);
      return s[at..end], end, true;
    }
    BareNameAt(s, pos, at);
    name, end, ok := ReadSqlIdentifier(s, at);
  }

  /** A VALUES reference, by position. */
  lemma CallReference(s: string, pos: nat, end: nat, at: nat)
    requires pos < end <= |s| && at == end + SpaceLen(s[end..])
    ensures var n := ParenLen(s[at..]);
            && at + n <= |s| && n != 1
            && Follows(s[end..], s[pos..])
            && ValuesReference(s[pos..], s[end..]) ==
                 if n == 0 then Copy(s[pos..end])
                 else InsertedValue(s[pos..at + n], UnquoteWord(TrimSpace(s[at + 1..at + n - 1])))
  {
    hide ParenLen, TrimSpace, UnquoteWord, SpaceLen, SkipSpaces;
    Suffix(s, pos, end - pos);
    SpacesAt(s, end, at);
    var u := s[at..];
    var n := CallEnd(u);
    Suffix(s, pos, at + n - pos);
    if n > 0 {
      assert u[1..n - 1] == s[at + 1..at + n - 1];
    }
  }

  /** A reference that may have a dot, by position. */
  lemma DottedReference(s: string, pos: nat, end: nat, at: nat, called: string, table: string, alias: string)
    requires pos < end <= |s| && at == end + SpaceLen(s[end..])
    ensures var column := if at < |s| && s[at] == '.' then NameToken(s[at + 1..]) else Failed;
            && Follows(s[end..], s[pos..])
            && Qualified(s[pos..], called, s[end..], table, alias) ==
                 if column.Failed? then Copy(s[pos..end])
                 else
                   var source := s[pos..|s| - |column.rest|];
                   if alias != "" && EqualFold(called, alias) then InsertedValue(source, UnquoteWord(column.text))
                   else if EqualFold(called, UnquoteWord(table)) then TableColumn(source, UnquoteWord(column.text))
                   else Copy(source)
  {
    hide UnquoteWord, SpaceLen, SkipSpaces, NameToken, EqualFold, UpTo;
    UpToAt(s, pos, end);
    SpacesAt(s, end, at);
    if at < |s| && s[at] == '.' {
      Suffix(s, at, 1);
      var column := NameToken(s[at + 1..]);
      if column.Parsed? {
        var next := |s| - |column.rest|;
        assert column.rest == s[next..];
        UpToAt(s, pos, next);
      }
    }
  }

  lemma UpToAt(s: string, pos: nat, end: nat)
    requires pos < end <= |s|
    ensures Follows(s[end..], s[pos..]) && UpTo(s[pos..], s[end..]) == s[pos..end]
  {
    Suffix(s, pos, end - pos);
  }

  /** The move a reference makes, as its replacement text, the position after it and its arguments. */
  method RewriteUpsertReference(s: string, pos: nat, table: string, alias: string, values: Row)
    returns (replacement: string, next: nat, args: seq<Value>, ok: bool, unknown: bool)
    requires pos < |s|
    ensures NameToken(s[pos..]).Failed? ==> !ok && !unknown
    ensures NameToken(s[pos..]).Parsed? ==>
              var m := Reference(s[pos..], NameToken(s[pos..]), table, alias);
              && (unknown <==> m.InsertedValue? && Lower(m.column) !in values)
              && (ok <==> !unknown)
              && (ok ==> replacement == Piece(m) && next == pos + |m.source| &&
                         args == if m.InsertedValue? then [values[Lower(m.column)]] else [])
  {
    hide NameToken, ParenLen, UnquoteWord, EqualFold, Lower, SpaceLen, SkipSpaces, TrimSpace, QuoteIdent, ValuesReference, Qualified;
    var name, end;
    name, end, ok := ReadSqlNameToken(s, pos);
    if !ok {
      return "", pos, [], false, false;
    }
    var called := UnquoteWord(name);
    var at := SkipSqlSpaces(s, end);
    if EqualFold(called, "VALUES") {
      CallReference(s, pos, end, at);
      var callEnd, call := ParenthesizedSqlSpan(s, at);
      if !call {
        return s[pos..end], end, [], true, false;
      }
      var column := TrimSpace(s[at + 1..callEnd - 1]);
      var key := Lower(UnquoteWord(column));
      if key !in values {
        return "", pos, [], false, true;
      }
      return "?", callEnd, [values[key]], true, false;
    }
    DottedReference(s, pos, end, at, called, table, alias);
    if at >= |s| || s[at] != '.' {
      return s[pos..end], end, [], true, false;
    }
    var column, columnEnd, named := ReadSqlNameToken(s, at + 1);
    if !named {
      return s[pos..end], end, [], true, false;
    }
    var unquoted := UnquoteWord(column);
    if alias != "" && EqualFold(called, alias) {
      if Lower(unquoted) !in values {
        return "", pos, [], false, true;
      }
      return "?", columnEnd, [values[Lower(unquoted)]], true, false;
    } else if EqualFold(called, UnquoteWord(table)) {
      return QuoteIdent(unquoted), columnEnd, [], true, false;
    } else {
      return s[pos..columnEnd], columnEnd, [], true, false;
    }
  }

  /** Values by lower-cased column name; a later column of the same name wins. */
  function ValueMap(columns: seq<string>, values: seq<Value>): Row {
    if columns == [] then map[]
    else
      var n := |columns| - 1;
      var earlier := ValueMap(columns[..n], values);
      if n < |values| then earlier[Lower(UnquoteWord(columns[n])) := values[n]] else earlier
  }

  method ValueByColumn(columns: seq<string>, values: seq<Value>) returns (byColumn: Row)
    ensures byColumn == ValueMap(columns, values)
  {
    byColumn := map[];
    assert columns[..0] == [];
    for i := 0 to |columns|
      invariant byColumn == ValueMap(columns[..i], values)
    {
      assert columns[..i + 1][..i] == columns[..i];
      if i < |values| {
        byColumn := byColumn[Lower(UnquoteWord(columns[i])) := values[i]];
      }
    }
    assert columns[..|columns|] == columns;
  }

  lemma MovesStep(s: string, i: nat, table: string, alias: string)
    requires i < |s|
    ensures var m := FirstMove(s[i..], table, alias);
            i + |m.source| <= |s| && Moves(s[i..], table, alias) == [m] + Moves(s[i + |m.source|..], table, alias)
  {
    Suffix(s, i, |FirstMove(s[i..], table, alias).source|);
  }

  lemma WriteStep(m: Move, later: seq<Move>, values: Row, updateArgs: seq<Value>, used: nat, out: string, args: seq<Value>)
    ensures var now := Write([m] + later, values, updateArgs, used);
            && (m.Param? && used >= |updateArgs| ==> now == TooFewArguments)
            && (m.Param? && used < |updateArgs| ==>
                  Before(out, args, now) ==
                  Before(out + "?", args + [updateArgs[used]], Write(later, values, updateArgs, used + 1)))
            && (m.InsertedValue? && Lower(m.column) !in values ==> now == UnknownColumn)
            && (m.InsertedValue? && Lower(m.column) in values ==>
                  Before(out, args, now) ==
                  Before(out + "?", args + [values[Lower(m.column)]], Write(later, values, updateArgs, used)))
            && (m.Copy? || m.TableColumn? ==>
                  Before(out, args, now) == Before(out + Piece(m), args + [], Write(later, values, updateArgs, used)))
  {
    hide Lower;
    assert ([m] + later)[1..] == later;
    match m
    case Param(_) =>
      if used < |updateArgs| {
        BeforeTwice(out, args, "?", [updateArgs[used]], Write(later, values, updateArgs, used + 1));
      }
    case InsertedValue(_, column) =>
      if Lower(column) in values {
        BeforeTwice(out, args, "?", [values[Lower(column)]], Write(later, values, updateArgs, used));
      }
    case _ => BeforeTwice(out, args, Piece(m), [], Write(later, values, updateArgs, used));
  }

  lemma BeforeTwice(out: string, args: seq<Value>, text: string, more: seq<Value>, r: Rewriting)
    ensures Before(out, args, Before(text, more, r)) == Before(out + text, args + more, r)
  {
    if r.Rewritten? {
      assert out + (text + r.clause) == (out + text) + r.clause;
      assert args + (more + r.args) == (args + more) + r.args;
    }
  }

  lemma WriteEnd(s: string, table: string, alias: string, values: Row, updateArgs: seq<Value>, used: nat, out: string, args: seq<Value>)
    ensures Before(out, args, Write(Moves(s[|s|..], table, alias), values, updateArgs, used))
         == if used == |updateArgs| then Rewritten(out, args) else UnusedArguments
  {
    assert s[|s|..] == "" && out + "" == out && args + [] == args;
  }

  lemma BeforeNothing(r: Rewriting)
    ensures Before("", [], r) == r
  {
    if r.Rewritten? {
      assert "" + r.clause == r.clause && [] + r.args == r.args;
    }
  }

  /** The statement and its arguments, or the error the clause is refused with. */
  method BuildSqliteUpsertUpdate(table: string, columns: seq<string>, values: seq<Value>, alias: string, s: string,
                                 updateArgs: seq<Value>, rowID: Value)
    returns (sql: string, args: seq<Value>, written: Rewriting)
    ensures written == Write(Moves(s, table, alias), ValueMap(columns, values), updateArgs, 0)
    ensures written.Rewritten? ==> sql == Statement(table, written.clause) && args == written.args + [rowID]
  {
    hide Moves, Write, FirstMove, Before, Statement, ValueMap, CommentLen, NameToken, Reference, Piece, Lower;
    var byColumn := ValueByColumn(columns, values);
    var out := "";
    sql, args := "", [];
    var used, i := 0, 0;
    ghost var whole := Write(Moves(s, table, alias), byColumn, updateArgs, 0);
    assert s[0..] == s;
    BeforeNothing(whole);
    while i < |s|
      invariant i <= |s|
      invariant whole == Before(out, args, Write(Moves(s[i..], table, alias), byColumn, updateArgs, used))
    {
      MovesStep(s, i, table, alias);
      ghost var m := FirstMove(s[i..], table, alias);
      WriteStep(m, Moves(s[i + |m.source|..], table, alias), byColumn, updateArgs, used, out, args);
      if s[i] == '\'' {
        var end, _ := QuotedSqlSpan(s, i);
        CopiedSpan(s, i, end, table, alias);
        out, args, i := out + s[i..end], args + [], end;
        continue;
      }
      var end, comment := SqlCommentSpan(s, i);
      if comment {
        CopiedComment(s, i, end, table, alias);
        out, args, i := out + s[i..end], args + [], end;
        continue;
      }
      if s[i] == '?' {
        ParamMove(s, i, table, alias);
        if used >= |updateArgs| {
          BeforeFailed(out, args, TooFewArguments);
          return "", [], TooFewArguments;
        }
        out, args := out + "?", args + [updateArgs[used]];
        used, i := used + 1, i + 1;
        continue;
      }
      ReferenceMove(s, i, table, alias);
      var replacement, next, more, ok, unknown := RewriteUpsertReference(s, i, table, alias, byColumn);
      PieceOf(m);
      if unknown {
        BeforeFailed(out, args, UnknownColumn);
        return "", [], UnknownColumn;
      }
      if ok {
        out, args, i := out + replacement, args + more, next;
        continue;
      }
      out, args, i := out + [s[i]], args + [], i + 1;
    }
    WriteEnd(s, table, alias, byColumn, updateArgs, used, out, args);
    if used != |updateArgs| {
      return "", [], UnusedArguments;
    }
    written := Rewritten(out, args);
    args := args + [rowID];
    sql := StatementText(table, out);
  }

  method StatementText(table: string, clause: string) returns (sql: string)
    ensures sql == Statement(table, clause)
  {
    sql := Statement(table, clause);
  }

  lemma PieceOf(m: Move)
    ensures (m.Copy? ==> Piece(m) == m.source) && (m.InsertedValue? ==> Piece(m) == "?")
  {
  }

  lemma BeforeFailed(out: string, args: seq<Value>, r: Rewriting)
    requires !r.Rewritten?
    ensures Before(out, args, r) == r
  {
  }

  lemma CopiedSpan(s: string, i: nat, end: nat, table: string, alias: string)
    requires i < end <= |s| && s[i] == '\'' && Lead(s[i..], ByBytes).text == s[i..end]
    ensures FirstMove(s[i..], table, alias) == Copy(s[i..end]) && Piece(Copy(s[i..end])) == s[i..end]
  {
  }

  lemma CopiedComment(s: string, i: nat, end: nat, table: string, alias: string)
    requires i < end <= |s| && s[i] != '\'' && CommentLen(s[i..], false) == end - i
    ensures FirstMove(s[i..], table, alias) == Copy(s[i..end]) && Piece(Copy(s[i..end])) == s[i..end]
  {
    Suffix(s, i, end - i);
  }

  lemma ParamMove(s: string, i: nat, table: string, alias: string)
    requires i < |s| && s[i] == '?'
    ensures FirstMove(s[i..], table, alias) == Param(s[i..i + 1])
  {
    Suffix(s, i, 1);
  }

  lemma ReferenceMove(s: string, i: nat, table: string, alias: string)
    requires i < |s| && s[i] != '\'' && s[i] != '?' && CommentLen(s[i..], false) == 0
    ensures var name := NameToken(s[i..]);
            FirstMove(s[i..], table, alias) == if name.Failed? then Copy([s[i]]) else Reference(s[i..], name, table, alias)
  {
    hide NameToken, Reference;
    Suffix(s, i, 1);
    assert s[i..i + 1] == [s[i]];
  }
}
