/**
 * The arguments of the rewritten update clause: they bind the placeholders one for one, and the
 * statement means what the clause means.
 */
module UpsertArguments {
  import opened Options
  import opened Text
  import opened SqlScanner
  import opened SqlSplitting
  import opened SqlParsing
  import opened TokenLists
  import opened Placeholders
  import opened UniqueKeys
  import opened UpsertClause
  import opened UpsertReading
  import opened ClauseReadings

  // ---------------------------------------------------------------------------------------------
  // Arguments stay aligned and the meaning is kept
  // ---------------------------------------------------------------------------------------------

  /** The tokens of `UPDATE "table" SET `. */
  function HeadTokens(table: string): seq<Token> {
    CodeBytes("UPDATE ") + [Token(Quoted, QuoteIdent(UnquoteWord(table)))] + CodeBytes(" SET ")
  }

  lemma HeadReads(table: string, rest: string)
    requires PlainName(UnquoteWord(table))
    ensures Lex("UPDATE " + (QuoteIdent(UnquoteWord(table)) + (" SET " + rest)), ByBytes) == HeadTokens(table) + Lex(rest, ByBytes)
  {
    hide Lex, CodeBytes, QuoteIdent, PlainName, UnquoteWord;
    var name := QuoteIdent(UnquoteWord(table));
    var tail := " SET " + rest;
    InertBytes("UPDATE ", name + tail);
    ColumnStep("", UnquoteWord(table), tail);
    InertBytes(" SET ", rest);
    assert CodeBytes("UPDATE ") + ([Token(Quoted, name)] + (CodeBytes(" SET ") + Lex(rest, ByBytes)))
        == HeadTokens(table) + Lex(rest, ByBytes);
  }

  lemma {:induction false} ReadText(toks: seq<Token>, later: seq<Token>, args: seq<Value>)
    requires NoMarks(toks)
    ensures Read(toks + later, args) == Then(Symbols(toks), Read(later, args))
  {
    if toks == [] {
      assert toks + later == later && Symbols(toks) == [];
      if Read(later, args).Some? {
        assert [] + Read(later, args).value == Read(later, args).value;
      }
    } else {
      assert (toks + later)[1..] == toks[1..] + later;
      ReadText(toks[1..], later, args);
      assert Symbols(toks) == [Symbol.Text(toks[0])] + Symbols(toks[1..]);
      if Read(later, args).Some? {
        var r := Read(later, args).value;
        assert [Symbol.Text(toks[0])] + (Symbols(toks[1..]) + r) == Symbols(toks) + r;
      }
    }
  }

  lemma ReadMark(later: seq<Token>, args: seq<Value>)
    requires args != []
    ensures Read([Token(Code, "?")] + later, args) == Then([Bound(args[0])], Read(later, args[1..]))
  {
    assert ([Token(Code, "?")] + later)[1..] == later;
  }

  lemma CodeBytesAppend(x: string, y: string)
    ensures CodeBytes(x + y) == CodeBytes(x) + CodeBytes(y)
  {
    if x == "" {
      assert x + y == y;
    } else {
      assert (x + y)[1..] == x[1..] + y && (x + y)[..1] == x[..1];
      CodeBytesAppend(x[1..], y);
      assert [Token(Code, x[..1])] + (CodeBytes(x[1..]) + CodeBytes(y)) == CodeBytes(x) + CodeBytes(y);
    }
  }

  lemma MarkBytes()
    ensures CodeBytes("?") == [Token(Code, "?")]
  {
    assert "?"[1..] == "" && "?"[..1] == "?";
  }

  lemma ReadNothing()
    ensures Read([], []) == Some([])
  {
  }

  /** The end of the statement: the row with this id, and no other. */
  function WhereSymbols(rowID: Value): seq<Symbol> {
    Symbols(CodeBytes(" WHERE rowid = ")) + [Bound(rowID)]
  }

  lemma ReadWhere(rowID: Value)
    ensures Read(CodeBytes(Where()), [rowID]) == Some(WhereSymbols(rowID))
  {
    WhereInert();
    WhereSpelled();
    hide WhereHead, CodeBytes, Read, Symbols;
    ReadHead(WhereHead(), rowID);
  }

  lemma WhereSpelled()
    ensures WhereHead() == " WHERE rowid = "
  {
  }

  lemma ReadHead(head: string, rowID: Value)
    requires '?' !in head
    ensures Read(CodeBytes(head + "?"), [rowID]) == Some(Symbols(CodeBytes(head)) + [Bound(rowID)])
  {
    hide CodeBytes, Read, Symbols;
    var mark := [Token(Code, "?")];
    CodeBytesAppend(head, "?");
    CodeBytesNoMarks(head);
    MarkBytes();
    ReadNothing();
    ReadText(CodeBytes(head), mark, [rowID]);
    ReadMark([], [rowID]);
    assert [rowID][1..] == [];
    assert mark + [] == mark;
    assert [Bound(rowID)] + [] == [Bound(rowID)];
  }

  /** Writing succeeds exactly when the clause has a meaning, and writes the moves' pieces. */
  lemma {:induction false} WriteMeans(moves: seq<Move>, values: Row, updateArgs: seq<Value>, used: nat)
    ensures Write(moves, values, updateArgs, used).Rewritten? <==> Meaning(moves, values, updateArgs, used).Some?
    ensures Write(moves, values, updateArgs, used).Rewritten? ==> Write(moves, values, updateArgs, used).clause == Out(moves)
  {
    hide Piece, MoveTokens, Lex, Symbols;
    if moves != [] {
      WriteMeans(moves[1..], values, updateArgs, used);
      WriteMeans(moves[1..], values, updateArgs, used + 1);
      PieceOfMark(moves[0]);
    }
  }

  lemma PieceOfMark(m: Move)
    ensures m.Param? || m.InsertedValue? ==> Piece(m) == "?"
  {
  }

  lemma ThenThen(a: seq<Symbol>, b: Option<seq<Symbol>>, c: seq<Symbol>)
    ensures Then(a, (if b.Some? then Some(b.value + c) else None)) == if Then(a, b).Some? then Some(Then(a, b).value + c) else None
  {
    if b.Some? {
      assert a + (b.value + c) == (a + b.value) + c;
    }
  }

  /** The arguments written bind the placeholders written, one for one and in order, whatever follows with its own. */
  lemma {:induction false} ArgumentsBind(t: string, table: string, alias: string, values: Row, updateArgs: seq<Value>,
                                         used: nat, tail: seq<Token>, more: seq<Value>, end: seq<Symbol>)
    requires Read(tail, more) == Some(end)
    ensures var moves := Moves(t, table, alias);
            var written := Write(moves, values, updateArgs, used);
            written.Rewritten? ==>
              Meaning(moves, values, updateArgs, used).Some? &&
              Read(Tokens(moves) + tail, written.args + more) ==
                Some(Meaning(moves, values, updateArgs, used).value + end)
    decreases |t|
  {
    hide FirstMove, Lex, QuoteIdent, Piece, CodeBytes, Symbols, Read;
    var moves := Moves(t, table, alias);
    var written := Write(moves, values, updateArgs, used);
    WriteMeans(moves, values, updateArgs, used);
    if t == "" {
      assert [] + tail == tail && [] + end == end && [] + more == more;
    } else if written.Rewritten? {
      var m := FirstMove(t, table, alias);
      var rest := t[|m.source|..];
      var later := Moves(rest, table, alias);
      var next := if m.Param? then used + 1 else used;
      ArgumentsBind(rest, table, alias, values, updateArgs, next, tail, more, end);
      assert moves == [m] + later && moves[1..] == later;
      var behind := Tokens(later) + tail;
      assert Tokens(moves) + tail == MoveTokens(m) + behind;
      var args := Write(later, values, updateArgs, next).args;
      match m
      case Copy(source) =>
        CopyLexes(t, table, alias);
        assert source == UpTo(t, rest);
        ReadText(Lex(source, ByBytes), behind, args + more);
        assert [] + args == args;
        ThenThen(Symbols(Lex(source, ByBytes)), Meaning(later, values, updateArgs, next), end);
      case TableColumn(source, column) =>
        var name := Token(Quoted, QuoteIdent(column));
        ReadText([name], behind, args + more);
        assert [] + args == args;
        OneText(name);
        ThenThen([Symbol.Text(name)], Meaning(later, values, updateArgs, next), end);
      case Param(_) =>
        BoundFirst(updateArgs[used], args, behind, more, end, later, values, updateArgs, next);
      case InsertedValue(_, column) =>
        BoundFirst(values[Lower(column)], args, behind, more, end, later, values, updateArgs, next);
    }
  }

  /** With the row id for the placeholder of the WHERE. */
  lemma ArgumentsAlign(t: string, table: string, alias: string, values: Row, updateArgs: seq<Value>, used: nat, rowID: Value)
    ensures var moves := Moves(t, table, alias);
            var written := Write(moves, values, updateArgs, used);
            written.Rewritten? ==>
              Meaning(moves, values, updateArgs, used).Some? &&
              Read(RestTokens(moves), written.args + [rowID]) ==
                Some(Meaning(moves, values, updateArgs, used).value + WhereSymbols(rowID))
  {
    hide Moves, Write, Read, Meaning, WhereSymbols;
    ReadWhere(rowID);
    ArgumentsBind(t, table, alias, values, updateArgs, used, CodeBytes(Where()), [rowID], WhereSymbols(rowID));
  }

  lemma OneText(tok: Token)
    ensures Symbols([tok]) == [Symbol.Text(tok)]
  {
  }

  lemma BoundFirst(value: Value, args: seq<Value>, behind: seq<Token>, more: seq<Value>, end: seq<Symbol>,
                   later: seq<Move>, values: Row, updateArgs: seq<Value>, next: nat)
    requires Meaning(later, values, updateArgs, next).Some?
    requires Read(behind, args + more) == Some(Meaning(later, values, updateArgs, next).value + end)
    ensures Read([Token(Code, "?")] + behind, ([value] + args) + more) ==
              Some(([Bound(value)] + Meaning(later, values, updateArgs, next).value) + end)
  {
    hide Read, Meaning;
    var all := ([value] + args) + more;
    assert all[1..] == args + more && all[0] == value;
    ReadMark(behind, all);
    ThenThen([Bound(value)], Meaning(later, values, updateArgs, next), end);
  }

  /** What a statement is read as determines its tokens. */
  lemma {:induction false} ReadInjective(a: seq<Token>, b: seq<Token>, args: seq<Value>)
    requires Read(a, args).Some? && Read(a, args) == Read(b, args)
    ensures a == b
  {
    if a == [] || b == [] {
      ReadLength(a, args);
      ReadLength(b, args);
    } else {
      var r := Read(a, args).value;
      ReadFirst(a, args);
      ReadFirst(b, args);
      ReadInjective(a[1..], b[1..], if IsMark(a[0]) then args[1..] else args);
      assert a == [a[0]] + a[1..] && b == [b[0]] + b[1..];
    }
  }

  lemma {:induction false} ReadLength(a: seq<Token>, args: seq<Value>)
    ensures Read(a, args).Some? ==> |Read(a, args).value| == |a|
  {
    if a != [] {
      if IsMark(a[0]) && args != [] {
        ReadLength(a[1..], args[1..]);
      } else {
        ReadLength(a[1..], args);
      }
    }
  }

  lemma ReadFirst(a: seq<Token>, args: seq<Value>)
    requires a != [] && Read(a, args).Some?
    ensures var r := Read(a, args).value;
            r != [] && (IsMark(a[0]) <==> r[0].Bound?) && (IsMark(a[0]) ==> args != [] && a[0] == Token(Code, "?")) &&
            (!IsMark(a[0]) ==> r[0] == Symbol.Text(a[0])) &&
            Read(a[1..], if IsMark(a[0]) then args[1..] else args) == Some(r[1..])
  {
    if IsMark(a[0]) {
      assert a[0].text == "?";
    }
  }

  /** What the whole statement should be read as. */
  function Intended(table: string, moves: seq<Move>, values: Row, updateArgs: seq<Value>, rowID: Value): Option<seq<Symbol>> {
    var meaning := Meaning(moves, values, updateArgs, 0);
    if meaning.None? then None else Some(Symbols(HeadTokens(table)) + (meaning.value + WhereSymbols(rowID)))
  }

  /**
   * The statement written, read with its arguments bound in order, says what the moves say - each
   * original `?` its update argument, each reference its value, and the row id in the WHERE - exactly
   * when the moves are good.
   */
  lemma StatementReads(t: string, table: string, alias: string, values: Row, updateArgs: seq<Value>, rowID: Value)
    requires PlainName(UnquoteWord(table))
    requires Write(Moves(t, table, alias), values, updateArgs, 0).Rewritten?
    ensures var moves := Moves(t, table, alias);
            var written := Write(moves, values, updateArgs, 0);
            (Read(Lex(Statement(table, written.clause), ByBytes), written.args + [rowID])
               == Intended(table, moves, values, updateArgs, rowID)) <==> Good(moves)
  {
    hide Moves, Write, Meaning, Lex, QuoteIdent, CodeBytes, Where, WhereSymbols, Good, PlainName, UnquoteWord, Read, Out, HeadTokens, RestTokens, Symbols;
    var moves := Moves(t, table, alias);
    var written := Write(moves, values, updateArgs, 0);
    WriteMeans(moves, values, updateArgs, 0);
    HeadReads(table, Remainder(moves));
    var head := HeadTokens(table);
    var args := written.args + [rowID];
    HeadNoMarks(table);
    ArgumentsAlign(t, table, alias, values, updateArgs, 0, rowID);
    ReadText(head, RestTokens(moves), args);
    var sent := Lex(Statement(table, written.clause), ByBytes);
    assert sent == head + Lex(Remainder(moves), ByBytes);
    ClauseReads(t, table, alias);
    if Read(sent, args) == Intended(table, moves, values, updateArgs, rowID) {
      ReadInjective(sent, head + RestTokens(moves), args);
      assert sent[|head|..] == Lex(Remainder(moves), ByBytes);
      assert (head + RestTokens(moves))[|head|..] == RestTokens(moves);
    }
  }

  /** The statement as it should mean, white space and comments aside. */
  function IntendedMeaning(table: string, meaning: Option<seq<Symbol>>, rowID: Value): Option<seq<Symbol>> {
    if meaning.None? then None
    else Some(SolidSymbols(Symbols(HeadTokens(table))) + (meaning.value + SolidSymbols(WhereSymbols(rowID))))
  }

  /**
   * Main law: a clear clause is written if and only if it has a meaning, and if its moves are good the
   * statement, read with its arguments bound in order, means what the clause means to MySQL: each
   * original `?` its update argument, each VALUES(c) or alias.c the value to be inserted.
   */
  lemma StatementMeans(t: string, table: string, alias: string, values: Row, updateArgs: seq<Value>, rowID: Value)
    requires PlainName(UnquoteWord(table)) && Clear(t, table, alias)
    ensures var moves := Moves(t, table, alias);
            var written, meaning := Write(moves, values, updateArgs, 0), ClauseMeaning(t, table, alias, values, updateArgs);
            && (written.Rewritten? <==> meaning.Some?)
            && (written.Rewritten? && Good(moves) ==>
                  SolidMeaning(Read(Lex(Statement(table, written.clause), ByBytes), written.args + [rowID]))
                    == IntendedMeaning(table, meaning, rowID))
  {
    hide Moves, Write, Meaning, Lex, Good, PlainName, Read, HeadTokens, WhereSymbols, Symbols, Clear, ClauseMeaning, SolidSymbols, Statement;
    var moves := Moves(t, table, alias);
    WriteMeans(moves, values, updateArgs, 0);
    ClearClauseMeans(t, table, alias, values, updateArgs);
    if Write(moves, values, updateArgs, 0).Rewritten? && Good(moves) {
      StatementReads(t, table, alias, values, updateArgs, rowID);
      var head, meaning, tail := Symbols(HeadTokens(table)), Meaning(moves, values, updateArgs, 0).value, WhereSymbols(rowID);
      SolidAppend(head, meaning + tail);
      SolidAppend(meaning, tail);
    }
  }

  lemma HeadNoMarks(table: string)
    ensures NoMarks(HeadTokens(table))
  {
    hide QuoteIdent, UnquoteWord, CodeBytes;
    CodeBytesNoMarks("UPDATE ");
    CodeBytesNoMarks(" SET ");
  }

  // ---------------------------------------------------------------------------------------------
  // The errors, and the count the binder checked
  // ---------------------------------------------------------------------------------------------

  function Params(moves: seq<Move>): nat {
    if moves == [] then 0 else (if moves[0].Param? then 1 else 0) + Params(moves[1..])
  }

  predicate Known(moves: seq<Move>, values: Row) {
    forall m :: m in moves && m.InsertedValue? ==> Lower(m.column) in values
  }

  /** An error is reported exactly for a column the row does not have or a wrong number of arguments. */
  lemma {:induction false} WriteOutcome(moves: seq<Move>, values: Row, updateArgs: seq<Value>, used: nat)
    requires used <= |updateArgs|
    ensures var r := Write(moves, values, updateArgs, used);
            && (r.Rewritten? <==> Known(moves, values) && used + Params(moves) == |updateArgs|)
            && (Known(moves, values) && used + Params(moves) > |updateArgs| ==> r.TooFewArguments?)
            && (Known(moves, values) && used + Params(moves) < |updateArgs| ==> r.UnusedArguments?)
  {
    if moves != [] {
      assert Known(moves, values) <==>
             Known(moves[1..], values) && (moves[0].InsertedValue? ==> Lower(moves[0].column) in values);
      if moves[0].Param? {
        if used < |updateArgs| {
          WriteOutcome(moves[1..], values, updateArgs, used + 1);
        }
      } else {
        WriteOutcome(moves[1..], values, updateArgs, used);
      }
    }
  }

  lemma ParenSplits(u: string)
    requires ParenLen(u) > 0
    ensures ParenLen(u) <= |u| && Splits(u, u[ParenLen(u)..], ByBytes)
  {
    ParenTokens(u);
    hide ParenLen, Lex, CloseAt, Flatten, Splits, Settled;
    ParenLex(u);
    LexSpells(u[1..], ByBytes);
    var toks := Lex(u[1..], ByBytes);
    CutAfter(u, toks, CloseAt(toks, 1), ParenLen(u));
  }

  lemma ParenTokens(u: string)
    requires ParenLen(u) > 0
    ensures u != "" && u[0] == '(' && ParenLen(u) == 1 + |Flatten(Lex(u[1..], ByBytes)[..CloseAt(Lex(u[1..], ByBytes), 1)])|
  {
    hide Lex, CloseAt, Flatten;
  }

  /** Cutting after the first byte and some of the tokens that follow it. */
  lemma CutAfter(u: string, toks: seq<Token>, k: nat, n: nat)
    requires u != "" && Lex(u, ByBytes) == [Token(Code, u[..1])] + toks
    requires u[1..] == Flatten(toks) && Settled(toks, ByBytes)
    requires k <= |toks| && n == 1 + |Flatten(toks[..k])|
    ensures n <= |u| && Splits(u, u[n..], ByBytes)
  {
    hide Lex, Flatten, Splits, Settled;
    TailText(u, toks, k, n);
    var open := [Token(Code, u[..1])];
    assert open + toks == (open + toks[..k]) + toks[k..];
    CutSplits(u, u[n..], open + toks[..k], ByBytes);
  }

  lemma TailText(u: string, toks: seq<Token>, k: nat, n: nat)
    requires u != "" && u[1..] == Flatten(toks) && Settled(toks, ByBytes)
    requires k <= |toks| && n == 1 + |Flatten(toks[..k])|
    ensures n <= |u| && Lex(u[n..], ByBytes) == toks[k..]
  {
    hide Lex, Flatten, Settled;
    assert toks == toks[..k] + toks[k..];
    SettledCut(toks[..k], toks[k..], ByBytes);
    FlattenAppend(toks[..k], toks[k..]);
    Relex(toks[k..], ByBytes);
    assert u[n..] == u[1..][n - 1..] == Flatten(toks[k..]);
  }

  lemma SpacesSplit(t: string, rest: string)
    requires Splits(t, rest, ByBytes)
    ensures Splits(t, SkipSpaces(rest), ByBytes)
  {
    hide Splits, Lexes;
    var n := SpaceLen(rest);
    if n > 0 {
      SpacesInert(rest);
      InertLexes(rest, n);
      LexesSplits(rest, rest[n..]);
      SplitsThen(t, rest, rest[n..], ByBytes);
    } else {
      assert SkipSpaces(rest) == rest;
    }
  }

  lemma LexesSplits(t: string, rest: string)
    requires Lexes(t, rest)
    ensures Splits(t, rest, ByBytes)
  {
  }

  /** Whatever a move is, its text is cut off between tokens. */
  lemma MoveSplits(t: string, table: string, alias: string)
    requires t != ""
    ensures Splits(t, t[|FirstMove(t, table, alias).source|..], ByBytes)
  {
    hide Lexes, Splits, Lex, QuoteTail, CommentLen, ParenLen, UnquoteWord, EqualFold, NameToken, SpaceLen;
    var m := FirstMove(t, table, alias);
    if m.Copy? {
      CopyLexes(t, table, alias);
      LexesSplits(t, t[|m.source|..]);
    } else if m.Param? {
      MarkSplits(t);
    } else {
      var name := NameToken(t);
      NameLexes(t);
      LexesSplits(t, name.rest);
      if EqualFold(UnquoteWord(name.text), "VALUES") {
        ValuesSplits(t, name.rest);
      } else {
        QualifiedSplits(t, UnquoteWord(name.text), name.rest, table, alias);
      }
    }
  }

  lemma MarkSplits(t: string)
    requires t != "" && t[0] == '?'
    ensures Splits(t, t[1..], ByBytes)
  {
    assert Lead(t, ByBytes) == Token(Code, t[..1]);
    CutSplits(t, t[1..], [Token(Code, t[..1])], ByBytes);
  }

  lemma ValuesSplits(t: string, rest: string)
    requires Follows(rest, t) && Splits(t, rest, ByBytes) && ValuesReference(t, rest).InsertedValue?
    ensures Splits(t, t[|ValuesReference(t, rest).source|..], ByBytes)
  {
    hide Splits, ParenLen, UnquoteWord, SpaceLen, TrimSpace;
    var u := SkipSpaces(rest);
    FollowsOn(t, rest, u);
    SpacesSplit(t, rest);
    var m := ValuesReference(t, rest);
    var n := CallEnd(u);
    assert n > 0 && m.source == t[..|t| - |u| + n];
    hide ValuesReference, SkipSpaces;
    assert t[|t| - |u| + n..] == u[n..];
    ParenSplits(u);
    SplitsThen(t, u, u[ParenLen(u)..], ByBytes);
  }

  lemma QualifiedSplits(t: string, called: string, rest: string, table: string, alias: string)
    requires Follows(rest, t) && Splits(t, rest, ByBytes) && !Qualified(t, called, rest, table, alias).Copy?
    ensures Splits(t, t[|Qualified(t, called, rest, table, alias).source|..], ByBytes)
  {
    hide Lexes, Splits, Lex, UnquoteWord, EqualFold, NameToken;
    var u := SkipSpaces(rest);
    var column := NameToken(u[1..]);
    DotLexes(rest);
    LexesSplits(rest, u[1..]);
    SplitsThen(t, rest, u[1..], ByBytes);
    NameLexes(u[1..]);
    LexesSplits(u[1..], column.rest);
    SplitsThen(t, u[1..], column.rest, ByBytes);
  }

  lemma MarksAppend(a: seq<Token>, b: seq<Token>)
    ensures Marks(a + b) == Marks(a) + Marks(b)
  {
    if a == [] {
      assert a + b == b;
    } else {
      assert (a + b)[1..] == a[1..] + b;
      MarksAppend(a[1..], b);
    }
  }

  lemma {:induction false} NoMarksCount(toks: seq<Token>)
    requires NoMarks(toks)
    ensures Marks(toks) == 0
  {
    if toks != [] {
      NoMarksCount(toks[1..]);
    }
  }

  /**
   * When no reference hides a `?`, the placeholders the binder counted are the parameters written:
   * after a successful bind a clause with known columns is always rewritten.
   */
  lemma {:induction false} ParamsAreMarks(t: string, table: string, alias: string)
    requires forall m :: m in Moves(t, table, alias) && !m.Copy? && !m.Param? ==> MarksIn(m.source) == 0
    ensures MarksIn(t) == Params(Moves(t, table, alias))
    decreases |t|
  {
    hide FirstMove, Lex, Lead, Lexes;
    if t == "" {
      LexNothing();
    } else {
      var m := FirstMove(t, table, alias);
      var rest := t[|m.source|..];
      ParamsAreMarks(rest, table, alias);
      assert m in Moves(t, table, alias) && Moves(t, table, alias)[1..] == Moves(rest, table, alias);
      MoveSplits(t, table, alias);
      assert UpTo(t, rest) == m.source;
      MarksAppend(Lex(m.source, ByBytes), Lex(rest, ByBytes));
      MoveMarks(t, table, alias);
    }
  }

  lemma MoveMarks(t: string, table: string, alias: string)
    requires t != ""
    ensures var m := FirstMove(t, table, alias);
            (m.Copy? ==> MarksIn(m.source) == 0) && (m.Param? ==> MarksIn(m.source) == 1)
  {
    hide Reference, QuoteTail, CommentLen, NameToken;
    var m := FirstMove(t, table, alias);
    if m.Copy? {
      CopyLexes(t, table, alias);
      assert UpTo(t, t[|m.source|..]) == m.source;
      NoMarksCount(Lex(m.source, ByBytes));
    } else if m.Param? {
      OneMark(m.source);
    }
  }

  lemma OneMark(source: string)
    requires |source| == 1 && source[0] == '?'
    ensures MarksIn(source) == 1
  {
    assert source[1..] == "";
    assert Lead(source, ByBytes) == Token(Code, source);
    assert Lex(source, ByBytes) == [Token(Code, source)];
    assert Marks([Token(Code, source)]) == 1 + Marks([]);
  }

  /** A clause that ends in an open line comment is not good: the comment swallows the WHERE. */
  lemma TrailingCommentSwallowsWhere(table: string, alias: string)
    ensures Moves("--", table, alias) == [Copy("--")] && !Good([Copy("--")])
  {
    var t := "--";
    assert t[2..] == "";
    assert Lead(t, ByBytes) == Token(Comment, t[..2]);
    assert t[..2] == t;
    assert Lex(t, ByBytes) == [Token(Comment, t)];
    var u := t + " ";
    assert u[2..] == " " && u[2..][1..] == "";
    assert LineTail(" ", false) == 1;
    assert Lead(u, ByBytes) == Token(Comment, u[..3]);
  }
}
