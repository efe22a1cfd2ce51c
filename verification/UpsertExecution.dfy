/**
 * What the UPDATE written for an ON DUPLICATE KEY UPDATE clause does to a table: SQLite's reading of the
 * statement, in words, and its effect on a list of records.
 */
module UpsertExecution {
  import opened Options
  import opened Text
  import opened SqlScanner
  import opened SqlParsing
  import opened TokenLists
  import opened Placeholders
  import opened UniqueKeys
  import opened UpsertClause
  import opened UpsertReading
  import opened ClauseReadings
  import opened UpsertArguments
  import LiteralReadings

  // ---------------------------------------------------------------------------------------------
  // SQLite's side
  // ---------------------------------------------------------------------------------------------

  predicate Is(tok: Token, keyword: string) {
    tok.kind == Word && EqualFold(tok.text, keyword)
  }

  /** The name a double-quoted token stands for. */
  function NameOf(tok: Token): Option<string> {
    if tok.kind == Quoted && tok.text != "" && tok.text[0] == '"' && LiteralReadings.SqliteClosed(tok.text[1..], '"')
    then Some(LiteralReadings.SqliteValue(tok.text[1..], '"')) else None
  }

  /** UPDATE table SET assignments WHERE rowid = ?, with white space and comments left out. */
  datatype UpdateStatement = NotUnderstood | UpdateOne(table: string, assignments: seq<Token>)

  function ReadUpdate(text: string): UpdateStatement {
    var w := SolidLex(text);
    var n := |w|;
    if n >= 7 && Is(w[0], "UPDATE") && NameOf(w[1]).Some? && Is(w[2], "SET") && Is(w[n - 4], "WHERE") &&
       Is(w[n - 3], "rowid") && w[n - 2] == Token(Code, "=") && w[n - 1] == Token(Code, "?")
    then UpdateOne(NameOf(w[1]).value, w[3..n - 4]) else NotUnderstood
  }

  /** The record with the id gets a new row, every other stays as it is. */
  function WithRow(records: seq<Record>, id: int, change: Row -> Row): (r: seq<Record>)
    ensures |r| == |records|
    ensures forall i :: 0 <= i < |r| ==>
              r[i] == if records[i].id == id then Record(id, change(records[i].row)) else records[i]
  {
    seq(|records|, i requires 0 <= i < |records| =>
      if records[i].id == id then Record(id, change(records[i].row)) else records[i])
  }

  /** What SQLite does with the statement; `assign` is what its assignments make of a row. */
  function RunUpdate(name: string, records: seq<Record>, text: string, args: seq<Value>,
                     assign: (seq<Symbol>, Row) -> Row): Option<seq<Record>> {
    var update := ReadUpdate(text);
    if update.NotUnderstood? || update.table != name || args == [] || !args[|args| - 1].Int? then None
    else
      var assignments := Read(Spread(update.assignments), args[..|args| - 1]);
      if assignments.None? then None
      else Some(WithRow(records, args[|args| - 1].n, row => assign(assignments.value, row)))
  }

  // ---------------------------------------------------------------------------------------------
  // Cutting the statement into words
  // ---------------------------------------------------------------------------------------------

  /** Where the byte-wise walk cuts a text before a byte that is part of no word, so does the word-wise one. */
  lemma JoinWords(x: string, y: string)
    requires y != "" && !IsIdentifierPart(y[0]) && Lex(x + y, ByBytes) == Lex(x, ByBytes) + Lex(y, ByBytes)
    ensures Lex(x + y, ByWords) == Lex(x, ByWords) + Lex(y, ByWords)
  {
    hide Lex, Flatten, Settled, Sits;
    if x == "" {
      LexEmpty();
      assert x + y == y && [] + Lex(y, ByWords) == Lex(y, ByWords);
    } else {
      var toks, bytes := Lex(x, ByWords), Lex(x, ByBytes);
      LexSpells(x, ByWords);
      LexSpells(x, ByBytes);
      LexSome(x);
      LexJoin(toks, y, ByWords);
      LexJoin(bytes, y, ByBytes);
      LastSits(x, y, toks, bytes);
    }
  }

  lemma LexEmpty()
    ensures Lex("", ByWords) == [] && Lex("", ByBytes) == []
  {
  }

  lemma LexSome(x: string)
    requires x != ""
    ensures Lex(x, ByWords) != [] && Lex(x, ByBytes) != []
  {
  }

  lemma LastSits(x: string, y: string, toks: seq<Token>, bytes: seq<Token>)
    requires y != "" && !IsIdentifierPart(y[0]) && toks != [] && toks == Lex(x, ByWords) && bytes == Lex(x, ByBytes) && bytes != []
    requires Sits(bytes[|bytes| - 1], y, ByBytes)
    ensures Sits(toks[|toks| - 1], y, ByWords)
  {
    hide Lex;
    var init, last := toks[..|toks| - 1], toks[|toks| - 1];
    WalksInStep(x);
    LexSpells(x, ByWords);
    assert toks == init + [last];
    SettledCut(init, [last], ByWords);
    OnlySits(last);
    if last.kind == Word {
      WordEnds(last, y);
    } else {
      SpreadAppend(init, [last]);
      SpreadCons(last, []);
      SpreadNothing();
      assert bytes[|bytes| - 1] == last;
      SameKind(last, y);
    }
  }

  lemma OnlySits(tok: Token)
    requires Settled([tok], ByWords)
    ensures Sits(tok, "", ByWords)
  {
    assert [tok][1..] == [] && Flatten([]) == "";
  }

  lemma WordEnds(tok: Token, y: string)
    requires Sits(tok, "", ByWords) && tok.kind == Word && (y == "" || !IsIdentifierPart(y[0]))
    ensures Sits(tok, y, ByWords)
  {
    assert tok.text + "" == tok.text;
    LeadWordIsParts(tok.text);
    WordStartsIt(tok.text);
    WordSits(tok.text, y);
  }

  lemma WordStartsIt(t: string)
    requires t != "" && Lead(t, ByWords).kind == Word
    ensures IsIdentifierStart(t[0])
  {
  }

  lemma SameKind(tok: Token, y: string)
    requires Sits(tok, "", ByWords) && Sits(tok, y, ByBytes) && tok.kind != Word
    ensures Sits(tok, y, ByWords)
  {
    hide QuoteTail, CommentLen, PartTail;
    assert tok.text + "" == tok.text && (tok.text + y)[0] == tok.text[0];
  }

  /** A blank may be followed by anything. */
  lemma JoinBlank(x: string, y: string)
    requires x != "" && x[|x| - 1] == ' ' && Lex(x, ByWords) != [] && Lex(x, ByWords)[|Lex(x, ByWords)| - 1] == Token(Code, " ")
    ensures Lex(x + y, ByWords) == Lex(x, ByWords) + Lex(y, ByWords)
  {
    hide Lex;
    LexSpells(x, ByWords);
    if y == "" {
      LexEmpty();
      assert x + y == x && Lex(x, ByWords) + [] == Lex(x, ByWords);
    } else {
      CodeSits(' ', y);
      LexJoin(Lex(x, ByWords), y, ByWords);
    }
  }

  // ---------------------------------------------------------------------------------------------
  // The words of the statement
  // ---------------------------------------------------------------------------------------------

  const BLANK := Token(Code, " ")

  lemma Spelled(toks: seq<Token>, text: string)
    requires Settled(toks, ByWords) && Flatten(toks) == text
    ensures Lex(text, ByWords) == toks
  {
    Relex(toks, ByWords);
  }

  /** ` WHERE rowid = ?` */
  lemma WhereWords() returns (toks: seq<Token>)
    ensures toks == [BLANK] + ([Token(Word, "WHERE")] + ([BLANK] + ([Token(Word, "rowid")] + ([BLANK] + ([Token(Code, "=")] +
                      ([BLANK] + ([Token(Code, "?")] + [])))))))
    ensures Lex(Where(), ByWords) == toks
    ensures Solid(toks) == [Token(Word, "WHERE"), Token(Word, "rowid"), Token(Code, "="), Token(Code, "?")]
  {
    hide Settled, Flatten, Lex, Solid;
    NothingSettled();
    FlattenNone();
    var t1 := [Token(Code, "?")] + [];
    PutCode('?', []);
    var t2 := [BLANK] + t1;
    PutCode(' ', t1);
    var t3 := [Token(Code, "=")] + t2;
    PutCode('=', t2);
    var t4 := [BLANK] + t3;
    PutCode(' ', t3);
    var t5 := [Token(Word, "rowid")] + t4;
    PutWord("rowid", t4);
    var t6 := [BLANK] + t5;
    PutCode(' ', t5);
    var t7 := [Token(Word, "WHERE")] + t6;
    PutWord("WHERE", t6);
    toks := [BLANK] + t7;
    PutCode(' ', t7);
    WhereText();
    Spelled(toks, Where());
    WhereSolid(t1, t2, t3, t4, t5, t6, t7);
  }

  lemma WhereText()
    ensures Where() == [' '] + ("WHERE" + ([' '] + ("rowid" + ([' '] + (['='] + ([' '] + (['?'] + "")))))))
  {
  }

  lemma Gaps()
    ensures IsGap(BLANK) && !IsGap(Token(Word, "WHERE")) && !IsGap(Token(Word, "rowid")) && !IsGap(Token(Code, "=")) && !IsGap(Token(Code, "?"))
    ensures !IsGap(Token(Word, "UPDATE")) && !IsGap(Token(Word, "SET")) && forall tok: Token :: tok.kind == Quoted ==> !IsGap(tok)
    ensures Solid([]) == []
  {
  }

  lemma WhereSolid(t1: seq<Token>, t2: seq<Token>, t3: seq<Token>, t4: seq<Token>, t5: seq<Token>, t6: seq<Token>, t7: seq<Token>)
    requires t1 == [Token(Code, "?")] + [] && t2 == [BLANK] + t1 && t3 == [Token(Code, "=")] + t2 && t4 == [BLANK] + t3
    requires t5 == [Token(Word, "rowid")] + t4 && t6 == [BLANK] + t5 && t7 == [Token(Word, "WHERE")] + t6
    ensures Solid([BLANK] + t7) == [Token(Word, "WHERE"), Token(Word, "rowid"), Token(Code, "="), Token(Code, "?")]
  {
    Gaps();
    hide Solid, IsGap;
    SolidCons(Token(Code, "?"), []);
    SolidCons(BLANK, t1);
    SolidCons(Token(Code, "="), t2);
    SolidCons(BLANK, t3);
    SolidCons(Token(Word, "rowid"), t4);
    SolidCons(BLANK, t5);
    SolidCons(Token(Word, "WHERE"), t6);
    SolidCons(BLANK, t7);
  }

  function HeadText(name: string): string {
    "UPDATE " + (QuoteIdent(name) + " SET ")
  }

  /** `UPDATE "name" SET ` */
  lemma HeadWords(name: string) returns (toks: seq<Token>)
    requires PlainName(name)
    ensures Lex(HeadText(name), ByWords) == toks && toks != [] && toks[|toks| - 1] == BLANK
    ensures Solid(toks) == [Token(Word, "UPDATE"), Token(Quoted, QuoteIdent(name)), Token(Word, "SET")]
    ensures HeadText(name) != "" && HeadText(name)[|HeadText(name)| - 1] == ' '
  {
    hide Settled, Flatten, Lex, Solid, QuoteIdent, PlainName;
    NothingSettled();
    FlattenNone();
    var q := Token(Quoted, QuoteIdent(name));
    var t1 := [BLANK] + [];
    PutCode(' ', []);
    var t2 := [Token(Word, "SET")] + t1;
    PutWord("SET", t1);
    var t3 := [BLANK] + t2;
    PutCode(' ', t2);
    var t4 := [q] + t3;
    NameSits(name, Flatten(t3));
    SettledCons(q, t3);
    var t5 := [BLANK] + t4;
    PutCode(' ', t4);
    toks := [Token(Word, "UPDATE")] + t5;
    PutWord("UPDATE", t5);
    HeadSpelled(QuoteIdent(name));
    Spelled(toks, HeadText(name));
    HeadSolid(q, t1, t2, t3, t4, t5);
    assert toks == [Token(Word, "UPDATE"), BLANK, q, BLANK, Token(Word, "SET"), BLANK];
  }

  lemma HeadSpelled(q: string)
    ensures "UPDATE " + (q + " SET ") == "UPDATE" + ([' '] + (q + ([' '] + ("SET" + ([' '] + "")))))
  {
    assert " SET " == [' '] + ("SET" + ([' '] + ""));
    assert "UPDATE " == "UPDATE" + [' '];
  }

  lemma NameSits(name: string, y: string)
    requires PlainName(name) && y != "" && y[0] != '"'
    ensures Sits(Token(Quoted, QuoteIdent(name)), y, ByWords)
  {
    ColumnSits(name, y);
    hide QuoteTail;
  }

  lemma HeadSolid(q: Token, t1: seq<Token>, t2: seq<Token>, t3: seq<Token>, t4: seq<Token>, t5: seq<Token>)
    requires q.kind == Quoted && t1 == [BLANK] + [] && t2 == [Token(Word, "SET")] + t1 && t3 == [BLANK] + t2 && t4 == [q] + t3 && t5 == [BLANK] + t4
    ensures Solid([Token(Word, "UPDATE")] + t5) == [Token(Word, "UPDATE"), q, Token(Word, "SET")]
  {
    Gaps();
    hide Solid, IsGap;
    SolidCons(BLANK, []);
    SolidCons(Token(Word, "SET"), t1);
    SolidCons(BLANK, t2);
    SolidCons(q, t3);
    SolidCons(BLANK, t4);
    SolidCons(Token(Word, "UPDATE"), t5);
  }

  /** The quoted name is the name. */
  lemma {:induction false} DoubledNameReads(name: string)
    ensures var b := Doubled(name) + "\""; LiteralReadings.SqliteClosed(b, '"') && LiteralReadings.SqliteValue(b, '"') == name
  {
    var b := Doubled(name) + "\"";
    if name != "" {
      DoubledNameReads(name[1..]);
      var rest := Doubled(name[1..]) + "\"";
      if name[0] == '"' {
        assert b == "\"\"" + rest && b[2..] == rest;
      } else {
        assert b == name[..1] + rest && b[1..] == rest;
      }
    }
  }

  lemma QuotedNameReads(name: string)
    ensures NameOf(Token(Quoted, QuoteIdent(name))) == Some(name)
  {
    DoubledNameReads(name);
    assert QuoteIdent(name)[1..] == Doubled(name) + "\"";
  }

  // ---------------------------------------------------------------------------------------------
  // The statement written
  // ---------------------------------------------------------------------------------------------

  /** The words of the whole statement, when the clause is read as it was written. */
  lemma StatementWords(t: string, table: string, alias: string)
    requires PlainName(UnquoteWord(table)) && Good(Moves(t, table, alias))
    ensures var moves := Moves(t, table, alias);
            SolidLex(Statement(table, Out(moves))) ==
              [Token(Word, "UPDATE"), Token(Quoted, QuoteIdent(UnquoteWord(table))), Token(Word, "SET")] +
              (SolidLex(Out(moves)) + [Token(Word, "WHERE"), Token(Word, "rowid"), Token(Code, "="), Token(Code, "?")])
            && Lex(Out(moves), ByBytes) == Tokens(moves)
  {
    var moves := Moves(t, table, alias);
    var name := UnquoteWord(table);
    hide Moves, UnquoteWord, QuoteIdent, PlainName, Good, Lex, Where, Out, Tokens, CodeBytes;
    var head := HeadWords(name);
    var tail := WhereWords();
    ClauseReads(t, table, alias);
    ClauseCut(moves);
    WhereStarts();
    JoinWords(Out(moves), Where());
    var rest := Out(moves) + Where();
    JoinBlank(HeadText(name), rest);
    StatementText(table, Out(moves));
    WithoutAppend(head, Lex(rest, ByWords), IsGap);
    WithoutAppend(Lex(Out(moves), ByWords), tail, IsGap);
  }

  lemma StatementText(table: string, clause: string)
    ensures Statement(table, clause) == HeadText(UnquoteWord(table)) + (clause + Where())
  {
    hide QuoteIdent, UnquoteWord, Where;
  }

  lemma WhereStarts()
    ensures Where() != "" && !IsIdentifierPart(Where()[0])
  {
  }

  lemma ClauseCut(moves: seq<Move>)
    requires Lex(Remainder(moves), ByBytes) == RestTokens(moves)
    ensures Lex(Out(moves), ByBytes) == Tokens(moves)
    ensures Lex(Out(moves) + Where(), ByBytes) == Lex(Out(moves), ByBytes) + Lex(Where(), ByBytes)
  {
    hide Lex, Out, Tokens, Where, CodeBytes;
    WhereLex();
    var t, rest := Out(moves) + Where(), Where();
    if Out(moves) == "" {
      LexEmpty();
      assert t == rest && [] + Lex(rest, ByBytes) == Lex(rest, ByBytes);
      assert (Tokens(moves) + CodeBytes(rest))[|Tokens(moves)|..] == CodeBytes(rest);
      assert |Tokens(moves)| == 0;
    } else {
      assert t[|t| - |rest|..] == rest && t[..|t| - |rest|] == Out(moves);
      CutSplits(t, rest, Tokens(moves), ByBytes);
    }
  }

  lemma WhereLex()
    ensures Lex(Where(), ByBytes) == CodeBytes(Where())
  {
    WhereInert();
    hide Where, Lex, CodeBytes;
    InertBytes(Where(), "");
    assert Where() + "" == Where();
    LexEmpty();
    assert CodeBytes(Where()) + [] == CodeBytes(Where());
  }

  /** Gaps may be left out before or after arguments are bound. */
  lemma {:induction false} SolidRead(toks: seq<Token>, args: seq<Value>)
    ensures Read(Solid(toks), args) == SolidMeaning(Read(toks, args))
  {
    if toks == [] {
      Gaps();
      assert toks == [];
    } else {
      var tok, later := toks[0], toks[1..];
      assert toks == [tok] + later;
      SolidCons(tok, later);
      MarkSolid(tok);
      hide Solid, SolidMeaning, IsGap;
      if IsMark(tok) {
        if args != [] {
          SolidRead(later, args[1..]);
          MarkFirst(tok, later, args);
          MarkFirst(tok, Solid(later), args);
          SolidThen([Bound(args[0])], Read(later, args[1..]));
          SolidSymbol(Bound(args[0]));
        } else {
          MarkLeft(tok, later);
          MarkLeft(tok, Solid(later));
        }
      } else {
        SolidRead(later, args);
        TextFirst(tok, later, args);
        TextFirst(tok, Solid(later), args);
        SolidThen([Symbol.Text(tok)], Read(later, args));
        if IsGap(tok) {
          GapSymbol(tok);
          ThenNothing(SolidMeaning(Read(later, args)));
          assert [] + Solid(later) == Solid(later);
        } else {
          SolidSymbol(Symbol.Text(tok));
        }
      }
    }
  }

  lemma GapSymbol(tok: Token)
    requires IsGap(tok)
    ensures SolidSymbols([Symbol.Text(tok)]) == []
  {
    assert [Symbol.Text(tok)][1..] == [];
  }

  lemma MarkSolid(tok: Token)
    ensures IsMark(tok) ==> !IsGap(tok)
  {
  }

  lemma MarkFirst(tok: Token, later: seq<Token>, args: seq<Value>)
    requires IsMark(tok) && args != []
    ensures Read([tok] + later, args) == Then([Bound(args[0])], Read(later, args[1..]))
  {
    assert ([tok] + later)[1..] == later;
  }

  lemma MarkLeft(tok: Token, later: seq<Token>)
    requires IsMark(tok)
    ensures Read([tok] + later, []).None? && SolidMeaning(None).None?
  {
  }

  lemma TextFirst(tok: Token, later: seq<Token>, args: seq<Value>)
    requires !IsMark(tok)
    ensures Read([tok] + later, args) == Then([Symbol.Text(tok)], Read(later, args))
  {
    assert ([tok] + later)[1..] == later;
  }

  lemma WordsUnderstood(w: seq<Token>, name: string, mid: seq<Token>)
    requires w == [Token(Word, "UPDATE"), Token(Quoted, QuoteIdent(name)), Token(Word, "SET")] +
                  (mid + [Token(Word, "WHERE"), Token(Word, "rowid"), Token(Code, "="), Token(Code, "?")])
    ensures var n := |w|;
            && n >= 7 && Is(w[0], "UPDATE") && NameOf(w[1]) == Some(name) && Is(w[2], "SET") && Is(w[n - 4], "WHERE")
            && Is(w[n - 3], "rowid") && w[n - 2] == Token(Code, "=") && w[n - 1] == Token(Code, "?") && w[3..n - 4] == mid
  {
    QuotedNameReads(name);
    hide QuoteIdent, NameOf, Upper;
  }

  /** The clause alone, read with the arguments written for it. */
  lemma ClauseAlone(t: string, table: string, alias: string, values: Row, updateArgs: seq<Value>)
    requires Clear(t, table, alias) && Write(Moves(t, table, alias), values, updateArgs, 0).Rewritten?
    requires Lex(Out(Moves(t, table, alias)), ByBytes) == Tokens(Moves(t, table, alias))
    ensures var moves := Moves(t, table, alias);
            var read := Read(Spread(SolidLex(Out(moves))), Write(moves, values, updateArgs, 0).args);
            read.Some? && read == ClauseMeaning(t, table, alias, values, updateArgs)
  {
    var moves := Moves(t, table, alias);
    var args := Write(moves, values, updateArgs, 0).args;
    WalksInStep(Out(moves));
    LexWordsAreParts(Out(moves));
    SolidSpread(Lex(Out(moves), ByWords));
    ReadNothing();
    ArgumentsBind(t, table, alias, values, updateArgs, 0, [], [], []);
    hide Moves, Write, Meaning, Lex, Out, Tokens, Read, ClauseMeaning, Spread, Clear;
    assert Tokens(moves) + [] == Tokens(moves) && args + [] == args;
    var meaning := Meaning(moves, values, updateArgs, 0).value;
    assert meaning + [] == meaning;
    SolidRead(Tokens(moves), args);
    ClearClauseMeans(t, table, alias, values, updateArgs);
  }

  /**
   * The statement written for a clear clause, run on any table with the arguments written, changes the
   * one record with the row id to what the clause means, and no other.
   */
  lemma OneRecordChanges(t: string, table: string, alias: string, values: Row, updateArgs: seq<Value>, id: int,
                         records: seq<Record>, assign: (seq<Symbol>, Row) -> Row)
    requires PlainName(UnquoteWord(table)) && Clear(t, table, alias) && Good(Moves(t, table, alias))
    requires Write(Moves(t, table, alias), values, updateArgs, 0).Rewritten?
    ensures var written := Write(Moves(t, table, alias), values, updateArgs, 0);
            var meaning := ClauseMeaning(t, table, alias, values, updateArgs);
            var result := RunUpdate(UnquoteWord(table), records, Statement(table, written.clause), written.args + [Int(id)], assign);
            && meaning.Some? && result.Some? && |result.value| == |records|
            && forall i :: 0 <= i < |records| ==>
                 result.value[i] == if records[i].id == id then Record(id, assign(meaning.value, records[i].row)) else records[i]
  {
    hide Moves, Write, ClauseMeaning, Lex, Out, Tokens, Read, Spread, Clear, Good, PlainName, UnquoteWord, Is, NameOf;
    var moves := Moves(t, table, alias);
    var written := Write(moves, values, updateArgs, 0);
    WriteMeans(moves, values, updateArgs, 0);
    StatementWords(t, table, alias);
    WordsUnderstood(SolidLex(Statement(table, written.clause)), UnquoteWord(table), SolidLex(Out(moves)));
    hide Statement, SolidLex, QuoteIdent;
    ClauseAlone(t, table, alias, values, updateArgs);
    var args := written.args + [Int(id)];
    assert args[..|args| - 1] == written.args;
  }
}
