/**
 * Reading the rewritten update clause back: the text of every move is cut off between tokens, and
 * the moves' tokens are what the scanner sees exactly when the moves are good.
 */
module UpsertReading {
  import opened Options
  import opened Text
  import opened SqlScanner
  import opened SqlSplitting
  import opened SqlParsing
  import opened TokenLists
  import opened Placeholders
  import opened UniqueKeys
  import opened UpsertClause

  // ---------------------------------------------------------------------------------------------
  // Copied text is made of whole tokens and holds no placeholder
  // ---------------------------------------------------------------------------------------------

  predicate NoMarks(toks: seq<Token>) {
    forall tok :: tok in toks ==> !IsMark(tok)
  }

  /** The text before `rest` is whole tokens, none of them a placeholder. */
  ghost predicate Lexes(t: string, rest: string) {
    Splits(t, rest, ByBytes) && NoMarks(Lex(UpTo(t, rest), ByBytes))
  }

  lemma CutLexes(t: string, rest: string, toks: seq<Token>)
    requires Follows(rest, t) && Lex(t, ByBytes) == toks + Lex(rest, ByBytes) && NoMarks(toks)
    ensures Lexes(t, rest) && Lex(UpTo(t, rest), ByBytes) == toks
  {
    CutSplits(t, rest, toks, ByBytes);
  }

  lemma LexesThen(t: string, mid: string, rest: string)
    requires Lexes(t, mid) && Lexes(mid, rest)
    ensures Lexes(t, rest)
  {
    SplitsThen(t, mid, rest, ByBytes);
    hide Splits, Lex;
  }

  lemma LeadLexes(t: string)
    requires t != "" && !IsMark(Lead(t, ByBytes))
    ensures Lexes(t, t[|Lead(t, ByBytes).text|..])
  {
    var tok := Lead(t, ByBytes);
    CutLexes(t, t[|tok.text|..], [tok]);
  }

  lemma {:induction false} CodeBytesNoMarks(x: string)
    requires '?' !in x
    ensures NoMarks(CodeBytes(x))
  {
    if x != "" {
      CodeBytesNoMarks(x[1..]);
    }
  }

  lemma InertLexes(t: string, n: nat)
    requires 0 < n <= |t| && forall c :: c in t[..n] ==> Inert(c) && c != '?'
    ensures Lexes(t, t[n..])
  {
    hide Lex, CodeBytes;
    InertBytes(t[..n], t[n..]);
    assert t == t[..n] + t[n..];
    CodeBytesNoMarks(t[..n]);
    CutLexes(t, t[n..], CodeBytes(t[..n]));
  }

  lemma {:induction false} SpacesInert(t: string)
    ensures forall c :: c in t[..SpaceLen(t)] ==> Inert(c) && c != '?'
  {
    if SpaceLen(t) > 0 {
      SpacesInert(t[1..]);
      assert t[..SpaceLen(t)] == t[..1] + t[1..][..SpaceLen(t[1..])];
    }
  }

  lemma NameHeadLexes(u: string)
    requires NameToken(u).Parsed? && SpaceLen(u) == 0
    ensures Lexes(u, NameToken(u).rest)
  {
    hide Lexes, Lex, QuoteTail, CommentLen, PartTail;
    assert SkipSpaces(u) == u;
    if u[0] == '`' || u[0] == '"' {
      LeadLexes(u);
    } else {
      PartsInert(u);
      InertLexes(u, IdentifierLen(u));
    }
  }

  lemma PartsInert(u: string)
    ensures forall c :: c in u[..IdentifierLen(u)] ==> Inert(c) && c != '?'
  {
    var n := IdentifierLen(u);
    forall k | 0 <= k < n
      ensures IsIdentifierPart(u[k])
    {
      if k > 0 {
        assert u[k] == u[1..][k - 1];
      }
    }
  }

  lemma NameLexes(t: string)
    requires NameToken(t).Parsed?
    ensures Lexes(t, NameToken(t).rest)
  {
    var n := SpaceLen(t);
    var u := t[n..];
    hide Lexes;
    NameAfterSpaces(t);
    NameHeadLexes(u);
    if n > 0 {
      SpacesInert(t);
      InertLexes(t, n);
      LexesThen(t, u, NameToken(t).rest);
    } else {
      assert u == t;
    }
  }

  lemma NameAfterSpaces(t: string)
    ensures SpaceLen(t[SpaceLen(t)..]) == 0
    ensures NameToken(t[SpaceLen(t)..]) == NameToken(t)
  {
    var u := SkipSpaces(t);
    assert SpaceLen(u) == 0;
    assert SkipSpaces(u) == u;
  }

  /** Every copied text is whole tokens without placeholders. */
  lemma CopyLexes(t: string, table: string, alias: string)
    requires t != "" && FirstMove(t, table, alias).Copy?
    ensures Lexes(t, t[|FirstMove(t, table, alias).source|..])
  {
    hide Lexes, Lex, QuoteTail, CommentLen, ParenLen, UnquoteWord, EqualFold, NameToken;
    var m := FirstMove(t, table, alias);
    var name := NameToken(t);
    if t[0] == '\'' || CommentLen(t, false) > 0 {
      LeadLexes(t);
    } else if name.Failed? {
      CodeLeads(t);
      LeadLexes(t);
    } else {
      NameLexes(t);
      QualifiedLexes(t, UnquoteWord(name.text), name.rest, table, alias);
    }
  }

  lemma CodeLeads(t: string)
    requires t != "" && t[0] != '\'' && CommentLen(t, false) == 0 && t[0] != '?' && NameToken(t).Failed?
    ensures Lead(t, ByBytes) == Token(Code, t[..1]) && !IsMark(Lead(t, ByBytes))
  {
    assert !IsSpace(t[0]) ==> SkipSpaces(t) == t;
  }

  lemma QualifiedLexes(t: string, called: string, rest: string, table: string, alias: string)
    requires Follows(rest, t) && Lexes(t, rest)
    ensures var m := Qualified(t, called, rest, table, alias);
            m.Copy? ==> Lexes(t, t[|m.source|..])
  {
    hide Lexes, Lex, UnquoteWord, EqualFold, NameToken;
    var u := SkipSpaces(rest);
    var m := Qualified(t, called, rest, table, alias);
    if u != "" && u[0] == '.' && NameToken(u[1..]).Parsed? && m.Copy? {
      var column := NameToken(u[1..]);
      DotLexes(rest);
      LexesThen(t, rest, u[1..]);
      NameLexes(u[1..]);
      LexesThen(t, u[1..], column.rest);
    }
  }

  lemma DotLexes(rest: string)
    requires SkipSpaces(rest) != "" && SkipSpaces(rest)[0] == '.'
    ensures Lexes(rest, SkipSpaces(rest)[1..])
  {
    var n := SpaceLen(rest);
    SpacesInert(rest);
    assert rest[..n + 1] == rest[..n] + ".";
    InertLexes(rest, n + 1);
    assert rest[n + 1..] == SkipSpaces(rest)[1..];
  }

  // ---------------------------------------------------------------------------------------------
  // The statement is read as it was written
  // ---------------------------------------------------------------------------------------------

  /** What follows the moves in the statement. */
  function Remainder(moves: seq<Move>): string {
    Out(moves) + Where()
  }

  function RestTokens(moves: seq<Move>): seq<Token> {
    Tokens(moves) + CodeBytes(Where())
  }

  lemma RestFirst(moves: seq<Move>)
    requires moves == [] || Piece(moves[0]) != ""
    ensures Remainder(moves) != "" && Remainder(moves)[0] == FirstChar(moves)
    ensures moves == [] ==> Remainder(moves) == Where()
  {
    hide Piece, Where;
  }

  /** One move: its tokens are read back exactly when it is good. */
  lemma CopyStep(t: string, table: string, alias: string, later: seq<Move>)
    requires t != "" && FirstMove(t, table, alias).Copy?
    requires later == Moves(t[|FirstMove(t, table, alias).source|..], table, alias)
    ensures var source := FirstMove(t, table, alias).source;
            Lex(source + Remainder(later), ByBytes) == Lex(source, ByBytes) + Lex(Remainder(later), ByBytes) <==>
              (later == [] ==> EndsClosed(source)) && (EndsInDouble(source) ==> FirstChar(later) != '"')
  {
    hide Lexes, FirstMove, Lex, QuoteIdent, Sits, Where, Piece;
    var source := FirstMove(t, table, alias).source;
    var rest := t[|source|..];
    CopyLexes(t, table, alias);
    var toks := Lex(source, ByBytes);
    LexSpells(source, ByBytes);
    NonEmptyLex(source);
    PiecesNotEmpty(rest, table, alias);
    RestFirst(later);
    LexJoin(toks, Remainder(later), ByBytes);
    var tok := toks[|toks| - 1];
    if rest == "" {
      WhereSits(tok);
    } else {
      assert source == UpTo(t, rest);
      LastSits(t, rest);
      SitsNotEmpty(tok, rest, ByBytes);
      SitsBefore(tok, rest, Remainder(later));
      assert later != [];
    }
  }

  lemma NonEmptyLex(source: string)
    requires source != ""
    ensures Lex(source, ByBytes) != []
  {
  }

  lemma WhereSits(tok: Token)
    ensures Sits(tok, Where(), ByBytes) <==> Closed(tok, ByBytes)
    ensures Closed(tok, ByBytes) ==> !(tok.kind == Quoted && FirstChar([]) == '"')
  {
    hide Lead;
    hide Where;
    if tok.text != "" {
      if Sits(tok, Where(), ByBytes) { SitsNext(tok, Where(), " ", ByBytes); }
      if Sits(tok, " ", ByBytes) { SitsNext(tok, " ", Where(), ByBytes); }
    }
  }

  /** In the clause itself the last copied token sits before what follows. */
  lemma LastSits(t: string, rest: string)
    requires Lexes(t, rest) && rest != ""
    ensures var toks := Lex(UpTo(t, rest), ByBytes); toks != [] && Sits(toks[|toks| - 1], rest, ByBytes)
  {
    var toks := Lex(UpTo(t, rest), ByBytes);
    NonEmptyLex(UpTo(t, rest));
    LexSpells(UpTo(t, rest), ByBytes);
    hide Lex;
    assert t == UpTo(t, rest) + rest;
    LexJoin(toks, rest, ByBytes);
  }

  /** What a following move writes starts with what it replaces, with `?`, or with a double quote. */
  lemma PiecesNotEmpty(t: string, table: string, alias: string)
    ensures var moves := Moves(t, table, alias);
            (moves == [] <==> t == "") &&
            (moves != [] ==> Piece(moves[0]) != "" && (Piece(moves[0])[0] == t[0] || Piece(moves[0])[0] in "?\""))
  {
    hide Lead, Reference, CommentLen, NameToken;
  }

  lemma ColumnStep(source: string, column: string, y: string)
    requires y != ""
    ensures Lex(QuoteIdent(column) + y, ByBytes) == [Token(Quoted, QuoteIdent(column))] + Lex(y, ByBytes) <==>
              PlainName(column) && y[0] != '"'
  {
    LexOne(Token(Quoted, QuoteIdent(column)), y, ByBytes);
    ColumnSits(column, y);
  }

  lemma MarkStep(y: string)
    ensures Lex("?" + y, ByBytes) == [Token(Code, "?")] + Lex(y, ByBytes)
  {
    LexOne(Token(Code, "?"), y, ByBytes);
    MarkSits(y);
  }

  /** One move and what follows it: read back exactly when the move is good. */
  lemma MoveReads(t: string, table: string, alias: string)
    requires t != ""
    ensures var m := FirstMove(t, table, alias);
            var later := Moves(t[|m.source|..], table, alias);
            Lex(Piece(m) + Remainder(later), ByBytes) == MoveTokens(m) + Lex(Remainder(later), ByBytes) <==> MoveGood(m, later)
  {
    hide FirstMove, Lex, Lead, QuoteIdent, PlainName, EndsClosed, EndsInDouble;
    var m := FirstMove(t, table, alias);
    var later := Moves(t[|m.source|..], table, alias);
    PiecesNotEmpty(t[|m.source|..], table, alias);
    RestFirst(later);
    match m
    case Copy(source) => CopyStep(t, table, alias, later);
    case TableColumn(source, column) => ColumnStep(source, column, Remainder(later));
    case _ => MarkStep(Remainder(later));
  }

  lemma MoveSpells(m: Move)
    ensures Flatten(MoveTokens(m)) == Piece(m)
  {
    match m
    case Copy(source) => LexSpells(source, ByBytes);
    case TableColumn(_, column) =>
      assert [Token(Quoted, QuoteIdent(column))][1..] == [];
    case _ =>
      assert [Token(Code, "?")][1..] == [];
  }

  lemma {:induction false} RestSpells(moves: seq<Move>)
    ensures Flatten(RestTokens(moves)) == Remainder(moves)
  {
    hide MoveTokens, Piece, Flatten, CodeBytes, Where;
    if moves == [] {
      CodeBytesSpell(Where());
      assert [] + CodeBytes(Where()) == CodeBytes(Where()) && "" + Where() == Where();
    } else {
      var m, later := moves[0], moves[1..];
      RestSpells(later);
      MoveSpells(m);
      FlattenAppend(MoveTokens(m), RestTokens(later));
      assert RestTokens(moves) == MoveTokens(m) + RestTokens(later);
      assert Remainder(moves) == Piece(m) + Remainder(later);
    }
  }

  lemma WhereLexes()
    ensures Lex(Where(), ByBytes) == CodeBytes(Where())
  {
    hide Lex, CodeBytes;
    WhereInert();
    hide Where;
    InertBytes(Where(), "");
    assert Where() + "" == Where();
    LexNothing();
    assert CodeBytes(Where()) + [] == CodeBytes(Where());
  }

  lemma WhereInert()
    ensures forall c :: c in Where() ==> Inert(c)
    ensures '?' !in WhereHead()
  {
  }

  lemma LexNothing()
    ensures Lex("", ByBytes) == []
  {
  }

  /** The clause and what follows it are read as the moves' tokens exactly when every move is good. */
  lemma {:induction false} ClauseReads(t: string, table: string, alias: string)
    ensures var moves := Moves(t, table, alias);
            Lex(Remainder(moves), ByBytes) == RestTokens(moves) <==> Good(moves)
    decreases |t|
  {
    hide FirstMove, Lex, Lead, CodeBytes, MoveGood, Piece, MoveTokens, Flatten, Where;
    var moves := Moves(t, table, alias);
    if t == "" {
      WhereLexes();
      assert [] + CodeBytes(Where()) == CodeBytes(Where()) && "" + Where() == Where();
    } else {
      var m := FirstMove(t, table, alias);
      var later := Moves(t[|m.source|..], table, alias);
      ClauseReads(t[|m.source|..], table, alias);
      assert moves == [m] + later && moves[1..] == later;
      MoveReads(t, table, alias);
      assert Remainder(moves) == Piece(m) + Remainder(later);
      assert RestTokens(moves) == MoveTokens(m) + RestTokens(later);
      MoveSpells(m);
      RestSpells(later);
      if Lex(Remainder(moves), ByBytes) == RestTokens(moves) {
        SpelledTail(MoveTokens(m), RestTokens(later), ByBytes);
      }
    }
  }
}
