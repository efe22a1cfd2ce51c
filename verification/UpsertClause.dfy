/**
 * The ON DUPLICATE KEY UPDATE clause on its way to an SQLite UPDATE (buildSQLiteUpsertUpdate and
 * rewriteUpsertReference in pkg/mysqlmock/upsert.go), up to the final translateSQL.
 *
 * The clause is read as a list of moves.  The main law says when the statement written, read by the
 * scanner with its arguments bound in order, means what the moves mean.
 */
module UpsertClause {
  import opened Options
  import opened Text
  import opened SqlScanner
  import opened SqlSplitting
  import opened SqlParsing
  import opened TokenLists
  import opened Placeholders
  import opened UniqueKeys

  /** One step of the clause: text copied, a `?`, the value to be inserted in a column, or a column of the table. */
  datatype Move =
    | Copy(source: string)
    | Param(source: string)
    | InsertedValue(source: string, column: string)
    | TableColumn(source: string, column: string)

  // ---------------------------------------------------------------------------------------------
  // The moves
  // ---------------------------------------------------------------------------------------------

  function FirstMove(t: string, table: string, alias: string): (m: Move)
    requires t != ""
    ensures m.source != "" && m.source <= t
  {
    if t[0] == '\'' then Copy(Lead(t, ByBytes).text)
    else if CommentLen(t, false) > 0 then Copy(Lead(t, ByBytes).text)
    else if t[0] == '?' then Param(t[..1])
    else
      var name := NameToken(t);
      if name.Failed? then Copy(t[..1]) else Reference(t, name, table, alias)
  }

  /** The reference that starts with a name: VALUES(c), alias.c, table.c, or text to be copied. */
  function Reference(t: string, name: Parsed, table: string, alias: string): (m: Move)
    requires name.Parsed? && Follows(name.rest, t)
    ensures m.source != "" && m.source <= t && !m.Param?
  {
    if EqualFold(UnquoteWord(name.text), "VALUES") then ValuesReference(t, name.rest)
    else Qualified(t, UnquoteWord(name.text), name.rest, table, alias)
  }

  function ValuesReference(t: string, rest: string): (m: Move)
    requires Follows(rest, t)
    ensures m.source != "" && m.source <= t
  {
    var u := SkipSpaces(rest);
    FollowsOn(t, rest, u);
    var n := CallEnd(u);
    if n == 0 then Copy(UpTo(t, rest))
    else InsertedValue(t[..|t| - |u| + n], UnquoteWord(TrimSpace(u[1..n - 1])))
  }

  function CallEnd(u: string): (n: nat)
    ensures n == ParenLen(u) <= |u| && n != 1
  {
    ParenInside(u);
    ParenLen(u)
  }

  function Qualified(t: string, called: string, rest: string, table: string, alias: string): (m: Move)
    requires Follows(rest, t)
    ensures m.source != "" && m.source <= t
  {
    var u := SkipSpaces(rest);
    FollowsOn(t, rest, u);
    var column := if u != "" && u[0] == '.' then NameToken(u[1..]) else Failed;
    if column.Failed? then Copy(UpTo(t, rest))
    else
      FollowsOn(t, u, column.rest);
      var source := UpTo(t, column.rest);
      if alias != "" && EqualFold(called, alias) then InsertedValue(source, UnquoteWord(column.text))
      else if EqualFold(called, UnquoteWord(table)) then TableColumn(source, UnquoteWord(column.text))
      else Copy(source)
  }

  function Moves(t: string, table: string, alias: string): seq<Move>
    decreases |t|
  {
    if t == "" then []
    else
      var m := FirstMove(t, table, alias);
      [m] + Moves(t[|m.source|..], table, alias)
  }

  /** What a move writes. */
  function Piece(m: Move): string {
    match m
    case Copy(source) => source
    case TableColumn(_, column) => QuoteIdent(column)
    case _ => "?"
  }

  function Out(moves: seq<Move>): string {
    if moves == [] then "" else Piece(moves[0]) + Out(moves[1..])
  }

  // ---------------------------------------------------------------------------------------------
  // Writing the statement
  // ---------------------------------------------------------------------------------------------

  datatype Rewriting = Rewritten(clause: string, args: seq<Value>) | TooFewArguments | UnusedArguments | UnknownColumn

  /** The moves written out from the `used`-th update argument on. */
  function Write(moves: seq<Move>, values: Row, updateArgs: seq<Value>, used: nat): Rewriting {
    if moves == [] then (if used == |updateArgs| then Rewritten("", []) else UnusedArguments)
    else
      match moves[0]
      case Param(_) =>
        if used >= |updateArgs| then TooFewArguments
        else Before("?", [updateArgs[used]], Write(moves[1..], values, updateArgs, used + 1))
      case InsertedValue(_, column) =>
        if Lower(column) !in values then UnknownColumn
        else Before("?", [values[Lower(column)]], Write(moves[1..], values, updateArgs, used))
      case _ => Before(Piece(moves[0]), [], Write(moves[1..], values, updateArgs, used))
  }

  function Before(text: string, args: seq<Value>, r: Rewriting): Rewriting {
    if r.Rewritten? then Rewritten(text + r.clause, args + r.args) else r
  }

  function WhereHead(): (w: string)
    ensures w != "" && w[0] == ' '
  {
    " WHERE rowid = "
  }

  function Where(): (w: string)
    ensures w != "" && w[0] == ' '
  {
    WhereHead() + "?"
  }

  /** The UPDATE as it is sent, before the clause is translated. */
  function Statement(table: string, clause: string): string {
    "UPDATE " + (QuoteIdent(UnquoteWord(table)) + (" SET " + (clause + Where())))
  }

  // ---------------------------------------------------------------------------------------------
  // What the clause and the statement mean
  // ---------------------------------------------------------------------------------------------

  datatype Symbol = Text(tok: Token) | Bound(value: Value)

  function Symbols(toks: seq<Token>): (r: seq<Symbol>)
    ensures |r| == |toks|
  {
    seq(|toks|, i requires 0 <= i < |toks| => Symbol.Text(toks[i]))
  }

  /** The clause itself: the k-th `?` is the k-th update argument, a reference is the value to be inserted. */
  function Meaning(moves: seq<Move>, values: Row, updateArgs: seq<Value>, used: nat): Option<seq<Symbol>> {
    if moves == [] then (if used == |updateArgs| then Some([]) else None)
    else
      match moves[0]
      case Copy(source) => Then(Symbols(Lex(source, ByBytes)), Meaning(moves[1..], values, updateArgs, used))
      case TableColumn(_, column) =>
        Then([Symbol.Text(Token(Quoted, QuoteIdent(column)))], Meaning(moves[1..], values, updateArgs, used))
      case Param(_) =>
        if used < |updateArgs| then Then([Bound(updateArgs[used])], Meaning(moves[1..], values, updateArgs, used + 1)) else None
      case InsertedValue(_, column) =>
        if Lower(column) in values then Then([Bound(values[Lower(column)])], Meaning(moves[1..], values, updateArgs, used)) else None
  }

  function Then(head: seq<Symbol>, tail: Option<seq<Symbol>>): Option<seq<Symbol>> {
    if tail.Some? then Some(head + tail.value) else None
  }

  /** A statement with arguments: each `?` the scanner sees takes the next one, and none is left over. */
  function Read(toks: seq<Token>, args: seq<Value>): Option<seq<Symbol>> {
    if toks == [] then (if args == [] then Some([]) else None)
    else if IsMark(toks[0]) then (if args == [] then None else Then([Bound(args[0])], Read(toks[1..], args[1..])))
    else Then([Symbol.Text(toks[0])], Read(toks[1..], args))
  }

  /** The tokens the writer has in mind. */
  function MoveTokens(m: Move): seq<Token> {
    match m
    case Copy(source) => Lex(source, ByBytes)
    case TableColumn(_, column) => [Token(Quoted, QuoteIdent(column))]
    case _ => [Token(Code, "?")]
  }

  function Tokens(moves: seq<Move>): seq<Token> {
    if moves == [] then [] else MoveTokens(moves[0]) + Tokens(moves[1..])
  }

  // ---------------------------------------------------------------------------------------------
  // When the statement is read as it was written
  // ---------------------------------------------------------------------------------------------

  /** No backslash meets a quote or the end of the name: the quoted name is one closed span. */
  predicate PlainName(name: string) {
    if name == "" then true
    else if name[0] == '\\' then |name| > 1 && name[1] != '"' && PlainName(name[2..])
    else PlainName(name[1..])
  }

  function FirstChar(moves: seq<Move>): char {
    if moves == [] || Piece(moves[0]) == "" then ' ' else Piece(moves[0])[0]
  }

  predicate EndsInDouble(source: string) {
    var toks := Lex(source, ByBytes);
    toks != [] && toks[|toks| - 1].kind == Quoted && toks[|toks| - 1].text != "" && toks[|toks| - 1].text[0] == '"'
  }

  predicate EndsClosed(source: string) {
    var toks := Lex(source, ByBytes);
    toks != [] && Closed(toks[|toks| - 1], ByBytes)
  }

  /**
   * What the code relies on: the last copied span is closed, no name put in double quotes ends in a
   * backslash or has one before a quote, and no two double-quoted names end up side by side.
   */
  predicate Good(moves: seq<Move>) {
    moves == [] || (MoveGood(moves[0], moves[1..]) && Good(moves[1..]))
  }

  predicate MoveGood(m: Move, later: seq<Move>) {
    match m
    case Copy(source) => (later == [] ==> EndsClosed(source)) && (EndsInDouble(source) ==> FirstChar(later) != '"')
    case TableColumn(_, column) => PlainName(column) && FirstChar(later) != '"'
    case _ => true
  }

  /** Bytes that are code on their own, whatever follows. */
  predicate Inert(c: char) {
    !IsQuote(c) && c != '-' && c != '/' && c != '#'
  }

  lemma InertLead(x: string, y: string)
    requires x != "" && Inert(x[0])
    ensures Lex(x + y, ByBytes) == [Token(Code, x[..1])] + Lex(x[1..] + y, ByBytes)
  {
    assert (x + y)[1..] == x[1..] + y && (x + y)[..1] == x[..1];
    assert Lead(x + y, ByBytes) == Token(Code, x[..1]);
  }

  lemma {:induction false} InertBytes(x: string, y: string)
    requires forall k :: 0 <= k < |x| ==> Inert(x[k])
    ensures Lex(x + y, ByBytes) == CodeBytes(x) + Lex(y, ByBytes)
  {
    hide Lex, Inert;
    if x == "" {
      assert x + y == y;
    } else {
      InertBytes(x[1..], y);
      InertLead(x, y);
    }
  }

  /** A doubled name is a closed span body exactly when it is plain. */
  lemma {:induction false} QuotedNameCloses(name: string)
    ensures ClosedBody(Doubled(name) + "\"", '"') <==> PlainName(name)
    decreases |name|
  {
    var x := Doubled(name) + "\"";
    if name != "" {
      var rest := Doubled(name[1..]) + "\"";
      if name[0] == '"' {
        assert x == "\"\"" + rest;
        assert x[2..] == rest;
        QuotedNameCloses(name[1..]);
      } else if name[0] != '\\' {
        assert x == name[..1] + rest;
        assert x[1..] == rest;
        QuotedNameCloses(name[1..]);
      } else if |name| > 1 {
        var later := Doubled(name[2..]) + "\"";
        assert name[1..][1..] == name[2..];
        if name[1] == '"' {
          assert x == "\\\"" + ("\"" + later);
          assert x[2..] == "\"" + later;
          StrayQuote(name[2..]);
        } else {
          assert x == name[..2] + later;
          assert x[2..] == later;
          QuotedNameCloses(name[2..]);
        }
      } else {
        assert x == "\\\"";
        assert x[2..] == "";
      }
    }
  }

  /** Behind an escaped quote the doubling is out of step and the span never ends where it should. */
  lemma {:induction false} StrayQuote(name: string)
    ensures !ClosedBody("\"" + (Doubled(name) + "\""), '"')
    decreases |name|
  {
    var rest := Doubled(name) + "\"";
    var x := "\"" + rest;
    assert x[1..] == rest;
    if name == "" {
      assert x[2..] == "";
    } else if name[0] == '"' {
      var later := Doubled(name[1..]) + "\"";
      assert rest == "\"\"" + later;
      assert x[2..] == "\"" + later;
      StrayQuote(name[1..]);
    } else {
      assert rest[0] == name[0];
    }
  }

  lemma ColumnSits(column: string, y: string)
    requires y != ""
    ensures Sits(Token(Quoted, QuoteIdent(column)), y, ByBytes) <==> PlainName(column) && y[0] != '"'
  {
    var text := QuoteIdent(column);
    var body := Doubled(column) + "\"";
    assert text == "\"" + body;
    assert (text + y)[1..] == body + y && text[1..] == body;
    QuotedNameCloses(column);
    if PlainName(column) && y[0] != '"' {
      ClosedBodyEnds(body, y, '"');
      assert (text + y)[..|text|] == text;
    } else if Sits(Token(Quoted, text), y, ByBytes) {
      assert |Lead(text + y, ByBytes).text| == 1 + QuoteTail(body + y, '"');
      ShortSpanIsClosed(body, y, '"');
    }
  }

  lemma MarkSits(y: string)
    ensures Sits(Token(Code, "?"), y, ByBytes)
  {
    assert ("?" + y)[..1] == "?";
  }

  /** A token that something follows may be followed by any inert byte, or by a quote it does not end with. */
  lemma SitsBefore(tok: Token, y: string, z: string)
    requires Sits(tok, y, ByBytes) && y != "" && z != ""
    requires z[0] == y[0] || z[0] == '?' || z[0] == '"'
    ensures Sits(tok, z, ByBytes) <==> !(tok.kind == Quoted && tok.text[0] == '"' && z[0] == '"')
  {
    var x := tok.text;
    TailAfterFirst(x, y, z);
    hide QuoteTail, ClosedBody, LineTail, BlockTail, PartTail;
    match tok.kind
    case Quoted =>
      ShortSpanIsClosed(x[1..], y, x[0]);
      if z[0] != x[0] || x[0] == '`' {
        ClosedBodyEnds(x[1..], z, x[0]);
      } else if Sits(tok, z, ByBytes) {
        ShortSpanIsClosed(x[1..], z, x[0]);
      }
    case Comment => CommentLocal(x, y, z, false);
    case Word =>
    case Code => CodeBeforeInert(x, y, z);
  }

  lemma CodeBeforeInert(x: string, y: string, z: string)
    requires |x| == 1 && CommentLen(x + y, false) == 0 && y != "" && z != ""
    requires z[0] == y[0] || z[0] == '?' || z[0] == '"'
    ensures CommentLen(x + z, false) == 0
  {
    assert (x + y)[0] == (x + z)[0] == x[0];
    assert (x + y)[1] == y[0] && (x + z)[1] == z[0];
  }
}
