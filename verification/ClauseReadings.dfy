/**
 * What an ON DUPLICATE KEY UPDATE clause means, read off its tokens with comments as white space, and
 * when the rewriter (rewriteUpsertReference in pkg/mysqlmock/upsert.go) reads it the same way.
 */
module ClauseReadings {
  import opened Options
  import opened Text
  import opened SqlScanner
  import opened SqlSplitting
  import opened SqlParsing
  import opened TokenLists
  import opened Placeholders
  import opened UniqueKeys
  import opened UpsertClause

  /**
   * What a piece of the clause stands for: itself, an argument, the value to be inserted in a column,
   * a column of the table, or a column of something else.  `path` tells whether the column of a
   * VALUES call is a name with qualifiers.
   */
  datatype Sense =
    | Plain(tok: Token)
    | Argument
    | Inserted(column: string, path: bool)
    | Field(column: string)
    | Dotted(owner: Token, name: Token)

  // ---------------------------------------------------------------------------------------------
  // The clause by its tokens
  // ---------------------------------------------------------------------------------------------

  predicate IsGap(tok: Token) {
    tok.kind == Comment || IsSpaceToken(tok)
  }

  function Solid(toks: seq<Token>): seq<Token> {
    Without(toks, IsGap)
  }

  /** The solid tokens of a text. */
  function SolidLex(t: string): seq<Token> {
    Solid(Lex(t, ByWords))
  }

  predicate Called(tok: Token, name: string) {
    EqualFold(UnquoteWord(tok.text), name)
  }

  /** Tokens of a name with any number of qualifiers. */
  function PathLen(toks: seq<Token>): (n: nat)
    ensures n <= |toks|
    ensures n > 0 ==> IsName(toks[0]) && IsName(toks[n - 1])
    ensures n != 2
  {
    if toks == [] || !IsName(toks[0]) then 0
    else if |toks| > 2 && IsCode(toks[1], '.') && IsName(toks[2]) then 2 + PathLen(toks[2..])
    else 1
  }

  /** Tokens of a parenthesis around such a name, 0 if there is none. */
  function CallArgument(toks: seq<Token>): (n: nat)
    ensures n <= |toks|
    ensures n > 0 ==> n >= 3 && IsName(toks[n - 2])
  {
    if toks == [] || !IsCode(toks[0], '(') then 0
    else
      var k := PathLen(toks[1..]);
      if k > 0 && 1 + k < |toks| && IsCode(toks[1 + k], ')') then k + 2 else 0
  }

  predicate HasColumn(toks: seq<Token>) {
    |toks| > 1 && IsCode(toks[0], '.') && IsName(toks[1])
  }

  /** What the first tokens stand for. */
  function FirstSense(toks: seq<Token>, table: string, alias: string): Sense
    requires toks != []
  {
    if IsMark(toks[0]) then Argument
    else if !IsName(toks[0]) then Plain(toks[0])
    else if Called(toks[0], "VALUES") then OfCall(toks[0], toks[1..])
    else if HasColumn(toks[1..]) then OfColumn(toks[0], toks[2], table, alias)
    else Plain(toks[0])
  }

  /** And how many they are. */
  function FirstLen(toks: seq<Token>): (n: nat)
    requires toks != []
    ensures 0 < n <= |toks|
  {
    if IsMark(toks[0]) || !IsName(toks[0]) then 1
    else if Called(toks[0], "VALUES") then 1 + CallArgument(toks[1..])
    else if HasColumn(toks[1..]) then 3
    else 1
  }

  function OfCall(tok: Token, rest: seq<Token>): Sense {
    var n := CallArgument(rest);
    if n == 0 then Plain(tok) else Inserted(UnquoteWord(rest[n - 2].text), n > 3)
  }

  function OfColumn(tok: Token, column: Token, table: string, alias: string): Sense {
    if alias != "" && Called(tok, alias) then Inserted(UnquoteWord(column.text), false)
    else if Called(tok, UnquoteWord(table)) then Field(UnquoteWord(column.text))
    else Dotted(tok, column)
  }

  /** The clause as MySQL reads it. */
  function Reading(toks: seq<Token>, table: string, alias: string): seq<Sense> {
    if toks == [] then []
    else [FirstSense(toks, table, alias)] + Reading(toks[FirstLen(toks)..], table, alias)
  }

  function ClauseReading(t: string, table: string, alias: string): seq<Sense> {
    Reading(SolidLex(t), table, alias)
  }

  // ---------------------------------------------------------------------------------------------
  // The clause by the moves of the rewriter
  // ---------------------------------------------------------------------------------------------

  function PlainAll(toks: seq<Token>): seq<Sense> {
    if toks == [] then [] else [Plain(toks[0])] + PlainAll(toks[1..])
  }

  /** Copied text: a qualified name that is copied as one counts as one. */
  function Copied(toks: seq<Token>): seq<Sense> {
    if |toks| == 3 && IsName(toks[0]) && HasColumn(toks[1..]) then [Dotted(toks[0], toks[2])] else PlainAll(toks)
  }

  function MoveSenses(m: Move): seq<Sense> {
    match m
    case Copy(source) => Copied(SolidLex(source))
    case Param(_) => [Argument]
    case InsertedValue(_, column) => [Inserted(column, false)]
    case TableColumn(_, column) => [Field(column)]
  }

  function MovesReading(moves: seq<Move>): seq<Sense> {
    if moves == [] then [] else MoveSenses(moves[0]) + MovesReading(moves[1..])
  }

  // ---------------------------------------------------------------------------------------------
  // References written without comments
  // ---------------------------------------------------------------------------------------------

  /** What follows a name is a dot and a name with nothing but white space around the dot. */
  predicate PlainPair(t: string) {
    var u := SkipSpaces(t);
    u != "" && u[0] == '.' && NameToken(u[1..]).Parsed?
  }

  /** What follows a name is one name in parentheses, with nothing but white space around them. */
  predicate PlainCall(t: string) {
    var u := SkipSpaces(t);
    u != "" && u[0] == '(' &&
    var name := NameToken(u[1..]);
    name.Parsed? && SkipSpaces(name.rest) != "" && SkipSpaces(name.rest)[0] == ')'
  }

  /** A parenthesis that closes follows, or - over comments - one around a column. */
  predicate LooksLikeCall(t: string) {
    ParenLen(SkipSpaces(t)) > 0 || CallArgument(SolidLex(t)) > 0
  }

  /**
   * If a name is followed by what looks like its column, or VALUES by what looks like its argument, it
   * is written without comments, and the argument is one name.
   */
  predicate ClearAt(t: string) {
    var name := NameToken(t);
    name.Parsed? ==>
      if EqualFold(UnquoteWord(name.text), "VALUES") then LooksLikeCall(name.rest) ==> PlainCall(name.rest)
      else HasColumn(SolidLex(name.rest)) ==> PlainPair(name.rest)
  }

  /** Wherever the rewriter makes a move. */
  predicate Clear(t: string, table: string, alias: string)
    decreases |t|
  {
    t == "" || (ClearAt(t) && Clear(t[|FirstMove(t, table, alias).source|..], table, alias))
  }

  // ---------------------------------------------------------------------------------------------
  // Tokens behind the parsers
  // ---------------------------------------------------------------------------------------------

  lemma SolidSpaces(t: string)
    ensures SolidLex(t) == SolidLex(SkipSpaces(t))
  {
    var gap := SpacesLex(t);
    hide Lex, SkipSpaces;
    WithoutAppend(gap, Lex(SkipSpaces(t), ByWords), IsGap);
    WithoutAll(gap, IsGap);
    assert [] + SolidLex(SkipSpaces(t)) == SolidLex(SkipSpaces(t));
  }

  /** The name token that is read, in front of what follows it. */
  lemma SolidName(t: string) returns (tok: Token)
    requires NameToken(t).Parsed?
    ensures IsName(tok) && tok.text == NameToken(t).text
    ensures SolidLex(t) == [tok] + SolidLex(NameToken(t).rest)
    ensures Lex(SkipSpaces(t), ByWords) == [tok] + Lex(NameToken(t).rest, ByWords)
  {
    SolidSpaces(t);
    NameLex(t);
    hide Lex, SkipSpaces, NameToken;
    var toks := Lex(SkipSpaces(t), ByWords);
    tok := toks[0];
    assert toks == [tok] + toks[1..];
    WithoutFirst(tok, toks[1..], IsGap);
  }

  lemma SolidByte(t: string)
    requires t != "" && t[0] in ".()?"
    ensures Lex(t, ByWords) == [Token(Code, [t[0]])] + Lex(t[1..], ByWords)
    ensures SolidLex(t) == [Token(Code, [t[0]])] + SolidLex(t[1..])
  {
    LexCodeByte(t);
    hide Lex;
    WithoutFirst(Token(Code, [t[0]]), Lex(t[1..], ByWords), IsGap);
  }

  /** A dot and a name, over white space only. */
  lemma SolidPair(t: string) returns (column: Token)
    requires PlainPair(t)
    ensures var name := NameToken(SkipSpaces(t)[1..]);
            && IsName(column) && column.text == name.text
            && SolidLex(t) == [Token(Code, ".")] + ([column] + SolidLex(name.rest))
  {
    SolidSpaces(t);
    hide SolidLex, NameToken, SkipSpaces;
    SolidByte(SkipSpaces(t));
    column := SolidName(SkipSpaces(t)[1..]);
    assert [SkipSpaces(t)[0]] == ".";
  }

  /**
   * What a parenthesis around one name looks like in the tokens: gaps, the name, gaps, and the closing
   * parenthesis where ParenLen finds it.
   */
  ghost predicate CallShape(u: string, before: seq<Token>, tok: Token, behind: seq<Token>, later: seq<Token>) {
    && u != "" && u[0] == '('
    && (forall gap :: gap in before || gap in behind ==> IsGap(gap)) && IsName(tok)
    && Lex(u[1..], ByWords) == (before + [tok] + behind) + ([Token(Code, ")")] + later)
  }

  lemma FindCallShape(u: string) returns (before: seq<Token>, tok: Token, behind: seq<Token>, later: seq<Token>)
    requires u != "" && u[0] == '(' && CallArgument(SolidLex(u)) == 3
    ensures CallShape(u, before, tok, behind, later)
    ensures SolidLex(u)[1] == tok && Solid(later) == SolidLex(u)[3..]
  {
    SolidByte(u);
    var toks := Lex(u[1..], ByWords);
    hide Lex;
    var solid := Solid(toks);
    assert SolidLex(u)[1..] == solid && IsCode(solid[1], ')');
    var rest;
    before, rest := FirstKept(toks, IsGap);
    tok := solid[0];
    behind, later := FirstKept(rest, IsGap);
    assert solid[1] == Token(Code, ")");
    hide CallArgument, Solid;
    TwoCuts(toks, before, tok, rest, behind, solid[1], later);
    assert SolidLex(u)[3..] == solid[1..][1..];
  }

  lemma TwoCuts<T>(all: seq<T>, a: seq<T>, x: T, rest: seq<T>, b: seq<T>, y: T, c: seq<T>)
    requires all == a + [x] + rest && rest == b + [y] + c
    ensures all == (a + [x] + b) + ([y] + c)
  {
  }

  /** The text of such a parenthesis. */
  lemma CallText(u: string, before: seq<Token>, tok: Token, behind: seq<Token>, later: seq<Token>)
    requires CallShape(u, before, tok, behind, later)
    ensures var n := ParenLen(u);
            && 2 <= n <= |u| && u[1..n - 1] == Flatten(before) + tok.text + Flatten(behind)
            && Lex(u[n..], ByWords) == later
  {
    ParenWords(u);
    hide Lex, ParenLen, Flatten;
    var inner, close := before + [tok] + behind, Token(Code, ")");
    CloseHere(inner, close, later);
    CutText(u, inner, close, later);
    InnerText(before, tok, behind);
  }

  lemma CloseHere(inner: seq<Token>, close: Token, later: seq<Token>)
    requires close == Token(Code, ")") && forall tok :: tok in inner ==> IsGap(tok) || IsName(tok)
    ensures var toks := inner + ([close] + later);
            CloseAt(toks, 1) == |inner| + 1 && toks[..|inner| + 1] == inner + [close] && toks == (inner + [close]) + later
  {
    assert forall tok :: tok in inner ==> !IsCode(tok, '(') && !IsCode(tok, ')');
    CloseAtPast(inner, [close] + later, 1);
    assert ([close] + later)[0] == close;
  }

  lemma InnerText(before: seq<Token>, tok: Token, behind: seq<Token>)
    ensures Flatten(before + [tok] + behind) == Flatten(before) + tok.text + Flatten(behind)
  {
    FlattenAppend(before + [tok], behind);
    FlattenAppend(before, [tok]);
    assert [tok][1..] == [];
  }

  lemma CutText(u: string, inner: seq<Token>, close: Token, later: seq<Token>)
    requires u != "" && |close.text| == 1
    requires Lex(u[1..], ByWords) == (inner + [close]) + later
    ensures var n := 2 + |Flatten(inner)|;
            && n <= |u| && |Flatten(inner + [close])| == n - 1
            && u[1..n - 1] == Flatten(inner) && Lex(u[n..], ByWords) == later
  {
    LexSpells(u[1..], ByWords);
    hide Lex, Settled;
    FlattenAppend(inner + [close], later);
    FlattenSnoc(inner, close);
    SettledCut(inner + [close], later, ByWords);
    Relex(later, ByWords);
    hide Flatten;
    Sliced(u, Flatten(inner), close.text, Flatten(later));
  }

  lemma Sliced(u: string, a: string, b: string, c: string)
    requires u != "" && |b| == 1 && u[1..] == (a + b) + c
    ensures var n := 2 + |a|; n <= |u| && u[1..n - 1] == a && u[n..] == c
  {
    assert u[2 + |a|..] == u[1..][1 + |a|..];
    assert u[1..1 + |a|] == u[1..][..|a|];
  }

  /** It is written plainly exactly when the gaps are white space. */
  lemma PlainCallShape(u: string, before: seq<Token>, tok: Token, behind: seq<Token>, later: seq<Token>)
    requires CallShape(u, before, tok, behind, later) && SpaceLen(u) == 0
    ensures PlainCall(u) <==> AllSpace(before) && AllSpace(behind)
    ensures PlainCall(u) ==> NameToken(u[1..]).text == tok.text
  {
    OpensPlainCall(u);
    ShapeTail(u, before, tok, behind, later);
    hide Lex, NameToken, SpaceLen, SkipSpaces, PlainCall, AllSpace, IsGap, IsName, CallShape;
    NameFound(u[1..], before, tok, behind + ([Token(Code, ")")] + later));
    if AllSpace(before) {
      CloseFound(NameToken(u[1..]).rest, behind, later);
    }
  }

  lemma ShapeTail(u: string, before: seq<Token>, tok: Token, behind: seq<Token>, later: seq<Token>)
    requires CallShape(u, before, tok, behind, later)
    ensures u != "" && u[0] == '(' && IsName(tok)
    ensures Lex(u[1..], ByWords) == before + ([tok] + (behind + ([Token(Code, ")")] + later)))
    ensures (forall gap :: gap in before ==> IsGap(gap)) && forall gap :: gap in behind ==> IsGap(gap)
  {
    hide Lex, IsGap, IsName;
  }

  lemma OpensPlainCall(u: string)
    requires u != "" && u[0] == '(' && SpaceLen(u) == 0
    ensures var name := NameToken(u[1..]);
            PlainCall(u) <==> name.Parsed? && SkipSpaces(name.rest) != "" && SkipSpaces(name.rest)[0] == ')'
  {
    NoSpaces(u);
    hide NameToken, SpaceLen, SkipSpaces;
  }

  /** A name behind gaps is found by the parser exactly when they are white space. */
  lemma NameFound(t: string, before: seq<Token>, tok: Token, tail: seq<Token>)
    requires Lex(t, ByWords) == before + ([tok] + tail) && IsName(tok) && forall gap :: gap in before ==> IsGap(gap)
    ensures NameToken(t).Parsed? <==> AllSpace(before)
    ensures NameToken(t).Parsed? ==> NameToken(t).text == tok.text && Lex(NameToken(t).rest, ByWords) == tail
  {
    NameLex(t);
    hide Lex, NameToken, SkipSpaces;
    assert ([tok] + tail)[1..] == tail;
    if AllSpace(before) {
      SpacesFound(t, before, [tok] + tail);
    } else if NameToken(t).Parsed? {
      var gap := SpacesLex(t);
      SameGap(before, [tok] + tail, gap, Lex(SkipSpaces(t), ByWords), IsGap);
      assert false;
    }
  }

  lemma CloseFound(rest: string, behind: seq<Token>, later: seq<Token>)
    requires Lex(rest, ByWords) == behind + ([Token(Code, ")")] + later) && forall gap :: gap in behind ==> IsGap(gap)
    ensures SkipSpaces(rest) != "" && SkipSpaces(rest)[0] == ')' <==> AllSpace(behind)
  {
    var close := [Token(Code, ")")] + later;
    if AllSpace(behind) {
      SpacesFound(rest, behind, close);
      LexSpells(SkipSpaces(rest), ByWords);
    } else if SkipSpaces(rest) != "" && SkipSpaces(rest)[0] == ')' {
      SolidByte(SkipSpaces(rest));
      var gap := SpacesLex(rest);
      hide Lex, SkipSpaces;
      SameGap(behind, close, gap, Lex(SkipSpaces(rest), ByWords), IsGap);
      assert false;
    }
  }

  // ---------------------------------------------------------------------------------------------
  // One move
  // ---------------------------------------------------------------------------------------------

  /** What the first move stands for is what the clause stands for there, and both go on at the same place. */
  predicate Agrees(t: string, table: string, alias: string)
    requires t != ""
  {
    var m := FirstMove(t, table, alias);
    ClauseReading(t, table, alias) == MoveSenses(m) + ClauseReading(t[|m.source|..], table, alias)
  }

  /** They stand for different things. */
  predicate Differs(t: string, table: string, alias: string)
    requires t != ""
  {
    var senses, reading := MoveSenses(FirstMove(t, table, alias)), ClauseReading(t, table, alias);
    senses != [] && reading != [] && senses[0] != reading[0]
  }

  function IfSolid(tok: Token): seq<Token> {
    if IsGap(tok) then [] else [tok]
  }

  lemma SolidCut(t: string, rest: string, toks: seq<Token>)
    requires Follows(rest, t) && Lex(t, ByWords) == toks + Lex(rest, ByWords)
    ensures SolidLex(t) == Solid(toks) + SolidLex(rest) && SolidLex(UpTo(t, rest)) == Solid(toks)
  {
    hide Lex;
    CutSplits(t, rest, toks, ByWords);
    WithoutAppend(toks, Lex(rest, ByWords), IsGap);
  }

  lemma SolidOne(tok: Token)
    ensures Solid([tok]) == IfSolid(tok)
  {
    WithoutFirst(tok, [], IsGap);
    assert [tok] + [] == [tok];
  }

  lemma SolidLead(t: string)
    requires t != ""
    ensures var tok := Lead(t, ByWords);
            SolidLex(t) == IfSolid(tok) + SolidLex(t[|tok.text|..]) && SolidLex(tok.text) == IfSolid(tok)
  {
    var tok := Lead(t, ByWords);
    hide Lead;
    SolidCut(t, t[|tok.text|..], [tok]);
    SolidOne(tok);
  }

  lemma ReadingPlain(tok: Token, later: seq<Token>, table: string, alias: string)
    requires !IsMark(tok) && (IsName(tok) ==> if Called(tok, "VALUES") then CallArgument(later) == 0 else !HasColumn(later))
    ensures Reading([tok] + later, table, alias) == [Plain(tok)] + Reading(later, table, alias)
  {
    hide Called, CallArgument;
    assert ([tok] + later)[1..] == later;
  }

  lemma CopiedOne(tok: Token)
    ensures Copied([tok]) == [Plain(tok)] && Copied([]) == []
  {
    assert [tok][1..] == [] && PlainAll([]) == [];
    assert [Plain(tok)] + [] == [Plain(tok)];
  }

  /** A quoted text, a comment or a byte that starts no name. */
  lemma LeadAgrees(t: string, table: string, alias: string)
    requires t != "" && var tok := Lead(t, ByWords); !IsName(tok) && !IsMark(tok) && FirstMove(t, table, alias) == Copy(tok.text)
    ensures Agrees(t, table, alias)
  {
    var tok := Lead(t, ByWords);
    SolidLead(t);
    CopiedOne(tok);
    hide Lead, FirstMove, SolidLex, IsGap, Copied;
    var later := SolidLex(t[|tok.text|..]);
    if IsGap(tok) {
      assert [] + later == later && [] + Reading(later, table, alias) == Reading(later, table, alias);
    } else {
      ReadingPlain(tok, later, table, alias);
    }
  }

  lemma LeadCopied(t: string, table: string, alias: string)
    requires t != "" && t[0] != '?' && (t[0] == '\'' || CommentLen(t, false) > 0 || NameToken(t).Failed?)
    ensures var tok := Lead(t, ByWords); !IsName(tok) && !IsMark(tok) && FirstMove(t, table, alias) == Copy(tok.text)
  {
    hide FirstMove, Lead, Reference;
    if t[0] == '\'' || CommentLen(t, false) > 0 {
      SpanCopied(t, table, alias);
    } else {
      ByteCopied(t, table, alias);
    }
  }

  lemma SpanCopied(t: string, table: string, alias: string)
    requires t != "" && (t[0] == '\'' || CommentLen(t, false) > 0)
    ensures var tok := Lead(t, ByWords); !IsName(tok) && !IsMark(tok) && FirstMove(t, table, alias) == Copy(tok.text)
  {
    QuoteNoComment(t);
    hide QuoteTail, CommentLen, Reference, NameToken;
  }

  lemma QuoteNoComment(t: string)
    requires t != ""
    ensures CommentLen(t, false) > 0 ==> !IsQuote(t[0])
  {
  }

  lemma ByteCopied(t: string, table: string, alias: string)
    requires t != "" && t[0] != '?' && t[0] != '\'' && CommentLen(t, false) == 0 && NameToken(t).Failed?
    ensures var tok := Lead(t, ByWords); !IsName(tok) && !IsMark(tok) && FirstMove(t, table, alias) == Copy(tok.text)
  {
    hide QuoteTail, PartTail, Reference, CommentLen;
    NoSpacesAhead(t);
  }

  lemma NoSpacesAhead(t: string)
    requires t != ""
    ensures !IsSpace(t[0]) ==> SkipSpaces(t) == t
  {
  }

  lemma MarkAgrees(t: string, table: string, alias: string)
    requires t != "" && t[0] == '?'
    ensures Agrees(t, table, alias)
  {
    SolidByte(t);
    assert FirstMove(t, table, alias) == Param(t[..1]);
    hide SolidLex, FirstMove;
    var tok, later := Token(Code, "?"), SolidLex(t[1..]);
    assert [t[0]] == "?" && ([tok] + later)[1..] == later;
  }

  /** A name copied alone. */
  lemma NameAlone(t: string, table: string, alias: string) returns (tok: Token)
    requires NameToken(t).Parsed?
    ensures var rest := NameToken(t).rest;
            && IsName(tok) && !IsMark(tok) && tok.text == NameToken(t).text
            && SolidLex(t) == [tok] + SolidLex(rest)
            && Follows(rest, t) && SolidLex(UpTo(t, rest)) == [tok]
  {
    tok := SolidName(t);
    var gap := SpacesLex(t);
    var rest := NameToken(t).rest;
    hide Lex, NameToken, SkipSpaces;
    assert gap + ([tok] + Lex(rest, ByWords)) == (gap + [tok]) + Lex(rest, ByWords);
    SolidCut(t, rest, gap + [tok]);
    WithoutAppend(gap, [tok], IsGap);
    WithoutAll(gap, IsGap);
    SolidOne(tok);
    assert [] + [tok] == [tok];
  }

  // ---------------------------------------------------------------------------------------------
  // A qualified name
  // ---------------------------------------------------------------------------------------------

  lemma FirstIsReference(t: string, table: string, alias: string)
    requires t != "" && t[0] != '\'' && CommentLen(t, false) == 0 && t[0] != '?' && NameToken(t).Parsed?
    ensures FirstMove(t, table, alias) == Reference(t, NameToken(t), table, alias)
  {
    hide NameToken, Reference, CommentLen;
  }

  /** A parsed name follows no quote, comment or mark. */
  lemma NameFirst(t: string)
    requires NameToken(t).Parsed?
    ensures t != "" && t[0] != '\'' && CommentLen(t, false) == 0 && t[0] != '?'
  {
    NoSpacesAhead(t);
    hide QuoteTail, PartTail;
  }

  lemma ReadingPair(tok: Token, column: Token, later: seq<Token>, table: string, alias: string)
    requires IsName(tok) && IsName(column) && !Called(tok, "VALUES")
    ensures Reading([tok] + ([Token(Code, ".")] + ([column] + later)), table, alias)
         == [OfColumn(tok, column, table, alias)] + Reading(later, table, alias)
  {
    hide Called, OfColumn;
    var toks := [tok] + ([Token(Code, ".")] + ([column] + later));
    assert toks[1..] == [Token(Code, ".")] + ([column] + later) && toks[3..] == later;
  }

  /** What the rewriter makes of a name and its column. */
  lemma QualifiedPair(t: string, called: string, rest: string, c: Parsed, table: string, alias: string)
    requires Follows(rest, t) && PlainPair(rest) && c == NameToken(SkipSpaces(rest)[1..])
    ensures c.Parsed? && Follows(c.rest, t)
    ensures var source := UpTo(t, c.rest);
            Qualified(t, called, rest, table, alias) ==
              if alias != "" && EqualFold(called, alias) then InsertedValue(source, UnquoteWord(c.text))
              else if EqualFold(called, UnquoteWord(table)) then TableColumn(source, UnquoteWord(c.text))
              else Copy(source)
  {
    var u := SkipSpaces(rest);
    hide NameToken, SkipSpaces, UnquoteWord, EqualFold, UpTo;
    FollowsOn(t, rest, u);
    FollowsOn(t, u, c.rest);
  }

  lemma PairMove(t: string, tok: Token, c: Parsed, table: string, alias: string)
    requires NameToken(t).Parsed? && tok.text == NameToken(t).text && !Called(tok, "VALUES")
    requires PlainPair(NameToken(t).rest) && c == NameToken(SkipSpaces(NameToken(t).rest)[1..])
    ensures t != "" && c.Parsed? && Follows(c.rest, t)
    ensures var m, source := FirstMove(t, table, alias), UpTo(t, c.rest);
            m == if alias != "" && Called(tok, alias) then InsertedValue(source, UnquoteWord(c.text))
                 else if Called(tok, UnquoteWord(table)) then TableColumn(source, UnquoteWord(c.text))
                 else Copy(source)
  {
    NameFirst(t);
    FirstIsReference(t, table, alias);
    hide NameToken, SkipSpaces, UnquoteWord, EqualFold, FirstMove, Qualified, ValuesReference, PlainPair, UpTo;
    QualifiedPair(t, UnquoteWord(tok.text), NameToken(t).rest, c, table, alias);
  }

  lemma SameHead(a: seq<Token>, b: seq<Token>, c: seq<Token>)
    requires a + c == b + c
    ensures a == b
  {
    assert |a| == |b|;
    assert a == (a + c)[..|a|] && b == (b + c)[..|b|];
  }

  /** The copied text of a qualified name holds its three tokens. */
  lemma PairText(t: string, rest: string, three: seq<Token>)
    requires Follows(rest, t) && Splits(t, rest, ByWords) && SolidLex(t) == three + SolidLex(rest)
    ensures SolidLex(UpTo(t, rest)) == three
  {
    hide Lex;
    var head := Lex(UpTo(t, rest), ByWords);
    SolidCut(t, rest, head);
    SameHead(Solid(head), three, SolidLex(rest));
  }

  lemma PairSplits(t: string)
    requires NameToken(t).Parsed? && PlainPair(NameToken(t).rest)
    ensures var c := NameToken(SkipSpaces(NameToken(t).rest)[1..]);
            Follows(c.rest, t) && Splits(t, c.rest, ByWords)
  {
    var rest := NameToken(t).rest;
    NameSplits(t);
    DotSplits(rest);
    NameSplits(SkipSpaces(rest)[1..]);
    hide NameToken, SkipSpaces, Splits;
    SplitsThen(t, rest, SkipSpaces(rest)[1..], ByWords);
    SplitsThen(t, SkipSpaces(rest)[1..], NameToken(SkipSpaces(rest)[1..]).rest, ByWords);
  }

  lemma NameSplits(t: string)
    requires NameToken(t).Parsed?
    ensures Splits(t, NameToken(t).rest, ByWords)
  {
    var gap := SpacesLex(t);
    var tok := SolidName(t);
    var rest := NameToken(t).rest;
    hide Lex, NameToken, SkipSpaces;
    assert gap + ([tok] + Lex(rest, ByWords)) == (gap + [tok]) + Lex(rest, ByWords);
    CutSplits(t, rest, gap + [tok], ByWords);
  }

  lemma DotSplits(t: string)
    requires SkipSpaces(t) != "" && SkipSpaces(t)[0] == '.'
    ensures Splits(t, SkipSpaces(t)[1..], ByWords)
  {
    var gap := SpacesLex(t);
    var u := SkipSpaces(t);
    SolidByte(u);
    hide Lex, SkipSpaces;
    var dot := [Token(Code, [u[0]])];
    assert gap + (dot + Lex(u[1..], ByWords)) == (gap + dot) + Lex(u[1..], ByWords);
    CutSplits(t, u[1..], gap + dot, ByWords);
  }

  lemma PairAgrees(t: string, table: string, alias: string)
    requires NameToken(t).Parsed? && !EqualFold(UnquoteWord(NameToken(t).text), "VALUES") && PlainPair(NameToken(t).rest)
    ensures t != "" && Agrees(t, table, alias)
  {
    var tok := SolidName(t);
    var rest := NameToken(t).rest;
    var column := SolidPair(rest);
    var c := NameToken(SkipSpaces(rest)[1..]);
    PairMove(t, tok, c, table, alias);
    PairSplits(t);
    hide NameToken, SkipSpaces, PlainPair, SolidLex, UnquoteWord, EqualFold, FirstMove, Splits;
    PairSenses(t, tok, column, c.rest, table, alias);
  }

  lemma PairSenses(t: string, tok: Token, column: Token, rest: string, table: string, alias: string)
    requires t != "" && Follows(rest, t) && Splits(t, rest, ByWords) && IsName(tok) && IsName(column) && !Called(tok, "VALUES")
    requires SolidLex(t) == [tok] + ([Token(Code, ".")] + ([column] + SolidLex(rest)))
    requires FirstMove(t, table, alias) ==
               (var source := UpTo(t, rest);
                if alias != "" && Called(tok, alias) then InsertedValue(source, UnquoteWord(column.text))
                else if Called(tok, UnquoteWord(table)) then TableColumn(source, UnquoteWord(column.text))
                else Copy(source))
    ensures Agrees(t, table, alias)
  {
    hide SolidLex, Called, FirstMove, Splits, UnquoteWord, Reading;
    ReadingPair(tok, column, SolidLex(rest), table, alias);
    var three := [tok, Token(Code, "."), column];
    assert SolidLex(t) == three + SolidLex(rest);
    PairText(t, rest, three);
    CopiedPair(tok, column);
    assert t[|UpTo(t, rest)|..] == rest;
  }

  lemma CopiedPair(tok: Token, column: Token)
    requires IsName(tok) && IsName(column)
    ensures Copied([tok, Token(Code, "."), column]) == [Dotted(tok, column)]
  {
    assert [tok, Token(Code, "."), column][1..] == [Token(Code, "."), column];
  }

  // ---------------------------------------------------------------------------------------------
  // The argument of VALUES, as text
  // ---------------------------------------------------------------------------------------------

  lemma {:induction false} TrimLeftBlank(p: string, x: string)
    requires BlankText(p) && x != "" && !IsBlank(x[0])
    ensures TrimLeft(p + x) == x
  {
    if p == "" {
      assert p + x == x;
    } else {
      assert p[0] in p && (p + x)[1..] == p[1..] + x;
      TrimLeftBlank(p[1..], x);
    }
  }

  lemma {:induction false} TrimRightKeeps(x: string, r: string)
    requires x != "" && !IsBlank(x[|x| - 1])
    ensures x <= TrimRight(x + r) && (BlankText(r) ==> TrimRight(x + r) == x)
    decreases |r|
  {
    var s := x + r;
    if r == "" {
      assert s == x;
    } else if IsBlank(r[|r| - 1]) {
      assert s[..|s| - 1] == x + r[..|r| - 1];
      TrimRightKeeps(x, r[..|r| - 1]);
    } else {
      assert TrimRight(s) == s && r[|r| - 1] in r;
    }
  }

  /** Trimming keeps what lies between two bytes that are not blank. */
  lemma TrimKeeps(p: string, q: string, r: string)
    requires BlankText(p) && q != "" && !IsBlank(q[0]) && !IsBlank(q[|q| - 1]) && q[|q| - 1] != ';'
    ensures var s := TrimSpace(p + (q + r));
            |TrimSemicolon(s)| >= |q| && TrimSemicolon(s)[0] == q[0] && (BlankText(r) ==> TrimSemicolon(s) == s == q)
  {
    TrimLeftBlank(p, q + r);
    TrimRightKeeps(q, r);
    hide TrimLeft, TrimRight, IsBlank, BlankText;
    SemicolonKeeps(q, TrimRight(q + r));
  }

  lemma SemicolonKeeps(q: string, s: string)
    requires q != "" && q[|q| - 1] != ';' && q <= s
    ensures |TrimSemicolon(s)| >= |q| && TrimSemicolon(s)[0] == q[0] && (s == q ==> TrimSemicolon(s) == s)
  {
    assert s[..|q|] == q;
  }

  /** A comment starts with a byte that is neither blank nor a quote. */
  predicate CommentsStart(toks: seq<Token>) {
    forall tok :: tok in toks && tok.kind == Comment ==> tok.text != "" && tok.text[0] in "-#/"
  }

  lemma {:induction false} LexComments(t: string)
    ensures CommentsStart(Lex(t, ByWords))
    decreases |t|
  {
    if t != "" {
      hide QuoteTail, PartTail, LineTail, BlockTail;
      LexComments(t[|Lead(t, ByWords).text|..]);
    }
  }

  /** Gaps as text: white space, and the comments from the first one on. */
  lemma {:induction false} GapHead(gap: seq<Token>) returns (p: string, x: string)
    requires (forall tok :: tok in gap ==> IsGap(tok)) && CommentsStart(gap)
    ensures Flatten(gap) == p + x && BlankText(p)
    ensures if AllSpace(gap) then x == "" else x != "" && x[0] in "-#/"
  {
    if gap == [] {
      return "", "";
    }
    assert gap[0] in gap;
    if gap[0].kind == Comment {
      return "", Flatten(gap);
    }
    p, x := GapHead(gap[1..]);
    p := gap[0].text + p;
  }

  /** Gaps as text: up to the first byte of the first comment. */
  lemma {:induction false} GapTail(gap: seq<Token>) returns (y: string, r: string)
    requires (forall tok :: tok in gap ==> IsGap(tok)) && CommentsStart(gap)
    ensures Flatten(gap) == y + r
    ensures if AllSpace(gap) then y == "" && BlankText(r) else y != "" && y[|y| - 1] in "-#/"
  {
    if gap == [] {
      return "", "";
    }
    assert gap[0] in gap;
    var text := gap[0].text;
    if gap[0].kind == Comment {
      y, r := text[..1], text[1..] + Flatten(gap[1..]);
      assert text == text[..1] + text[1..];
      return;
    }
    var y', r' := GapTail(gap[1..]);
    SpaceAhead(text, y', r');
    assert BlankText(text);
    hide BlankText, Flatten;
    if y' == "" {
      y, r := "", text + r';
    } else {
      y, r := text + y', r';
    }
  }

  lemma SpaceAhead(text: string, y: string, r: string)
    ensures text + (y + r) == (text + y) + r && (y == "" ==> text + (y + r) == text + r)
    ensures y != "" ==> text + y != "" && (text + y)[|text + y| - 1] == y[|y| - 1]
    ensures BlankText(text) && BlankText(r) ==> BlankText(text + r)
  {
  }

  predicate NameText(tok: Token) {
    && IsName(tok) && tok.text != "" && !IsBlank(tok.text[0])
    && !IsBlank(tok.text[|tok.text| - 1]) && tok.text[|tok.text| - 1] != ';'
    && (tok.kind == Quoted ==> |tok.text| >= 2 && tok.text[|tok.text| - 1] == tok.text[0] && IsQuote(tok.text[0]))
    && (tok.kind == Word ==> !IsQuote(tok.text[0]))
  }

  lemma {:induction false} TokenSits(a: seq<Token>, tok: Token, b: seq<Token>)
    requires Settled(a + ([tok] + b), ByWords)
    ensures Sits(tok, Flatten(b), ByWords)
  {
    SettledCut(a, [tok] + b, ByWords);
    assert ([tok] + b)[1..] == b;
  }

  lemma ShapeName(u: string, before: seq<Token>, tok: Token, behind: seq<Token>, later: seq<Token>)
    requires CallShape(u, before, tok, behind, later)
    ensures NameText(tok) && CommentsStart(before) && CommentsStart(behind)
  {
    ShapeTail(u, before, tok, behind, later);
    var close := Token(Code, ")");
    var tail := behind + ([close] + later);
    LexSpells(u[1..], ByWords);
    LexComments(u[1..]);
    TokenSits(before, tok, tail);
    FlattenAppend(behind, [close] + later);
    assert ([close] + later)[0] == close && Flatten([close] + later) != "";
    hide Flatten;
    NameEnds(tok, Flatten(tail));
    WordStarts(tok, Flatten(tail));
    hide Lex, Sits, IsGap, IsName;
    assert before + ([tok] + tail) == Lex(u[1..], ByWords);
    BothCommentsStart(before, tok, behind, [close] + later);
  }

  lemma BothCommentsStart(before: seq<Token>, tok: Token, behind: seq<Token>, rest: seq<Token>)
    requires CommentsStart(before + ([tok] + (behind + rest)))
    ensures CommentsStart(before) && CommentsStart(behind)
  {
    var all := before + ([tok] + (behind + rest));
    assert forall gap :: gap in before || gap in behind ==> gap in all;
  }

  lemma WordStarts(tok: Token, y: string)
    ensures IsName(tok) && Sits(tok, y, ByWords) ==> (tok.kind == Quoted ==> IsQuote(tok.text[0])) && (tok.kind == Word ==> !IsQuote(tok.text[0]))
  {
  }

  lemma UnquoteLength(value: string)
    ensures var v := TrimSemicolon(TrimSpace(value));
            |v| - 2 <= |UnquoteWord(value)| <= |v| && (v != "" && !IsQuote(v[0]) ==> UnquoteWord(value) == v)
            && (|v| >= 2 && IsQuote(v[0]) && v[|v| - 1] == v[0] ==> |UnquoteWord(value)| == |v| - 2)
  {
  }

  /** With nothing but white space around it the argument is the name. */
  lemma ArgumentIsName(p: string, tok: Token, r: string)
    requires NameText(tok) && BlankText(p) && BlankText(r)
    ensures TrimSpace(p + (tok.text + r)) == tok.text
  {
    hide TrimSpace;
    TrimKeeps(p, tok.text, r);
  }

  /** With a comment beside it the argument is not taken for the name. */
  lemma ArgumentIsNotName(p: string, x: string, tok: Token, y: string, r: string)
    requires NameText(tok) && BlankText(p) && x + y != ""
    requires x != "" ==> x[0] in "-#/"
    requires y != "" ==> y[|y| - 1] in "-#/"
    ensures UnquoteWord(TrimSpace((p + x) + tok.text + (y + r))) != UnquoteWord(tok.text)
  {
    var q := x + tok.text + y;
    Around(p, x, tok.text, y, r);
    NotBlankStart(x, y);
    hide IsBlank, BlankText, IsName, TrimSpace, TrimSemicolon, UnquoteWord;
    TrimKeeps(p, q, r);
    LongerIsNotName(p + (q + r), q, tok);
  }

  lemma LongerIsNotName(inside: string, q: string, tok: Token)
    requires NameText(tok) && |q| > |tok.text|
    requires var v := TrimSemicolon(TrimSpace(inside)); |v| >= |q| && v[0] == q[0]
    requires tok.kind == Word ==> !IsQuote(q[0])
    ensures UnquoteWord(TrimSpace(inside)) != UnquoteWord(tok.text)
  {
    hide IsBlank, TrimSpace, TrimSemicolon, UnquoteWord;
    TrimSpaceTwice(inside);
    UnquoteLength(TrimSpace(inside));
    UnquotedName(tok);
  }

  lemma NotBlankStart(x: string, y: string)
    ensures x != "" && x[0] in "-#/" ==> !IsBlank(x[0]) && !IsQuote(x[0])
    ensures y != "" && y[|y| - 1] in "-#/" ==> !IsBlank(y[|y| - 1]) && y[|y| - 1] != ';'
  {
  }

  lemma Around(p: string, x: string, name: string, y: string, r: string)
    requires name != ""
    ensures var q := x + name + y;
            && (p + x) + name + (y + r) == p + (q + r) && |q| == |x| + |name| + |y|
            && q[0] == (if x != "" then x[0] else name[0])
            && q[|q| - 1] == if y != "" then y[|y| - 1] else name[|name| - 1]
  {
  }

  lemma UnquotedName(tok: Token)
    requires NameText(tok)
    ensures |UnquoteWord(tok.text)| <= if tok.kind == Quoted then |tok.text| - 2 else |tok.text|
  {
    var name := tok.text;
    hide IsBlank, IsName, TrimSpace, TrimSemicolon, UnquoteWord;
    ArgumentIsName("", tok, "");
    assert "" + (name + "") == name;
    SemicolonKeeps(name, name);
    UnquoteLength(name);
  }

  // ---------------------------------------------------------------------------------------------
  // VALUES
  // ---------------------------------------------------------------------------------------------

  /** A plain call has one name in its parentheses. */
  lemma PlainCallArgument(t: string)
    requires PlainCall(t)
    ensures CallArgument(SolidLex(SkipSpaces(t))) == 3
  {
    var u := SkipSpaces(t);
    SolidByte(u);
    hide SolidLex, SkipSpaces, NameToken;
    var tok := SolidName(u[1..]);
    var rest := NameToken(u[1..]).rest;
    SolidSpaces(rest);
    SolidByte(SkipSpaces(rest));
    OneArgument(tok, SolidLex(SkipSpaces(rest)[1..]));
    assert [u[0]] == "(" && [SkipSpaces(rest)[0]] == ")";
  }

  lemma OneArgument(tok: Token, later: seq<Token>)
    requires IsName(tok)
    ensures CallArgument([Token(Code, "(")] + ([tok] + ([Token(Code, ")")] + later))) == 3
  {
    var toks := [Token(Code, "(")] + ([tok] + ([Token(Code, ")")] + later));
    assert toks[1..] == [tok] + ([Token(Code, ")")] + later);
    assert toks[1..][1] == Token(Code, ")") && toks[1..][0] == tok;
  }

  lemma ReadingCall(tok: Token, call: seq<Token>, table: string, alias: string)
    requires IsName(tok) && !IsMark(tok) && Called(tok, "VALUES") && CallArgument(call) > 0
    ensures Reading([tok] + call, table, alias)
         == [Inserted(UnquoteWord(call[CallArgument(call) - 2].text), CallArgument(call) > 3)]
            + Reading(call[CallArgument(call)..], table, alias)
  {
    hide Called, CallArgument, UnquoteWord, IsName, IsMark, Reading;
    var toks := [tok] + call;
    assert toks[0] == tok && toks[1..] == call && toks[1 + CallArgument(call)..] == call[CallArgument(call)..];
    assert FirstLen(toks) == 1 + CallArgument(call);
    assert FirstSense(toks, table, alias) == OfCall(tok, call);
    hide FirstLen, FirstSense;
    ReadingStep(toks, table, alias);
  }

  lemma ReadingStep(toks: seq<Token>, table: string, alias: string)
    requires toks != []
    ensures Reading(toks, table, alias) == [FirstSense(toks, table, alias)] + Reading(toks[FirstLen(toks)..], table, alias)
  {
  }

  /** What the rewriter makes of VALUES. */
  function ValuesSource(t: string, rest: string): Move
    requires Follows(rest, t)
  {
    var u := SkipSpaces(rest);
    ParenInside(u);
    var n := ParenLen(u);
    if n == 0 then Copy(UpTo(t, rest)) else InsertedValue(t[..|t| - |u| + n], UnquoteWord(TrimSpace(u[1..n - 1])))
  }

  lemma ValuesReferenceIs(t: string, rest: string)
    requires Follows(rest, t)
    ensures ValuesReference(t, rest) == ValuesSource(t, rest)
  {
    hide SkipSpaces, UnquoteWord, ParenLen, TrimSpace;
    FollowsOn(t, rest, SkipSpaces(rest));
  }

  lemma ValuesMove(t: string, rest: string, table: string, alias: string)
    requires NameToken(t).Parsed? && EqualFold(UnquoteWord(NameToken(t).text), "VALUES") && rest == NameToken(t).rest
    ensures t != "" && Follows(rest, t) && FirstMove(t, table, alias) == ValuesSource(t, rest)
  {
    NameFirst(t);
    FirstIsReference(t, table, alias);
    hide NameToken, SkipSpaces, UnquoteWord, EqualFold, FirstMove, Qualified, ParenLen, TrimSpace, ValuesReference, ValuesSource;
    ValuesReferenceIs(t, rest);
  }

  /** The column taken is the name in the parentheses exactly when there is no comment beside it. */
  lemma TakenColumn(u: string)
    requires u != "" && u[0] == '(' && SpaceLen(u) == 0 && CallArgument(SolidLex(u)) == 3
    ensures var n := ParenLen(u);
            && 2 <= n <= |u| && SolidLex(u[n..]) == SolidLex(u)[3..]
            && (UnquoteWord(TrimSpace(u[1..n - 1])) == UnquoteWord(SolidLex(u)[1].text) <==> PlainCall(u))
  {
    var before, tok, behind, later := FindCallShape(u);
    CallText(u, before, tok, behind, later);
    PlainCallShape(u, before, tok, behind, later);
    ShapeName(u, before, tok, behind, later);
    ShapeTail(u, before, tok, behind, later);
    hide Lex, ParenLen, CallShape, SolidLex, PlainCall, UnquoteWord, TrimSpace, IsGap, NameText, CallArgument, SpaceLen;
    TakenText(before, tok, behind);
  }

  lemma TakenText(before: seq<Token>, tok: Token, behind: seq<Token>)
    requires NameText(tok) && CommentsStart(before) && CommentsStart(behind)
    requires (forall gap :: gap in before ==> IsGap(gap)) && forall gap :: gap in behind ==> IsGap(gap)
    ensures UnquoteWord(TrimSpace(Flatten(before) + tok.text + Flatten(behind))) == UnquoteWord(tok.text) <==>
              AllSpace(before) && AllSpace(behind)
  {
    hide UnquoteWord, TrimSpace, IsGap, NameText, Flatten, IsSpaceToken, BlankText;
    var p, x := GapHead(before);
    var y, r := GapTail(behind);
    if AllSpace(before) && AllSpace(behind) {
      assert Flatten(before) + tok.text + Flatten(behind) == p + (tok.text + r);
      ArgumentIsName(p, tok, r);
    } else {
      ArgumentIsNotName(p, x, tok, y, r);
    }
  }

  /** A call that takes its one argument, and goes on behind it. */
  ghost predicate TakesName(rest: string) {
    var u := SkipSpaces(rest);
    var n := ParenLen(u);
    && |u| <= |rest| && u == rest[|rest| - |u|..] && 2 <= n <= |u|
    && SolidLex(rest) == SolidLex(u) && CallArgument(SolidLex(u)) == 3
    && SolidLex(u[n..]) == SolidLex(u)[3..]
    && UnquoteWord(TrimSpace(u[1..n - 1])) == UnquoteWord(SolidLex(u)[1].text)
  }

  lemma PlainCallTakesName(rest: string)
    requires PlainCall(rest)
    ensures TakesName(rest)
  {
    hide SkipSpaces, PlainCall, SolidLex, UnquoteWord, ParenLen, CallArgument, TrimSpace, SpaceLen;
    PlainCallArgument(rest);
    SkippedOnce(rest);
    SolidSpaces(rest);
    PlainCallOpens(rest);
    TakenColumn(SkipSpaces(rest));
  }

  lemma ValuesAgrees(t: string, table: string, alias: string)
    requires NameToken(t).Parsed? && EqualFold(UnquoteWord(NameToken(t).text), "VALUES") && PlainCall(NameToken(t).rest)
    ensures t != "" && Agrees(t, table, alias)
  {
    hide NameToken, SkipSpaces, PlainCall, SolidLex, UnquoteWord, EqualFold, FirstMove, ValuesSource, UpTo, TakesName, Agrees;
    var rest := NameToken(t).rest;
    var tok := NameAlone(t, table, alias);
    ValuesMove(t, rest, table, alias);
    PlainCallTakesName(rest);
    ValuesSenses(t, tok, rest, table, alias);
  }

  lemma PlainCallOpens(t: string)
    requires PlainCall(t)
    ensures SkipSpaces(t) != "" && SkipSpaces(t)[0] == '('
  {
  }

  lemma ValuesSenses(t: string, tok: Token, rest: string, table: string, alias: string)
    requires t != "" && Follows(rest, t) && FirstMove(t, table, alias) == ValuesSource(t, rest)
    requires IsName(tok) && !IsMark(tok) && Called(tok, "VALUES")
    requires TakesName(rest) && SolidLex(t) == [tok] + SolidLex(rest)
    ensures Agrees(t, table, alias)
  {
    var u := SkipSpaces(rest);
    hide SkipSpaces, SolidLex, UnquoteWord, FirstMove, ParenLen, CallArgument, TrimSpace, Called, IsName, IsMark, Reading;
    ReadingCall(tok, SolidLex(u), table, alias);
    SourceRest(t, u, ParenLen(u));
  }

  lemma SourceRest(t: string, u: string, n: nat)
    requires n <= |u| <= |t| && u == t[|t| - |u|..]
    ensures t[|t[..|t| - |u| + n]|..] == u[n..]
  {
  }

  lemma SkippedOnce(t: string)
    ensures SpaceLen(SkipSpaces(t)) == 0 && SkipSpaces(SkipSpaces(t)) == SkipSpaces(t)
    ensures PlainCall(SkipSpaces(t)) == PlainCall(t)
    ensures |SkipSpaces(t)| <= |t| && SkipSpaces(t) == t[|t| - |SkipSpaces(t)|..]
  {
    NoSpaces(SkipSpaces(t));
    hide NameToken;
  }

  // ---------------------------------------------------------------------------------------------
  // Where the two readings part
  // ---------------------------------------------------------------------------------------------

  lemma ReadingFirst(tok: Token, later: seq<Token>, table: string, alias: string)
    ensures Reading([tok] + later, table, alias) != []
    ensures Reading([tok] + later, table, alias)[0] == FirstSense([tok] + later, table, alias)
  {
    hide FirstSense, FirstLen;
  }

  lemma CopiedNameDiffers(t: string, tok: Token, source: string, later: seq<Token>, table: string, alias: string)
    requires t != "" && FirstMove(t, table, alias) == Copy(source) && SolidLex(source) == [tok]
    requires SolidLex(t) == [tok] + later && FirstSense([tok] + later, table, alias) != Plain(tok)
    ensures Differs(t, table, alias)
  {
    hide FirstMove, SolidLex, FirstSense, Reading, Copied;
    ReadingFirst(tok, later, table, alias);
    CopiedOne(tok);
  }

  lemma CopiedNameAgrees(t: string, tok: Token, rest: string, table: string, alias: string)
    requires t != "" && Follows(rest, t) && FirstMove(t, table, alias) == Copy(UpTo(t, rest)) && SolidLex(UpTo(t, rest)) == [tok]
    requires SolidLex(t) == [tok] + SolidLex(rest) && IsName(tok) && !IsMark(tok)
    requires if Called(tok, "VALUES") then CallArgument(SolidLex(rest)) == 0 else !HasColumn(SolidLex(rest))
    ensures Agrees(t, table, alias)
  {
    hide FirstMove, SolidLex, Called, CallArgument, HasColumn, Copied, Reading;
    ReadingPlain(tok, SolidLex(rest), table, alias);
    CopiedOne(tok);
    assert t[|UpTo(t, rest)|..] == rest;
  }

  /** A name that is no VALUES and whose column, if any, is not in sight of the rewriter. */
  lemma NoPairMove(t: string, table: string, alias: string)
    requires NameToken(t).Parsed? && !EqualFold(UnquoteWord(NameToken(t).text), "VALUES") && !PlainPair(NameToken(t).rest)
    ensures var rest := NameToken(t).rest;
            t != "" && Follows(rest, t) && FirstMove(t, table, alias) == Copy(UpTo(t, rest))
  {
    hide SkipSpaces, UnquoteWord, EqualFold, FirstMove, ValuesReference, UpTo, NameToken;
    NameFirst(t);
    FirstIsReference(t, table, alias);
  }

  lemma NameStep(t: string, table: string, alias: string)
    requires NameToken(t).Parsed? && !EqualFold(UnquoteWord(NameToken(t).text), "VALUES")
    ensures t != "" && if ClearAt(t) then Agrees(t, table, alias) else Differs(t, table, alias)
  {
    hide NameToken, SkipSpaces, PlainPair, SolidLex, UnquoteWord, EqualFold, FirstMove, UpTo, Agrees, Differs, HasColumn;
    var rest := NameToken(t).rest;
    if PlainPair(rest) {
      PairAgrees(t, table, alias);
    } else {
      var tok := NameAlone(t, table, alias);
      NoPairMove(t, table, alias);
      if HasColumn(SolidLex(rest)) {
        ColumnSense(tok, SolidLex(rest), table, alias);
        CopiedNameDiffers(t, tok, UpTo(t, rest), SolidLex(rest), table, alias);
      } else {
        CopiedNameAgrees(t, tok, rest, table, alias);
      }
    }
  }

  lemma ColumnSense(tok: Token, later: seq<Token>, table: string, alias: string)
    requires IsName(tok) && !IsMark(tok) && !Called(tok, "VALUES") && HasColumn(later)
    ensures !FirstSense([tok] + later, table, alias).Plain?
  {
    hide Called;
    assert ([tok] + later)[1..] == later;
  }

  lemma CallSense(tok: Token, later: seq<Token>, table: string, alias: string)
    requires IsName(tok) && !IsMark(tok) && Called(tok, "VALUES")
    ensures FirstSense([tok] + later, table, alias) == OfCall(tok, later)
  {
    hide Called, OfCall;
    assert ([tok] + later)[1..] == later;
  }

  lemma ValuesStep(t: string, table: string, alias: string)
    requires NameToken(t).Parsed? && EqualFold(UnquoteWord(NameToken(t).text), "VALUES")
    ensures t != "" && if ClearAt(t) then Agrees(t, table, alias) else Differs(t, table, alias)
  {
    hide NameToken, SkipSpaces, PlainCall, SolidLex, UnquoteWord, EqualFold, FirstMove, UpTo, Agrees, Differs, CallArgument, ParenLen;
    var rest := NameToken(t).rest;
    if PlainCall(rest) {
      ValuesAgrees(t, table, alias);
    } else {
      hide ValuesSource;
      var tok := NameAlone(t, table, alias);
      ValuesMove(t, rest, table, alias);
      CallSense(tok, SolidLex(rest), table, alias);
      NoPlainCall(t, tok, rest, table, alias);
    }
  }

  lemma NoPlainCall(t: string, tok: Token, rest: string, table: string, alias: string)
    requires t != "" && Follows(rest, t) && FirstMove(t, table, alias) == ValuesSource(t, rest)
    requires IsName(tok) && !IsMark(tok) && Called(tok, "VALUES") && SolidLex(UpTo(t, rest)) == [tok]
    requires SolidLex(t) == [tok] + SolidLex(rest) && !PlainCall(rest)
    requires FirstSense([tok] + SolidLex(rest), table, alias) == OfCall(tok, SolidLex(rest))
    ensures if LooksLikeCall(rest) then Differs(t, table, alias) else Agrees(t, table, alias)
  {
    hide SkipSpaces, PlainCall, SolidLex, UnquoteWord, FirstMove, UpTo, Agrees, CallArgument, ParenLen, Called, TrimSpace, FirstSense;
    if ParenLen(SkipSpaces(rest)) == 0 {
      if CallArgument(SolidLex(rest)) > 0 {
        hide Differs;
        CopiedNameDiffers(t, tok, UpTo(t, rest), SolidLex(rest), table, alias);
      } else {
        CopiedNameAgrees(t, tok, rest, table, alias);
      }
    } else {
      ReadingFirst(tok, SolidLex(rest), table, alias);
      OtherColumn(tok, rest);
      hide OfCall, Reading;
    }
  }

  /** A call that is not written plainly is not read as the name the rewriter takes. */
  lemma OtherColumn(tok: Token, rest: string)
    requires !PlainCall(rest) && ParenLen(SkipSpaces(rest)) > 0
    ensures var u := SkipSpaces(rest);
            var n := ParenLen(u);
            2 <= n <= |u| && OfCall(tok, SolidLex(rest)) != Inserted(UnquoteWord(TrimSpace(u[1..n - 1])), false)
  {
    hide SkipSpaces, PlainCall, SolidLex, UnquoteWord, CallArgument, ParenLen, TrimSpace, SpaceLen;
    var u := SkipSpaces(rest);
    ParenInside(u);
    SkippedOnce(rest);
    SolidSpaces(rest);
    if CallArgument(SolidLex(u)) == 3 {
      ParenStarts(u);
      TakenColumn(u);
    }
  }

  lemma ParenStarts(u: string)
    requires ParenLen(u) > 0
    ensures u != "" && u[0] == '('
  {
  }

  /** At every move: the two agree and go on at the same place, or they part. */
  lemma Step(t: string, table: string, alias: string)
    requires t != ""
    ensures if ClearAt(t) then Agrees(t, table, alias) else Differs(t, table, alias)
  {
    hide FirstMove, Agrees, Differs, SolidLex, SkipSpaces, UnquoteWord, EqualFold, PlainCall, PlainPair, LooksLikeCall, CommentLen, NameToken, Lead;
    if NameToken(t).Parsed? {
      if EqualFold(UnquoteWord(NameToken(t).text), "VALUES") {
        ValuesStep(t, table, alias);
      } else {
        NameStep(t, table, alias);
      }
    } else if t[0] == '?' {
      MarkAgrees(t, table, alias);
    } else {
      LeadCopied(t, table, alias);
      LeadAgrees(t, table, alias);
    }
  }

  lemma SameSenses(a: seq<Sense>, x: seq<Sense>, y: seq<Sense>)
    ensures a + x == a + y <==> x == y
  {
    assert (a + x)[|a|..] == x && (a + y)[|a|..] == y;
  }

  /**
   * The rewriter reads the clause as MySQL does exactly when it is clear: wherever a name has a column,
   * or VALUES an argument, no comment stands in between, and the argument is one name.
   */
  lemma {:induction false} ClauseReadAsMeant(t: string, table: string, alias: string)
    ensures MovesReading(Moves(t, table, alias)) == ClauseReading(t, table, alias) <==> Clear(t, table, alias)
    decreases |t|
  {
    hide FirstMove, SolidLex, ClearAt, MoveSenses;
    if t == "" {
      NothingRead(table, alias);
    } else {
      var m := FirstMove(t, table, alias);
      var rest := t[|m.source|..];
      Step(t, table, alias);
      ClauseReadAsMeant(rest, table, alias);
      assert Moves(t, table, alias)[1..] == Moves(rest, table, alias);
      SameSenses(MoveSenses(m), MovesReading(Moves(rest, table, alias)), ClauseReading(rest, table, alias));
    }
  }

  lemma NothingRead(table: string, alias: string)
    ensures SolidLex("") == [] && ClauseReading("", table, alias) == []
  {
  }

  // ---------------------------------------------------------------------------------------------
  // What the clause means
  // ---------------------------------------------------------------------------------------------

  /** The bytes of solid tokens, as the statement is read. */
  function Bytes(toks: seq<Token>): seq<Symbol> {
    Symbols(Spread(toks))
  }

  /** A reading with the values put in: the k-th `?` is the k-th update argument. */
  function Sensed(senses: seq<Sense>, values: Row, updateArgs: seq<Value>, used: nat): Option<seq<Symbol>> {
    if senses == [] then (if used == |updateArgs| then Some([]) else None)
    else
      match senses[0]
      case Plain(tok) => Then(Bytes([tok]), Sensed(senses[1..], values, updateArgs, used))
      case Dotted(owner, name) => Then(Bytes([owner, Token(Code, "."), name]), Sensed(senses[1..], values, updateArgs, used))
      case Field(column) =>
        Then([Symbol.Text(Token(Quoted, QuoteIdent(column)))], Sensed(senses[1..], values, updateArgs, used))
      case Argument =>
        if used < |updateArgs| then Then([Bound(updateArgs[used])], Sensed(senses[1..], values, updateArgs, used + 1)) else None
      case Inserted(column, _) =>
        if Lower(column) in values then Then([Bound(values[Lower(column)])], Sensed(senses[1..], values, updateArgs, used)) else None
  }

  /** The clause as MySQL means it: every VALUES(c) and alias.c the value to be inserted. */
  function ClauseMeaning(t: string, table: string, alias: string, values: Row, updateArgs: seq<Value>): Option<seq<Symbol>> {
    Sensed(ClauseReading(t, table, alias), values, updateArgs, 0)
  }

  /** White space and comments do not matter. */
  function SolidSymbols(symbols: seq<Symbol>): seq<Symbol> {
    if symbols == [] then []
    else (if symbols[0].Text? && IsGap(symbols[0].tok) then [] else [symbols[0]]) + SolidSymbols(symbols[1..])
  }

  lemma {:induction false} SolidAppend(a: seq<Symbol>, b: seq<Symbol>)
    ensures SolidSymbols(a + b) == SolidSymbols(a) + SolidSymbols(b)
  {
    if a == [] {
      assert a + b == b;
    } else {
      SolidAppend(a[1..], b);
      SymbolFirst(a[0], a[1..]);
      SymbolFirst(a[0], a[1..] + b);
      hide SolidSymbols;
      assert a == [a[0]] + a[1..] && a + b == [a[0]] + (a[1..] + b);
    }
  }

  lemma SymbolFirst(x: Symbol, later: seq<Symbol>)
    ensures SolidSymbols([x] + later) == (if x.Text? && IsGap(x.tok) then [] else [x]) + SolidSymbols(later)
  {
    assert ([x] + later)[1..] == later;
  }

  lemma {:induction false} SolidOfSymbols(toks: seq<Token>)
    ensures SolidSymbols(Symbols(toks)) == Symbols(Solid(toks))
  {
    if toks != [] {
      SolidOfSymbols(toks[1..]);
      assert Symbols(toks)[1..] == Symbols(toks[1..]);
      assert Symbols([toks[0]] + Solid(toks[1..])) == [Symbol.Text(toks[0])] + Symbols(Solid(toks[1..]));
    }
  }

  /** Gaps are left out before or after words are spread into bytes. */
  lemma {:induction false} SolidSpread(toks: seq<Token>)
    requires WordsAreParts(toks)
    ensures Solid(Spread(toks)) == Spread(Solid(toks))
  {
    if toks != [] {
      var tok, later := toks[0], toks[1..];
      assert toks == [tok] + later;
      SolidSpread(later);
      SolidCons(tok, later);
      FewerParts(toks);
      SolidHead(tok);
      SolidOfBoth(Spread([tok]), Spread(later));
      hide Spread, Solid, IfSolid;
      SpreadAppend([tok], later);
      SpreadAppend(IfSolid(tok), Solid(later));
    }
  }

  lemma SolidOfBoth(a: seq<Token>, b: seq<Token>)
    ensures Solid(a + b) == Solid(a) + Solid(b)
  {
    WithoutAppend(a, b, IsGap);
  }

  lemma SolidHead(tok: Token)
    requires tok.kind == Word ==> forall c :: c in tok.text ==> IsIdentifierPart(c)
    ensures Solid(Spread([tok])) == Spread(IfSolid(tok))
  {
    SpreadCons(tok, []);
    SpreadNothing();
    SolidOne(tok);
    if tok.kind == Word {
      var bytes := CodeBytes(tok.text);
      WordBytesPlain(tok.text);
      assert bytes + [] == bytes;
      hide CodeBytes;
      NothingDropped(bytes);
    }
  }

  lemma {:induction false} NothingDropped(toks: seq<Token>)
    requires forall tok :: tok in toks ==> !IsGap(tok)
    ensures Solid(toks) == toks
  {
    if toks != [] {
      NothingDropped(toks[1..]);
    }
  }

  lemma CopySymbols(source: string)
    ensures SolidSymbols(Symbols(Lex(source, ByBytes))) == Bytes(SolidLex(source))
  {
    WalksInStep(source);
    LexWordsAreParts(source);
    SolidOfSymbols(Lex(source, ByBytes));
    SolidSpread(Lex(source, ByWords));
  }

  lemma {:induction false} SensedPlain(toks: seq<Token>, later: seq<Sense>, values: Row, updateArgs: seq<Value>, used: nat)
    ensures Sensed(PlainAll(toks) + later, values, updateArgs, used) == Then(Bytes(toks), Sensed(later, values, updateArgs, used))
  {
    hide Spread, Symbols;
    if toks == [] {
      assert PlainAll(toks) + later == later;
      SpreadNothing();
      ThenNothing(Sensed(later, values, updateArgs, used));
      NoSymbols();
    } else {
      SensedPlain(toks[1..], later, values, updateArgs, used);
      SensedFirst(toks[0], PlainAll(toks[1..]) + later, values, updateArgs, used);
      hide Sensed, Bytes;
      assert PlainAll(toks) + later == [Plain(toks[0])] + (PlainAll(toks[1..]) + later);
      hide PlainAll;
      assert toks == [toks[0]] + toks[1..];
      BytesAppend([toks[0]], toks[1..]);
      ThenTwice(Bytes([toks[0]]), Bytes(toks[1..]), Sensed(later, values, updateArgs, used));
    }
  }

  lemma SensedFirst(tok: Token, later: seq<Sense>, values: Row, updateArgs: seq<Value>, used: nat)
    ensures Sensed([Plain(tok)] + later, values, updateArgs, used) == Then(Bytes([tok]), Sensed(later, values, updateArgs, used))
  {
    assert ([Plain(tok)] + later)[1..] == later;
  }

  lemma NoSymbols()
    ensures Symbols([]) == []
  {
  }

  lemma BytesAppend(a: seq<Token>, b: seq<Token>)
    ensures Bytes(a + b) == Bytes(a) + Bytes(b)
  {
    SpreadAppend(a, b);
    var x, y := Spread(a), Spread(b);
    assert Symbols(x + y) == Symbols(x) + Symbols(y);
  }

  lemma ThenNothing(tail: Option<seq<Symbol>>)
    ensures Then([], tail) == tail
  {
    if tail.Some? {
      assert [] + tail.value == tail.value;
    }
  }

  lemma ThenTwice(a: seq<Symbol>, b: seq<Symbol>, tail: Option<seq<Symbol>>)
    ensures Then(a, Then(b, tail)) == Then(a + b, tail)
  {
    if tail.Some? {
      assert a + (b + tail.value) == (a + b) + tail.value;
    }
  }

  lemma SensedCopied(toks: seq<Token>, later: seq<Sense>, values: Row, updateArgs: seq<Value>, used: nat)
    ensures Sensed(Copied(toks) + later, values, updateArgs, used) == Then(Bytes(toks), Sensed(later, values, updateArgs, used))
  {
    if |toks| == 3 && IsName(toks[0]) && HasColumn(toks[1..]) {
      assert toks[1].text == "." && toks == [toks[0], Token(Code, "."), toks[2]];
      assert ([Dotted(toks[0], toks[2])] + later)[1..] == later;
      hide Bytes;
    } else {
      hide Bytes;
      SensedPlain(toks, later, values, updateArgs, used);
    }
  }

  function SolidMeaning(meaning: Option<seq<Symbol>>): Option<seq<Symbol>> {
    if meaning.Some? then Some(SolidSymbols(meaning.value)) else None
  }

  lemma SolidThen(head: seq<Symbol>, tail: Option<seq<Symbol>>)
    ensures SolidMeaning(Then(head, tail)) == Then(SolidSymbols(head), SolidMeaning(tail))
  {
    if tail.Some? {
      SolidAppend(head, tail.value);
    }
  }

  lemma SolidSymbol(symbol: Symbol)
    requires symbol.Text? ==> !IsGap(symbol.tok)
    ensures SolidSymbols([symbol]) == [symbol]
  {
    assert [symbol][1..] == [];
  }

  /** But for white space and comments, the moves mean what their reading says. */
  lemma {:induction false} MovesMean(moves: seq<Move>, values: Row, updateArgs: seq<Value>, used: nat)
    ensures SolidMeaning(Meaning(moves, values, updateArgs, used)) == Sensed(MovesReading(moves), values, updateArgs, used)
  {
    hide SolidLex, Copied, Bytes, QuoteIdent, SolidSymbols, Lower, Symbols, Lex;
    if moves == [] {
      assert SolidSymbols([]) == [] by {
        NoSolidSymbols();
      }
    } else {
      var later := MovesReading(moves[1..]);
      match moves[0]
      case Copy(source) =>
        MovesMean(moves[1..], values, updateArgs, used);
        CopySymbols(source);
        SolidThen(Symbols(Lex(source, ByBytes)), Meaning(moves[1..], values, updateArgs, used));
        SensedCopied(SolidLex(source), later, values, updateArgs, used);
      case TableColumn(_, column) =>
        MovesMean(moves[1..], values, updateArgs, used);
        var symbol := Symbol.Text(Token(Quoted, QuoteIdent(column)));
        SolidSymbol(symbol);
        SolidThen([symbol], Meaning(moves[1..], values, updateArgs, used));
        assert ([Field(column)] + later)[1..] == later;
      case Param(_) =>
        assert ([Argument] + later)[1..] == later;
        if used < |updateArgs| {
          MovesMean(moves[1..], values, updateArgs, used + 1);
          SolidSymbol(Bound(updateArgs[used]));
          SolidThen([Bound(updateArgs[used])], Meaning(moves[1..], values, updateArgs, used + 1));
        }
      case InsertedValue(_, column) =>
        assert ([Inserted(column, false)] + later)[1..] == later;
        if Lower(column) in values {
          MovesMean(moves[1..], values, updateArgs, used);
          SolidSymbol(Bound(values[Lower(column)]));
          SolidThen([Bound(values[Lower(column)])], Meaning(moves[1..], values, updateArgs, used));
        }
    }
  }

  lemma NoSolidSymbols()
    ensures SolidSymbols([]) == []
  {
  }

  /** On a clear clause the moves mean what the clause means, argument for argument. */
  lemma ClearClauseMeans(t: string, table: string, alias: string, values: Row, updateArgs: seq<Value>)
    requires Clear(t, table, alias)
    ensures SolidMeaning(Meaning(Moves(t, table, alias), values, updateArgs, 0)) == ClauseMeaning(t, table, alias, values, updateArgs)
  {
    hide Moves, Clear, ClauseReading, MovesReading, Sensed, Meaning;
    ClauseReadAsMeant(t, table, alias);
    MovesMean(Moves(t, table, alias), values, updateArgs, 0);
  }

  // ---------------------------------------------------------------------------------------------
  // Clauses that are not read as meant
  // ---------------------------------------------------------------------------------------------

  lemma WordUnquoted(word: string)
    requires IsIdentifier(word)
    ensures UnquoteWord(word) == word
  {
    assert word[|word| - 1] in word;
    assert "" + (word + "") == word;
    TrimKeeps("", word, "");
    hide TrimSpace, TrimSemicolon;
    UnquoteLength(word);
  }

  const COMMENT := Token(Comment, "/**/")

  lemma PutComment(later: seq<Token>)
    requires Settled(later, ByWords)
    ensures Settled([COMMENT] + later, ByWords) && Flatten([COMMENT] + later) == "/**/" + Flatten(later)
  {
    var t := "/**/" + Flatten(later);
    assert t[2..] == "*/" + Flatten(later);
    assert BlockTail(t[2..]) == 2 && t[..4] == "/**/";
    assert Sits(COMMENT, Flatten(later), ByWords);
    SettledCons(COMMENT, later);
  }

  lemma SolidCons(tok: Token, later: seq<Token>)
    ensures Solid([tok] + later) == IfSolid(tok) + Solid(later)
  {
    WithoutFirst(tok, later, IsGap);
    assert [] + Solid(later) == Solid(later);
  }

  /** `(b)` with its tokens. */
  lemma SmallCall() returns (toks: seq<Token>)
    ensures toks == [Token(Code, "("), Token(Word, "b"), Token(Code, ")")]
    ensures Settled(toks, ByWords) && Flatten(toks) == "(" + ("b" + ")") && Solid(toks) == toks
  {
    var t0 := [Token(Code, ")")] + [];
    PutCode(')', []);
    var t1 := [Token(Word, "b")] + t0;
    PutWord("b", t0);
    PutCode('(', t1);
    toks := [Token(Code, "(")] + t1;
    NothingDropped(toks);
  }

  lemma ValuesName(tok: Token)
    requires tok == Token(Word, "VALUES")
    ensures Called(tok, "VALUES") && IsName(tok) && !IsMark(tok)
  {
    WordUnquoted("VALUES");
  }

  const VALUES_COMMENT := "VALUES" + ("/**/" + ("(" + ("b" + ")")))

  lemma ValuesCommentRead(table: string, alias: string)
    ensures ClauseReading(VALUES_COMMENT, table, alias) == [Inserted("b", false)]
  {
    hide Called, Settled, Flatten, UnquoteWord, IsGap;
    var call := SmallCall();
    PutComment(call);
    PutWord("VALUES", [COMMENT] + call);
    var tok := Token(Word, "VALUES");
    var toks := [tok] + ([COMMENT] + call);
    Relex(toks, ByWords);
    SolidCons(tok, [COMMENT] + call);
    SolidCons(COMMENT, call);
    GapKinds();
    assert SolidLex(VALUES_COMMENT) == [tok] + call;
    hide VALUES_COMMENT, SolidLex, IsMark, IsName;
    ValuesName(tok);
    SmallCallRead(tok, call, table, alias);
  }

  lemma SmallCallRead(tok: Token, call: seq<Token>, table: string, alias: string)
    requires Called(tok, "VALUES") && IsName(tok) && !IsMark(tok)
    requires call == [Token(Code, "("), Token(Word, "b"), Token(Code, ")")]
    ensures Reading([tok] + call, table, alias) == [Inserted("b", false)]
  {
    hide Called, IsMark, UnquoteWord, FirstSense, FirstLen;
    OneArgument(call[1], []);
    assert call == [Token(Code, "(")] + ([call[1]] + ([Token(Code, ")")] + []));
    ReadingCall(tok, call, table, alias);
    WordUnquoted("b");
    assert call[3..] == [];
  }

  lemma GapKinds()
    ensures IsGap(COMMENT) && !IsGap(Token(Word, "VALUES")) && !IsGap(Token(Word, "new"))
  {
  }

  /**
   * VALUES, a comment and `(b)`: MySQL inserts the value of b, the rewriter copies VALUES as text.
   */
  lemma CommentHidesValues(table: string, alias: string)
    ensures ClauseReading(VALUES_COMMENT, table, alias) == [Inserted("b", false)]
    ensures VALUES_COMMENT != "" && FirstMove(VALUES_COMMENT, table, alias) == Copy("VALUES")
    ensures !Clear(VALUES_COMMENT, table, alias)
  {
    hide ClauseReading, NameToken, FirstMove, UnquoteWord, EqualFold, SolidLex, ValuesSource, VALUES_COMMENT;
    ValuesCommentRead(table, alias);
    ValuesCommentName();
    var rest := NameToken(VALUES_COMMENT).rest;
    var tok := NameAlone(VALUES_COMMENT, table, alias);
    ValuesMove(VALUES_COMMENT, rest, table, alias);
    ValuesCommentMove();
    CopyFirst(VALUES_COMMENT, "VALUES", tok, "b", table, alias);
  }

  lemma ValuesCommentName()
    ensures NameToken(VALUES_COMMENT) == Parsed("VALUES", "/**/" + ("(" + ("b" + ")")))
    ensures EqualFold(UnquoteWord("VALUES"), "VALUES")
  {
    hide NameToken, UnquoteWord;
    NameAhead("VALUES", "/**/" + ("(" + ("b" + ")")));
    WordUnquoted("VALUES");
  }

  lemma ValuesCommentMove()
    ensures var rest := "/**/" + ("(" + ("b" + ")"));
            Follows(rest, VALUES_COMMENT) && ValuesSource(VALUES_COMMENT, rest) == Copy("VALUES") &&
            UpTo(VALUES_COMMENT, rest) == "VALUES"
  {
    var rest := "/**/" + ("(" + ("b" + ")"));
    assert SkipSpaces(rest) == rest && ParenLen(rest) == 0;
    hide SkipSpaces, ParenLen, UnquoteWord, TrimSpace;
    assert VALUES_COMMENT == "VALUES" + rest;
  }

  /** A clause whose reading starts with an inserted value, but whose first move copies a name, is not clear. */
  lemma CopyFirst(t: string, source: string, tok: Token, column: string, table: string, alias: string)
    requires t != "" && FirstMove(t, table, alias) == Copy(source) && SolidLex(source) == [tok]
    requires ClauseReading(t, table, alias) == [Inserted(column, false)]
    ensures !Clear(t, table, alias)
  {
    hide ClauseReading, FirstMove, SolidLex, Clear, Copied;
    ClauseReadAsMeant(t, table, alias);
    CopiedOne(tok);
    var later := MovesReading(Moves(t[|source|..], table, alias));
    assert MovesReading(Moves(t, table, alias)) == [Plain(tok)] + later && ([Plain(tok)] + later)[0] == Plain(tok);
  }

  const ALIAS_COMMENT := "new" + ("/**/" + ("." + "b"))

  lemma AliasCommentRead(table: string)
    ensures ClauseReading(ALIAS_COMMENT, table, "new") == [Inserted("b", false)]
  {
    hide Called, Settled, Flatten, UnquoteWord, IsGap;
    var b, tok := Token(Word, "b"), Token(Word, "new");
    PutWord("b", []);
    PutCode('.', [b] + []);
    var pair := [Token(Code, ".")] + ([b] + []);
    PutComment(pair);
    PutWord("new", [COMMENT] + pair);
    Relex([tok] + ([COMMENT] + pair), ByWords);
    SolidCons(tok, [COMMENT] + pair);
    SolidCons(COMMENT, pair);
    GapKinds();
    PairSolid(pair);
    FlattenNone();
    assert "b" + "" == "b" && SolidLex(ALIAS_COMMENT) == [tok] + pair;
    NewName();
    ReadingPair(tok, b, [], table, "new");
    WordUnquoted("b");
  }

  lemma PairSolid(pair: seq<Token>)
    requires pair == [Token(Code, "."), Token(Word, "b")]
    ensures Solid(pair) == pair
  {
    NothingDropped(pair);
  }

  lemma NewName()
    ensures var tok := Token(Word, "new"); Called(tok, "new") && !Called(tok, "VALUES")
    ensures !EqualFold(UnquoteWord("new"), "VALUES")
  {
    WordUnquoted("new");
  }

  /** The same between an alias and its dot. */
  lemma CommentHidesAlias(table: string)
    ensures ClauseReading(ALIAS_COMMENT, table, "new") == [Inserted("b", false)]
    ensures ALIAS_COMMENT != "" && FirstMove(ALIAS_COMMENT, table, "new") == Copy("new")
    ensures !Clear(ALIAS_COMMENT, table, "new")
  {
    hide ClauseReading, NameToken, FirstMove, UnquoteWord, EqualFold, SolidLex, ALIAS_COMMENT, PlainPair;
    AliasCommentRead(table);
    AliasCommentName();
    NewName();
    var tok := NameAlone(ALIAS_COMMENT, table, "new");
    NoPairMove(ALIAS_COMMENT, table, "new");
    CopyFirst(ALIAS_COMMENT, "new", tok, "b", table, "new");
  }

  lemma AliasCommentName()
    ensures var rest := "/**/" + ("." + "b");
            NameToken(ALIAS_COMMENT) == Parsed("new", rest) && !PlainPair(rest) &&
            Follows(rest, ALIAS_COMMENT) && UpTo(ALIAS_COMMENT, rest) == "new"
  {
    hide NameToken, PlainPair;
    var rest := "/**/" + ("." + "b");
    NameAhead("new", rest);
    SlashIsNoDot(rest);
    assert ALIAS_COMMENT == "new" + rest;
  }

  lemma SlashIsNoDot(rest: string)
    requires rest != "" && rest[0] == '/'
    ensures !PlainPair(rest)
  {
    hide NameToken;
    NoSpacesAhead(rest);
  }

  const PATH_TEXT := "t" + ("." + "b")
  const VALUES_PATH := "VALUES" + ("(" + (PATH_TEXT + ")"))

  /** `t.b)` with its tokens. */
  lemma PathTokens() returns (path: seq<Token>)
    ensures path == [Token(Word, "t"), Token(Code, "."), Token(Word, "b"), Token(Code, ")")]
    ensures Settled(path, ByWords) && Flatten(path) == PATH_TEXT + ")" && Solid(path) == path
  {
    hide Settled, Flatten;
    var t0 := [Token(Code, ")")] + [];
    FlattenNone();
    NothingSettled();
    PutCode(')', []);
    assert ")" + "" == ")";
    var t1 := [Token(Word, "b")] + t0;
    PutWord("b", t0);
    var t2 := [Token(Code, ".")] + t1;
    PutCode('.', t1);
    path := [Token(Word, "t")] + t2;
    PutWord("t", t2);
    assert "t" + ("." + ("b" + ")")) == PATH_TEXT + ")";
    NothingDropped(path);
  }

  lemma PathArgument(path: seq<Token>)
    requires path == [Token(Word, "t"), Token(Code, "."), Token(Word, "b"), Token(Code, ")")]
    ensures CallArgument([Token(Code, "(")] + path) == 5 && ([Token(Code, "(")] + path)[3] == Token(Word, "b")
    ensures CloseAt(path, 1) == 4 && path[..4] == path
  {
    assert ([Token(Code, "(")] + path)[1..] == path;
    assert path[2..] == [Token(Word, "b"), Token(Code, ")")];
    assert PathLen(path[2..]) == 1;
    assert path == path[..3] + [Token(Code, ")")];
    assert CloseAt([Token(Code, ")")], 1) == 1;
    CloseAtPast(path[..3], [Token(Code, ")")], 1);
  }

  lemma ValuesPathTokens() returns (path: seq<Token>)
    ensures path == [Token(Word, "t"), Token(Code, "."), Token(Word, "b"), Token(Code, ")")]
    ensures Lex(PATH_TEXT + ")", ByWords) == path && Flatten(path) == PATH_TEXT + ")"
    ensures SolidLex(VALUES_PATH) == [Token(Word, "VALUES")] + ([Token(Code, "(")] + path)
  {
    hide Settled, Flatten, IsGap, PATH_TEXT, Lex, Solid;
    path := PathTokens();
    var tok, open := Token(Word, "VALUES"), Token(Code, "(");
    PutCode('(', path);
    PutWord("VALUES", [open] + path);
    Relex(path, ByWords);
    Relex([tok] + ([open] + path), ByWords);
    SolidCons(tok, [open] + path);
    SolidCons(open, path);
    OpenIsSolid();
  }

  lemma ValuesPathParen()
    ensures ParenLen("(" + (PATH_TEXT + ")")) == 5
  {
    hide Flatten, PATH_TEXT, Lex, CloseAt, ParenLen, VALUES_PATH;
    var path := ValuesPathTokens();
    PathArgument(path);
    var u := "(" + (PATH_TEXT + ")");
    ParenWords(u);
    assert u[1..] == PATH_TEXT + ")";
    PathLength();
  }

  lemma ValuesPathRead(table: string, alias: string)
    ensures ClauseReading(VALUES_PATH, table, alias) == [Inserted("b", true)]
  {
    hide Called, UnquoteWord, PATH_TEXT, VALUES_PATH, SolidLex, CallArgument, Lex, Flatten;
    var path := ValuesPathTokens();
    var call := [Token(Code, "(")] + path;
    PathArgument(path);
    ValuesName(Token(Word, "VALUES"));
    ReadingCall(Token(Word, "VALUES"), call, table, alias);
    WordUnquoted("b");
    assert call[5..] == [];
  }

  lemma OpenIsSolid()
    ensures !IsGap(Token(Code, "(")) && !IsGap(Token(Word, "VALUES"))
  {
  }

  lemma PathLength()
    ensures |PATH_TEXT + ")"| == 4
  {
  }

  lemma ValuesPathMove()
    requires ParenLen("(" + (PATH_TEXT + ")")) == 5
    ensures var rest := "(" + (PATH_TEXT + ")");
            Follows(rest, VALUES_PATH) && ValuesSource(VALUES_PATH, rest) == InsertedValue(VALUES_PATH, PATH_TEXT)
  {
    PathUnquoted();
    assert |PATH_TEXT| == 3;
    hide PATH_TEXT, ParenLen, UnquoteWord, TrimSpace;
    CallMove("VALUES", PATH_TEXT);
  }

  lemma PathUnquoted()
    ensures UnquoteWord(TrimSpace(PATH_TEXT)) == PATH_TEXT
  {
    assert PATH_TEXT[0] == 't' && PATH_TEXT[|PATH_TEXT| - 1] == 'b';
    hide PATH_TEXT, UnquoteWord, TrimSpace;
    PlainUnquoted(PATH_TEXT);
  }

  lemma PlainUnquoted(q: string)
    requires q != "" && !IsBlank(q[0]) && !IsQuote(q[0]) && !IsBlank(q[|q| - 1]) && q[|q| - 1] != ';'
    ensures UnquoteWord(TrimSpace(q)) == q
  {
    hide TrimSpace, TrimSemicolon, UnquoteWord;
    assert "" + (q + "") == q;
    TrimKeeps("", q, "");
    UnquoteLength(q);
  }

  /** A name right before a parenthesis that ends the text. */
  lemma CallMove(name: string, inner: string)
    requires name != "" && ParenLen("(" + (inner + ")")) == |inner| + 2 && UnquoteWord(TrimSpace(inner)) == inner
    ensures var rest := "(" + (inner + ")");
            var t := name + rest;
            Follows(rest, t) && ValuesSource(t, rest) == InsertedValue(t, inner)
  {
    hide ParenLen, UnquoteWord, TrimSpace, ValuesSource;
    var rest := "(" + (inner + ")");
    var t := name + rest;
    assert t[|t| - |rest|..] == rest;
    assert rest[1..|rest| - 1] == inner;
    CallMoveAt(t, rest, inner);
  }

  lemma CallMoveAt(t: string, rest: string, inner: string)
    requires Follows(rest, t) && rest != "" && !IsSpace(rest[0]) && |rest| == |inner| + 2 && rest[1..|rest| - 1] == inner
    requires ParenLen(rest) == |rest| && UnquoteWord(TrimSpace(inner)) == inner
    ensures ValuesSource(t, rest) == InsertedValue(t, inner)
  {
    hide ParenLen, UnquoteWord, TrimSpace, Follows;
    NoSpacesAhead(rest);
    hide SkipSpaces, IsSpace;
    assert |t| - |rest| + ParenLen(rest) == |t|;
    assert t[..|t|] == t;
  }

  /** VALUES with a qualified column: MySQL inserts the value of b, the rewriter knows no such column. */
  lemma QualifiedValuesRefused(table: string, alias: string, value: Value)
    ensures ClauseReading(VALUES_PATH, table, alias) == [Inserted("b", true)]
    ensures Write(Moves(VALUES_PATH, table, alias), map["b" := value], [], 0).UnknownColumn?
    ensures ClauseMeaning(VALUES_PATH, table, alias, map["b" := value], []) == Some([Bound(value)])
  {
    hide ClauseReading, NameToken, FirstMove, UnquoteWord, EqualFold, ValuesSource, VALUES_PATH, PATH_TEXT, ParenLen, Moves, Write, Sensed;
    ValuesPathRead(table, alias);
    ValuesPathParen();
    ValuesPathMove();
    ValuesPathName();
    ValuesMove(VALUES_PATH, "(" + (PATH_TEXT + ")"), table, alias);
    PathUnknown(table, alias, value);
    OneInserted(value);
  }

  lemma PathUnknown(table: string, alias: string, value: Value)
    requires VALUES_PATH != "" && FirstMove(VALUES_PATH, table, alias) == InsertedValue(VALUES_PATH, PATH_TEXT)
    ensures Write(Moves(VALUES_PATH, table, alias), map["b" := value], [], 0).UnknownColumn?
  {
    PathIsNoColumn();
    hide FirstMove, VALUES_PATH, PATH_TEXT, Lower;
    assert Moves(VALUES_PATH, table, alias)[0] == InsertedValue(VALUES_PATH, PATH_TEXT);
  }

  lemma OneInserted(value: Value)
    ensures Sensed([Inserted("b", true)], map["b" := value], [], 0) == Some([Bound(value)])
  {
    assert Lower("b") == "b";
    assert [Inserted("b", true)][1..] == [] && [Bound(value)] + [] == [Bound(value)];
  }

  lemma ValuesPathName()
    ensures NameToken(VALUES_PATH) == Parsed("VALUES", "(" + (PATH_TEXT + ")"))
    ensures EqualFold(UnquoteWord("VALUES"), "VALUES")
  {
    hide NameToken, UnquoteWord, PATH_TEXT;
    NameAhead("VALUES", "(" + (PATH_TEXT + ")"));
    WordUnquoted("VALUES");
  }

  lemma PathIsNoColumn()
    ensures |Lower(PATH_TEXT)| == 3
  {
  }
}
