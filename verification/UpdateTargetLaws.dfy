/**
 * What dropping the table qualifiers of UPDATE ... SET targets comes to
 * (translateMySQLUpdateSetTargets of pkg/mysqlmock/mysql_syntax_compat.go).
 */
module UpdateTargetLaws {
  import opened Options
  import opened Text
  import opened SqlScanner
  import opened SqlSplitting
  import opened SqlParsing
  import opened TokenLists
  import opened UpdateTargets

  // ---------------------------------------------------------------------------------------------
  // The SET keyword
  // ---------------------------------------------------------------------------------------------

  predicate IsKeyword(tok: Token, word: string) {
    tok.kind == Word && EqualFold(tok.text, word)
  }

  /** Length of the text up to and including the first such word. */
  function AfterWord(toks: seq<Token>, word: string): Option<nat> {
    if toks == [] then None
    else if IsKeyword(toks[0], word) then Some(|toks[0].text|)
    else Later(AfterWord(toks[1..], word), |toks[0].text|)
  }

  lemma {:induction false} AfterWordPast(a: seq<Token>, b: seq<Token>, word: string)
    requires forall tok :: tok in a ==> !IsKeyword(tok, word)
    ensures AfterWord(a + b, word) == Later(AfterWord(b, word), |Flatten(a)|)
  {
    if a == [] {
      assert a + b == b;
    } else {
      assert (a + b)[1..] == a[1..] + b;
      AfterWordPast(a[1..], b, word);
    }
  }

  /** The keyword parser, in tokens. */
  lemma KeywordLex(t: string, word: string)
    ensures var toks := Lex(SkipSpaces(t), ByWords);
            && (Keyword(t, word).Some? <==> toks != [] && IsKeyword(toks[0], word))
            && (Keyword(t, word).Some? ==>
                  Lex(Keyword(t, word).value, ByWords) == toks[1..] && |Keyword(t, word).value| + |toks[0].text| == |SkipSpaces(t)|)
  {
    hide QuoteTail, PartTail, SpaceLen, Upper;
    var u := SkipSpaces(t);
    if u != "" {
      assert Lex(u, ByWords)[0] == Lead(u, ByWords);
      assert Lex(u, ByWords)[1..] == Lex(u[|Lead(u, ByWords).text|..], ByWords);
    }
  }

  lemma SpaceIsNoKeyword(toks: seq<Token>, word: string)
    requires AllSpace(toks)
    ensures forall tok :: tok in toks ==> !IsKeyword(tok, word)
  {
  }

  /** The first move of the search for SET passes tokens that are no SET. */
  lemma SetMovePasses(t: string) returns (passed: seq<Token>)
    requires t != "" && SetMove(t) > 0
    ensures Lex(t, ByWords) == passed + Lex(t[SetMove(t)..], ByWords) && |Flatten(passed)| == SetMove(t)
    ensures forall tok :: tok in passed ==> !IsKeyword(tok, "SET")
  {
    hide Keyword, NameToken, QuoteTail, CommentLen, Upper;
    if Lead(t, ByBytes).kind != Code {
      passed := [Lead(t, ByWords)];
    } else if NameToken(t).Parsed? {
      passed := NamePasses(t);
    } else {
      CodeNoName(t);
      passed := [Token(Code, t[..1])];
    }
    FlattenOne(passed);
  }

  lemma FlattenOne(toks: seq<Token>)
    ensures |toks| == 1 ==> Flatten(toks) == toks[0].text
  {
    if |toks| == 1 {
      assert toks[1..] == [];
    }
  }

  lemma CodeNoName(t: string)
    requires t != "" && Lead(t, ByBytes).kind == Code && NameToken(t).Failed?
    ensures Lead(t, ByWords) == Token(Code, t[..1])
  {
    hide PartTail, QuoteTail;
    assert !IsSpace(t[0]) ==> SkipSpaces(t) == t;
  }

  lemma NamePasses(t: string) returns (passed: seq<Token>)
    requires NameToken(t).Parsed? && Keyword(t, "SET").None?
    ensures Lex(t, ByWords) == passed + Lex(NameToken(t).rest, ByWords) && |Flatten(passed)| == |t| - |NameToken(t).rest|
    ensures forall tok :: tok in passed ==> !IsKeyword(tok, "SET")
  {
    var gap := SpacesLex(t);
    KeywordLex(t, "SET");
    NameLex(t);
    hide Lex, SkipSpaces, Keyword, NameToken, IsKeyword;
    var toks := Lex(SkipSpaces(t), ByWords);
    passed := gap + [toks[0]];
    assert toks == [toks[0]] + toks[1..];
    assert gap + ([toks[0]] + toks[1..]) == passed + toks[1..];
    SpaceIsNoKeyword(gap, "SET");
    LexSpells(t, ByWords);
    LexSpells(NameToken(t).rest, ByWords);
    FlattenAppend(passed, toks[1..]);
  }

  /** The search finds the first word SET outside quotes and comments, at whatever depth. */
  lemma {:induction false} FindSetFirst(t: string)
    ensures FindSet(t) == AfterWord(Lex(t, ByWords), "SET")
    decreases |t|
  {
    if t != "" {
      var n := SetMove(t);
      if n == 0 {
        SetHere(t);
      } else {
        var passed := SetMovePasses(t);
        hide Lex, SetMove, IsKeyword;
        FindSetFirst(t[n..]);
        AfterWordPast(passed, Lex(t[n..], ByWords), "SET");
      }
    }
  }

  lemma SetHere(t: string)
    requires Keyword(t, "SET").Some?
    ensures AfterWord(Lex(t, ByWords), "SET") == Some(|t| - |Keyword(t, "SET").value|)
  {
    var gap := SpacesLex(t);
    KeywordLex(t, "SET");
    hide Lex, Keyword, IsKeyword;
    SpaceIsNoKeyword(gap, "SET");
    AfterWordPast(gap, Lex(SkipSpaces(t), ByWords), "SET");
  }

  // ---------------------------------------------------------------------------------------------
  // Splitting, as the identifier-wise walk sees it
  // ---------------------------------------------------------------------------------------------

  /** Tokens that neither separate nor open or close stay in one piece. */
  lemma {:induction false} PiecesPast(a: seq<Token>, b: seq<Token>, depth: nat, sep: char)
    requires forall tok :: tok in a ==> !IsCode(tok, sep) && !IsCode(tok, '(') && !IsCode(tok, ')')
    ensures var r := Pieces(b, depth, sep); Pieces(a + b, depth, sep) == [a + r[0]] + r[1..]
  {
    var r := Pieces(b, depth, sep);
    if a == [] {
      assert a + b == b && [] + r[0] == r[0] && r == [r[0]] + r[1..];
    } else {
      assert (a + b)[1..] == a[1..] + b && (a + b)[0] == a[0] && a[0] in a;
      PiecesPast(a[1..], b, depth, sep);
      assert [a[0]] + (a[1..] + r[0]) == a + r[0];
    }
  }

  function SpreadAll(pieces: seq<seq<Token>>): (r: seq<seq<Token>>)
    ensures |r| == |pieces|
  {
    seq(|pieces|, i requires 0 <= i < |pieces| => Spread(pieces[i]))
  }

  lemma {:induction false} SpreadPieces(toks: seq<Token>, depth: nat, sep: char)
    requires WordsAreParts(toks) && !IsIdentifierPart(sep)
    ensures Pieces(Spread(toks), depth, sep) == SpreadAll(Pieces(toks, depth, sep))
  {
    hide CodeBytes, WordsAreParts, Spread, Pieces;
    if toks == [] {
      SpreadNothing();
      PiecesNothing(depth, sep);
    } else {
      var tok, later := toks[0], toks[1..];
      FewerParts(toks);
      assert toks == [tok] + later;
      SpreadPieces(later, if IsCode(tok, sep) && depth == 0 then 0 else DepthAfter(tok, depth), sep);
      SpreadPiecesStep(tok, later, depth, sep);
    }
  }

  lemma PiecesNothing(depth: nat, sep: char)
    ensures Pieces([], depth, sep) == [[]]
  {
  }

  lemma PiecesCons(tok: Token, later: seq<Token>, depth: nat, sep: char)
    ensures Pieces([tok] + later, depth, sep) ==
              if IsCode(tok, sep) && depth == 0 then [[]] + Pieces(later, 0, sep)
              else var r := Pieces(later, DepthAfter(tok, depth), sep); [[tok] + r[0]] + r[1..]
  {
    assert ([tok] + later)[1..] == later;
  }

  lemma SpreadPiecesStep(tok: Token, later: seq<Token>, depth: nat, sep: char)
    requires !IsIdentifierPart(sep) && (tok.kind == Word ==> forall c :: c in tok.text ==> IsIdentifierPart(c))
    requires var depth' := if IsCode(tok, sep) && depth == 0 then 0 else DepthAfter(tok, depth);
             Pieces(Spread(later), depth', sep) == SpreadAll(Pieces(later, depth', sep))
    ensures Pieces(Spread([tok] + later), depth, sep) == SpreadAll(Pieces([tok] + later, depth, sep))
  {
    hide Spread, Pieces, CodeBytes;
    SpreadCons(tok, later);
    PiecesCons(tok, later, depth, sep);
    SpreadNothing();
    if tok.kind == Word {
      var r := Pieces(later, depth, sep);
      WordBytesPlain(tok.text);
      PiecesPast(CodeBytes(tok.text), Spread(later), depth, sep);
      SpreadCons(tok, r[0]);
      SpreadHead(r, [tok] + r[0], CodeBytes(tok.text));
    } else {
      PiecesCons(tok, Spread(later), depth, sep);
      if IsCode(tok, sep) && depth == 0 {
        var r := Pieces(later, 0, sep);
        assert SpreadAll([[]] + r) == [Spread([])] + SpreadAll(r);
      } else {
        var r := Pieces(later, DepthAfter(tok, depth), sep);
        SpreadCons(tok, r[0]);
        SpreadHead(r, [tok] + r[0], [tok]);
      }
    }
  }

  lemma SpreadHead(r: seq<seq<Token>>, first: seq<Token>, bytes: seq<Token>)
    requires r != [] && Spread(first) == bytes + Spread(r[0])
    ensures SpreadAll([first] + r[1..]) == [bytes + SpreadAll(r)[0]] + SpreadAll(r)[1..]
  {
    hide Spread;
  }

  /** Splitting a text gives the texts of the pieces of its tokens, whichever walk is taken. */
  lemma PiecesWords(t: string, sep: char)
    requires !IsIdentifierPart(sep)
    ensures Texts(Pieces(Lex(t, ByBytes), 0, sep)) == Texts(Pieces(Lex(t, ByWords), 0, sep))
  {
    WalksInStep(t);
    LexWordsAreParts(t);
    var toks := Lex(t, ByWords);
    hide Lex, Pieces, Spread;
    SpreadPieces(toks, 0, sep);
    var pieces := Pieces(toks, 0, sep);
    forall i | 0 <= i < |pieces|
      ensures Flatten(Spread(pieces[i])) == Flatten(pieces[i])
    {
      FlattenSpread(pieces[i]);
    }
  }

  // ---------------------------------------------------------------------------------------------
  // Trimming tokens
  // ---------------------------------------------------------------------------------------------

  predicate IsBlankToken(tok: Token) {
    tok.kind == Code && |tok.text| == 1 && IsBlank(tok.text[0])
  }

  function TrimL(toks: seq<Token>): seq<Token> {
    if toks != [] && IsBlankToken(toks[0]) then TrimL(toks[1..]) else toks
  }

  function TrimR(toks: seq<Token>): (r: seq<Token>)
    ensures r <= toks
  {
    if toks != [] && IsBlankToken(toks[|toks| - 1]) then TrimR(toks[..|toks| - 1]) else toks
  }

  /** The last token that is no blank does not end in one, as a line comment and its newline would. */
  predicate EndsClean(toks: seq<Token>) {
    var r := TrimR(toks);
    r == [] || (r[|r| - 1].text != "" && !IsBlank(r[|r| - 1].text[|r[|r| - 1].text| - 1]))
  }

  lemma TrimRightShorter(s: string)
    requires s != ""
    ensures TrimRight(s) == s <==> !IsBlank(s[|s| - 1])
  {
    if IsBlank(s[|s| - 1]) {
      assert TrimRight(s) == TrimRight(s[..|s| - 1]);
    }
  }

  // ---------------------------------------------------------------------------------------------
  // Assignment targets
  // ---------------------------------------------------------------------------------------------

  /** How many names, joined by dots, the tokens are; 0 if they are something else. */
  function NameCount(toks: seq<Token>): nat {
    if toks == [] || !IsName(toks[0]) then 0
    else if |toks| == 1 then 1
    else if !IsCode(toks[1], '.') || NameCount(toks[2..]) == 0 then 0
    else 1 + NameCount(toks[2..])
  }

  function Spaceless(t: string): seq<Token> {
    Without(Lex(t, ByWords), IsSpaceToken)
  }

  lemma SpacelessSpaces(t: string)
    ensures Spaceless(t) == Spaceless(SkipSpaces(t))
  {
    var gap := SpacesLex(t);
    hide Lex, SkipSpaces;
    WithoutAppend(gap, Lex(SkipSpaces(t), ByWords), IsSpaceToken);
    WithoutAll(gap, IsSpaceToken);
    assert [] + Spaceless(SkipSpaces(t)) == Spaceless(SkipSpaces(t));
  }

  /** The first token behind white space. */
  lemma SpacelessFirst(t: string) returns (toks: seq<Token>)
    ensures toks == Lex(SkipSpaces(t), ByWords)
    ensures if toks == [] then Spaceless(t) == [] && SkipSpaces(t) == ""
            else !IsSpaceToken(toks[0]) && Spaceless(t) == [toks[0]] + Without(toks[1..], IsSpaceToken) && SkipSpaces(t) != ""
  {
    toks := Lex(SkipSpaces(t), ByWords);
    SpacelessSpaces(t);
    AfterSpaces(t);
    LexSpells(SkipSpaces(t), ByWords);
    if toks != [] {
      assert toks == [toks[0]] + toks[1..];
      FirstNotEmpty(toks);
      hide Lex, SkipSpaces, IsSpaceToken;
      WithoutFirst(toks[0], toks[1..], IsSpaceToken);
    }
  }

  lemma FirstNotEmpty(toks: seq<Token>)
    requires toks != [] && Settled(toks, ByWords)
    ensures Flatten(toks) != ""
  {
  }

  lemma DotFirst(u: string)
    requires u != ""
    ensures Lex(u, ByWords) != [] && (IsCode(Lex(u, ByWords)[0], '.') <==> u[0] == '.')
    ensures u[0] == '.' ==> Lex(u, ByWords)[1..] == Lex(u[1..], ByWords)
  {
    if u[0] == '.' {
      LexCodeByte(u);
    }
  }

  lemma OneName(tok: Token, later: seq<Token>)
    requires IsName(tok)
    ensures NameCount([tok] + later) ==
              if later == [] then 1
              else if !IsCode(later[0], '.') || NameCount(later[1..]) == 0 then 0 else 1 + NameCount(later[1..])
  {
    var toks := [tok] + later;
    if later != [] {
      assert toks[1] == later[0] && toks[2..] == later[1..];
    }
  }

  /** The parts are found exactly when the tokens are names joined by dots; the last part is the last name. */
  predicate PartsOf(parts: Option<seq<string>>, solid: seq<Token>) {
    && (parts.Some? <==> NameCount(solid) > 0)
    && (parts.Some? ==> |parts.value| == NameCount(solid) && solid != [] &&
                        parts.value[|parts.value| - 1] == solid[|solid| - 1].text)
  }

  lemma PartsMore(tok: Token, later: seq<Token>, more: Option<seq<string>>)
    requires IsName(tok) && later != [] && IsCode(later[0], '.') && PartsOf(more, later[1..])
    ensures PartsOf(if more.None? then None else Some([tok.text] + more.value), [tok] + later)
  {
    OneName(tok, later);
    hide NameCount, IsName;
    assert later[1..] != [] ==> ([tok] + later)[|later|] == later[1..][|later| - 2];
  }

  lemma PartsStop(tok: Token, later: seq<Token>)
    requires IsName(tok)
    ensures later == [] ==> PartsOf(Some([tok.text]), [tok] + later)
    ensures later != [] && !IsCode(later[0], '.') ==> PartsOf(None, [tok] + later)
  {
    OneName(tok, later);
    hide NameCount, IsName;
  }

  lemma {:induction false} TargetPartsLex(t: string)
    ensures PartsOf(TargetParts(t), Spaceless(t))
    decreases |t|
  {
    var toks := SpacelessFirst(t);
    NameLex(t);
    hide Lex, SkipSpaces, NameToken, IsName, IsSpaceToken, NameCount, Spaceless;
    var name := NameToken(t);
    if name.Parsed? {
      assert Spaceless(t) == [toks[0]] + Spaceless(name.rest) by { SpacelessIs(name.rest); }
      hide PartsOf;
      var u := SkipSpaces(name.rest);
      var later := SpacelessFirst(name.rest);
      PartsStop(toks[0], Spaceless(name.rest));
      if u != "" {
        DotFirst(u);
        if u[0] == '.' {
          TargetPartsLex(SkipSpaces(u[1..]));
          SpacelessSpaces(u[1..]);
          SpacelessIs(u[1..]);
          assert Spaceless(name.rest)[1..] == Spaceless(u[1..]);
          PartsMore(toks[0], Spaceless(name.rest), TargetParts(SkipSpaces(u[1..])));
        }
      }
    } else {
      NoName(Spaceless(t), toks);
    }
  }

  lemma SpacelessIs(t: string)
    ensures Spaceless(t) == Without(Lex(t, ByWords), IsSpaceToken)
  {
  }

  lemma NoName(solid: seq<Token>, toks: seq<Token>)
    requires toks == [] || !IsName(toks[0])
    requires if toks == [] then solid == [] else solid == [toks[0]] + Without(toks[1..], IsSpaceToken)
    ensures NameCount(solid) == 0
  {
  }

  /** The tokens before the first top-level `=` of an assignment, and those from it on. */
  function LeftOf(p: seq<Token>): seq<Token> {
    Pieces(p, 0, '=')[0]
  }

  predicate HasEqual(p: seq<Token>) {
    |Pieces(p, 0, '=')| > 1
  }

  lemma {:induction false} FirstPiece(toks: seq<Token>, depth: nat, sep: char)
    ensures var first := Pieces(toks, depth, sep)[0];
            && first <= toks
            && (|Pieces(toks, depth, sep)| > 1 <==> |first| < |toks|)
            && (|first| < |toks| ==> IsCode(toks[|first|], sep))
  {
    if toks != [] && !(IsCode(toks[0], sep) && depth == 0) {
      FirstPiece(toks[1..], DepthAfter(toks[0], depth), sep);
    }
  }

  function RightOf(p: seq<Token>): seq<Token> {
    FirstPiece(p, 0, '=');
    p[|LeftOf(p)|..]
  }

  /** The target of an assignment, white space aside. */
  function Path(p: seq<Token>): seq<Token> {
    Spaceless(TrimSpace(Flatten(LeftOf(p))))
  }

  /** The target is two or more names joined by dots. */
  predicate IsQualified(p: seq<Token>) {
    HasEqual(p) && NameCount(Path(p)) >= 2
  }

  lemma EqualAt(item: string, p: seq<Token>)
    requires Lex(item, ByWords) == p
    ensures EqualIndex(item) == if HasEqual(p) then Some(|Flatten(LeftOf(p))|) else None
  {
    PiecesWords(item, '=');
    hide Lex, Pieces;
    var a, b := Pieces(Lex(item, ByBytes), 0, '='), Pieces(p, 0, '=');
    assert Texts(a)[0] == Texts(b)[0];
  }

  lemma BothSides(p: seq<Token>)
    ensures p == LeftOf(p) + RightOf(p)
  {
    FirstPiece(p, 0, '=');
    hide Pieces;
  }

  lemma CutAt(item: string, left: seq<Token>, right: seq<Token>)
    requires Lex(item, ByWords) == left + right
    ensures var n := |Flatten(left)|;
            && n <= |item| && item[..n] == Flatten(left) && item[n..] == Flatten(right)
            && Lex(Flatten(left), ByWords) == left && Lex(Flatten(right), ByWords) == right
  {
    hide Lex, Settled, Flatten;
    assert [] + left + right == left + right && left + right + [] == left + right;
    LexSlice(item, [], left, right, ByWords);
    LexSlice(item, left, right, [], ByWords);
    FlattenNone();
  }

  /** The rewritten assignment, or None where the source leaves it alone. */
  lemma AssignmentTargetLex(item: string, p: seq<Token>)
    requires Lex(item, ByWords) == p
    ensures AssignmentTarget(item).Some? <==> IsQualified(p)
    ensures IsQualified(p) ==> Path(p) != []
    ensures IsQualified(p) ==>
              AssignmentTarget(item).value == Path(p)[|Path(p)| - 1].text + " " + TrimSpace(Flatten(RightOf(p)))
  {
    hide Lex, Pieces, TrimSpace, EqualIndex, TargetParts, RightOf, LeftOf, HasEqual, Spaceless, NameCount, Flatten;
    EqualIndexInside(item);
    EqualAt(item, p);
    BothSides(p);
    CutAt(item, LeftOf(p), RightOf(p));
    TargetPartsLex(TrimSpace(Flatten(LeftOf(p))));
  }

  const SPACE := Token(Code, " ")
  const COMMA := Token(Code, ",")

  /** The last name of the target, and a blank. */
  function NewTarget(p: seq<Token>): seq<Token> {
    if Path(p) == [] then [SPACE] else [Path(p)[|Path(p)| - 1], SPACE]
  }

  /** What is kept of an assignment: of a qualified target the last name, and the rest trimmed. */
  function KeptPiece(p: seq<Token>): seq<Token> {
    if IsQualified(p) then NewTarget(p) + TrimR(RightOf(p)) else p
  }

  // ---------------------------------------------------------------------------------------------
  // The target's tokens are those of the assignment
  // ---------------------------------------------------------------------------------------------

  predicate AllBlank(toks: seq<Token>) {
    forall tok :: tok in toks ==> IsBlankToken(tok)
  }

  /** Blanks are tokens of their own. */
  lemma {:induction false} BlanksLex(z: string, y: string) returns (gap: seq<Token>)
    requires BlankText(z)
    ensures AllBlank(gap) && Lex(z + y, ByWords) == gap + Lex(y, ByWords)
  {
    gap := [];
    if z == "" {
      assert z + y == y && [] + Lex(y, ByWords) == Lex(y, ByWords);
    } else {
      assert z[0] in z && (z + y)[1..] == z[1..] + y;
      LexCodeByte(z + y);
      hide Lex;
      var later := BlanksLex(z[1..], y);
      gap := [Token(Code, [z[0]])] + later;
      assert [Token(Code, [z[0]])] + (later + Lex(y, ByWords)) == gap + Lex(y, ByWords);
    }
  }

  lemma TrimLeftCut(s: string) returns (a: string)
    ensures s == a + TrimLeft(s) && BlankText(a)
  {
    TrimLeftBlanks(s);
    hide IsBlank;
    var n := |s| - |TrimLeft(s)|;
    a := s[..n];
    assert s == s[..n] + s[n..];
  }

  lemma {:induction false} TrimLeftBlanks(s: string)
    ensures forall i :: 0 <= i < |s| - |TrimLeft(s)| ==> IsBlank(s[i])
  {
    if s != "" && IsBlank(s[0]) {
      TrimLeftBlanks(s[1..]);
      hide IsBlank;
      forall i | 1 <= i < |s| - |TrimLeft(s)| ensures IsBlank(s[i]) {
        assert s[1..][i - 1] == s[i];
      }
    }
  }

  lemma BlankMore(s: string, n: nat, x: string, y: string)
    requires n + 1 == |s| && s[..n] == x + y && BlankText(y) && IsBlank(s[n])
    ensures s == x + (y + [s[n]]) && BlankText(y + [s[n]])
  {
    assert s == s[..n] + [s[n]];
  }

  lemma {:induction false} TrimRightCut(s: string) returns (z: string)
    ensures s == TrimRight(s) + z && BlankText(z)
  {
    z := "";
    if s != "" && IsBlank(s[|s| - 1]) {
      var n := |s| - 1;
      var y := TrimRightCut(s[..n]);
      z := y + [s[n]];
      assert TrimRight(s) == TrimRight(s[..n]);
      hide TrimRight, BlankText, IsBlank;
      BlankMore(s, n, TrimRight(s[..n]), y);
    }
  }

  /** All quoted tokens are closed. */
  predicate QuotesClosed(toks: seq<Token>) {
    forall tok :: tok in toks && tok.kind == Quoted ==> ClosedQuote(tok.text)
  }

  lemma {:induction false} FollowedQuotesClosed(toks: seq<Token>, y: string)
    requires y != "" && Settled(toks, ByWords) && (toks != [] ==> Sits(toks[|toks| - 1], y, ByWords))
    ensures QuotesClosed(toks)
  {
    if toks != [] {
      var next := if |toks| == 1 then y else Flatten(toks[1..]);
      var x := toks[0].text;
      if |toks| > 1 {
        FollowedQuotesClosed(toks[1..], y);
        FirstNotEmpty(toks[1..]);
      }
      assert Sits(toks[0], next, ByWords);
      QuotedSits(toks[0], next);
      hide Sits, Settled, Flatten, ClosedQuote;
      assert forall tok :: tok in toks ==> tok == toks[0] || tok in toks[1..];
    }
  }

  lemma QuotedSits(tok: Token, y: string)
    requires Sits(tok, y, ByWords) && y != ""
    ensures tok.kind == Quoted ==> ClosedQuote(tok.text)
  {
    var x := tok.text;
    if tok.kind == Quoted {
      assert (x + y)[1..] == x[1..] + y;
      ShortSpanIsClosed(x[1..], y, x[0]);
    }
  }

  /** A quoted span that is closed behind blanks was closed before them. */
  lemma QuoteBeforeBlank(x: string, z: string, q: char)
    requires IsQuote(q) && QuoteTail(x, q) == |x| && BlankText(z)
    requires ClosedBody((x + z)[..QuoteTail(x + z, q)], q)
    ensures QuoteTail(x + z, q) == |x| && ClosedBody(x, q)
  {
    hide QuoteTail, ClosedBody;
    var n := QuoteTail(x + z, q);
    var body := (x + z)[..n];
    ClosedEnd(body, q);
    if n < |x| {
      var a, b := x[..n], x[n..];
      assert body == a && x == a + b && x + z == a + (b + z);
      ShortSpanIsClosed(a, b + z, q);
      ClosedBodyEnds(a, b, q);
    } else {
      InTail(x, z, n);
      assert n == |x|;
      assert body == x;
    }
  }

  lemma InTail(x: string, z: string, n: nat)
    requires n <= |x + z|
    ensures n > |x| ==> (x + z)[n - 1] in z
  {
  }

  /** A name stays the token it is before blanks. */
  lemma NameBeforeBlank(tok: Token, z: string)
    requires IsName(tok) && Sits(tok, "", ByWords) && BlankText(z) && z != ""
    requires var lead := Lead(tok.text + z, ByWords); lead.kind == Quoted ==> ClosedQuote(lead.text)
    ensures Sits(tok, z, ByWords)
  {
    var x := tok.text;
    assert x + "" == x && (x + z)[1..] == x[1..] + z && z[0] in z;
    if tok.kind == Quoted {
      QuotedBeforeBlank(tok, z);
    } else {
      NoCommentAhead(x, z);
      assert x[1..] + "" == x[1..];
      PartTailLocal(x[1..], "", z);
      assert (x + z)[..|x|] == x;
    }
  }

  lemma QuotedBeforeBlank(tok: Token, z: string)
    requires tok.kind == Quoted && Sits(tok, "", ByWords) && BlankText(z) && z != ""
    requires var lead := Lead(tok.text + z, ByWords); lead.kind == Quoted ==> ClosedQuote(lead.text)
    ensures Sits(tok, z, ByWords)
  {
    var x := tok.text;
    assert x + "" == x && (x + z)[1..] == x[1..] + z;
    var n := QuoteTail(x[1..] + z, x[0]);
    assert (x + z)[..1 + n][1..] == (x[1..] + z)[..n];
    QuoteBeforeBlank(x[1..], z, x[0]);
    assert (x + z)[..|x|] == x;
  }

  lemma NoCommentAhead(x: string, z: string)
    requires x != "" && IsIdentifierStart(x[0])
    ensures CommentLen(x + z, false) == 0
  {
  }

  lemma TrimRightLex(y: string) returns (back: seq<Token>)
    requires QuotesClosed(Lex(y, ByWords)) && NameCount(Spaceless(TrimRight(y))) > 0
    ensures AllBlank(back) && Lex(y, ByWords) == Lex(TrimRight(y), ByWords) + back
  {
    var x := TrimRight(y);
    var z := TrimRightCut(y);
    hide Lex, TrimRight, NameCount, IsBlankToken, QuotesClosed;
    if z == "" {
      assert x + z == x;
      back := [];
    } else {
      back := BehindName(x, z);
    }
  }

  lemma TrimLeftLex(s: string) returns (front: seq<Token>)
    requires QuotesClosed(Lex(s, ByWords))
    ensures AllBlank(front) && Lex(s, ByWords) == front + Lex(TrimLeft(s), ByWords) && QuotesClosed(Lex(TrimLeft(s), ByWords))
  {
    hide Lex, TrimLeft, IsBlankToken, ClosedQuote;
    var a := TrimLeftCut(s);
    front := BlanksLex(a, TrimLeft(s));
    assert forall tok :: tok in Lex(TrimLeft(s), ByWords) ==> tok in front + Lex(TrimLeft(s), ByWords);
  }

  /** All but blanks of a text whose names are closed: trimming changes no other token. */
  lemma TrimmedLex(s: string)
    requires QuotesClosed(Lex(s, ByWords)) && NameCount(Spaceless(TrimSpace(s))) > 0
    ensures Without(Lex(s, ByWords), IsBlankToken) == Without(Lex(TrimSpace(s), ByWords), IsBlankToken)
  {
    hide Lex, TrimLeft, TrimRight, NameCount, IsBlankToken, QuotesClosed, AllBlank, Spaceless;
    var front := TrimLeftLex(s);
    var back := TrimRightLex(TrimLeft(s));
    OnlyBlanksMore(front, Lex(TrimSpace(s), ByWords), back);
    assert front + (Lex(TrimSpace(s), ByWords) + back) == front + Lex(TrimSpace(s), ByWords) + back;
  }

  lemma OnlyBlanksMore(a: seq<Token>, b: seq<Token>, c: seq<Token>)
    requires AllBlank(a) && AllBlank(c)
    ensures Without(a + b + c, IsBlankToken) == Without(b, IsBlankToken)
  {
    WithoutAppend(a + b, c, IsBlankToken);
    WithoutAppend(a, b, IsBlankToken);
    WithoutAll(a, IsBlankToken);
    WithoutAll(c, IsBlankToken);
    var kept := Without(b, IsBlankToken);
    assert [] + kept + [] == kept;
  }

  /** Blanks behind a text that ends in a name. */
  lemma BehindName(x: string, z: string) returns (back: seq<Token>)
    requires BlankText(z) && z != "" && NameCount(Spaceless(x)) > 0 && (x != "" ==> !IsBlank(x[|x| - 1]))
    requires QuotesClosed(Lex(x + z, ByWords))
    ensures AllBlank(back) && Lex(x + z, ByWords) == Lex(x, ByWords) + back
  {
    back := BlanksLex(z, "");
    assert z + "" == z;
    NothingLex();
    assert back + [] == back;
    hide AllBlank;
    JoinAfterName(x, z);
  }

  lemma JoinAfterName(x: string, z: string)
    requires BlankText(z) && z != "" && NameCount(Spaceless(x)) > 0 && (x != "" ==> !IsBlank(x[|x| - 1]))
    requires QuotesClosed(Lex(x + z, ByWords))
    ensures Lex(x + z, ByWords) == Lex(x, ByWords) + Lex(z, ByWords)
  {
    var toks := Lex(x, ByWords);
    EndsInName(x);
    LexSpells(x, ByWords);
    hide Lex, NameCount, IsBlankToken, Sits, Flatten, Settled;
    LastBeforeBlank(x, z, toks, toks[|toks| - 1]);
    LexJoin(toks, z, ByWords);
  }

  lemma NothingLex()
    ensures Lex("", ByWords) == []
  {
  }

  lemma LastBeforeBlank(x: string, z: string, toks: seq<Token>, tok: Token)
    requires toks == Lex(x, ByWords) && toks != [] && tok == toks[|toks| - 1] && IsName(tok)
    requires BlankText(z) && z != "" && QuotesClosed(Lex(x + z, ByWords))
    ensures Sits(tok, z, ByWords)
  {
    LexSpells(x, ByWords);
    hide Lex, Sits, Flatten, Settled, IsName, ClosedQuote;
    var init := toks[..|toks| - 1];
    assert toks == init + [tok];
    SettledCut(init, [tok], ByWords);
    FlattenSnoc(init, tok);
    OnlyOne(tok);
    var later := tok.text + z;
    assert x + z == Flatten(init) + later;
    if init == [] {
      FlattenNone();
      assert Flatten(init) + later == later;
    } else {
      InitBefore(init, tok, z);
      LexJoin(init, later, ByWords);
    }
    assert Lex(x + z, ByWords) == init + Lex(later, ByWords);
    FirstOfLex(later);
    assert Lead(later, ByWords) in init + Lex(later, ByWords);
    NameBeforeBlank(tok, z);
  }

  lemma OnlyOne(tok: Token)
    requires Settled([tok], ByWords)
    ensures Sits(tok, "", ByWords) && tok.text != ""
  {
    assert [tok][1..] == [] && Flatten([]) == "";
  }

  lemma FirstOfLex(t: string)
    requires t != ""
    ensures Lex(t, ByWords) != [] && Lex(t, ByWords)[0] == Lead(t, ByWords)
  {
  }

  /** Tokens before another one do not notice what comes behind it. */
  lemma InitBefore(init: seq<Token>, tok: Token, z: string)
    requires init != [] && Settled(init + [tok], ByWords)
    ensures Settled(init, ByWords) && Sits(init[|init| - 1], tok.text + z, ByWords)
  {
    hide Sits, Settled, Flatten;
    SettledCut(init, [tok], ByWords);
    LastSitsBefore(init, [tok]);
    FlattenOne([tok]);
    OnlyOne(tok);
    SitsNext(init[|init| - 1], tok.text, tok.text + z, ByWords);
  }

  /** A dotted name ends in a name, if blanks do not come last. */
  lemma EndsInName(x: string)
    requires NameCount(Spaceless(x)) > 0 && (x != "" ==> !IsBlank(x[|x| - 1]))
    ensures var toks := Lex(x, ByWords); toks != [] && IsName(toks[|toks| - 1])
  {
    var toks := Lex(x, ByWords);
    var solid := Spaceless(x);
    LexSpells(x, ByWords);
    LastName(solid);
    hide Lex, NameCount, IsName;
    var n := |toks| - 1;
    assert toks != [];
    var tok := toks[n];
    assert toks == toks[..n] + [tok];
    FlattenSnoc(toks[..n], tok);
    SettledCut(toks[..n], [tok], ByWords);
    OnlyOne(tok);
    WithoutAppend(toks[..n], [tok], IsSpaceToken);
    WithoutFirst(tok, [], IsSpaceToken);
    assert [tok] + [] == [tok];
    assert !IsSpaceToken(tok);
    assert solid[|solid| - 1] == tok;
  }

  lemma {:induction false} LastName(toks: seq<Token>)
    requires NameCount(toks) > 0
    ensures toks != [] && IsName(toks[|toks| - 1])
  {
    if |toks| > 1 {
      LastName(toks[2..]);
    }
  }

  /** The names and dots of a target. */
  lemma {:induction false} NamesNotBlank(toks: seq<Token>)
    requires NameCount(toks) > 0
    ensures Without(toks, IsBlankToken) == toks
  {
    var drop := IsBlankToken;
    if |toks| == 1 {
      assert toks == [toks[0]] + [];
      WithoutFirst(toks[0], [], drop);
    } else {
      NamesNotBlank(toks[2..]);
      assert toks == [toks[0]] + ([toks[1]] + toks[2..]);
      WithoutFirst(toks[1], toks[2..], drop);
      WithoutFirst(toks[0], [toks[1]] + toks[2..], drop);
    }
  }

  lemma {:induction false} WithoutBoth(toks: seq<Token>)
    ensures Without(Without(toks, IsSpaceToken), IsBlankToken) == Without(toks, IsBlankToken)
  {
    if toks != [] {
      WithoutBoth(toks[1..]);
      var rest := Without(toks[1..], IsSpaceToken);
      if !IsSpaceToken(toks[0]) {
        WithoutFirst(toks[0], rest, IsBlankToken);
      } else {
        assert [] + rest == rest;
      }
    }
  }

  /** The visible tokens of a qualified target are its names and dots. */
  lemma TargetTokens(p: seq<Token>)
    requires Settled(p, ByWords) && IsQualified(p)
    ensures Without(LeftOf(p), IsBlankToken) == Path(p)
  {
    var left := Flatten(LeftOf(p));
    LeftSettled(p);
    hide Lex, TrimSpace, LeftOf, HasEqual, NameCount, IsBlankToken, Flatten, Settled;
    TrimmedLex(left);
    NamesNotBlank(Path(p));
    WithoutBoth(Lex(TrimSpace(left), ByWords));
  }

  lemma LeftSettled(p: seq<Token>)
    requires Settled(p, ByWords) && HasEqual(p)
    ensures Lex(Flatten(LeftOf(p)), ByWords) == LeftOf(p) && QuotesClosed(LeftOf(p))
  {
    FirstPiece(p, 0, '=');
    BothSides(p);
    hide Pieces, Lex, Sits;
    var left, right := LeftOf(p), RightOf(p);
    SettledCut(left, right, ByWords);
    Relex(left, ByWords);
    if left != [] {
      LastSitsBefore(left, right);
      FirstNotEmpty(right);
      FollowedQuotesClosed(left, Flatten(right));
    }
  }

  lemma LastSitsBefore(a: seq<Token>, b: seq<Token>)
    requires a != [] && Settled(a + b, ByWords)
    ensures Sits(a[|a| - 1], Flatten(b), ByWords)
  {
    var n := |a| - 1;
    assert a + b == a[..n] + ([a[n]] + b);
    SettledCut(a[..n], [a[n]] + b, ByWords);
    assert ([a[n]] + b)[1..] == b;
  }

  // ---------------------------------------------------------------------------------------------
  // What is written
  // ---------------------------------------------------------------------------------------------

  /** A token has text, and starts with a blank only if it is one. */
  predicate Regular(toks: seq<Token>) {
    forall tok :: tok in toks ==> tok.text != "" && (IsBlank(tok.text[0]) ==> IsBlankToken(tok))
  }

  lemma {:induction false} LexRegular(t: string)
    ensures Regular(Lex(t, ByWords))
    decreases |t|
  {
    if t != "" {
      LexRegular(t[|Lead(t, ByWords).text|..]);
      LeadRegular(t);
      hide Lead, IsBlankToken, IsBlank;
    }
  }

  lemma LeadRegular(t: string)
    requires t != ""
    ensures var tok := Lead(t, ByWords); tok.text != "" && (IsBlank(tok.text[0]) ==> IsBlankToken(tok))
  {
    hide QuoteTail, PartTail, LineTail, BlockTail;
  }

  /** The last token as trimming leaves it. */
  function CutEnd(toks: seq<Token>): seq<Token> {
    if toks == [] then []
    else
      var n := |toks| - 1;
      toks[..n] + [toks[n].(text := TrimRight(toks[n].text))]
  }

  lemma TrimRightAppend(a: string, b: string)
    requires b != "" && !IsBlank(b[0])
    ensures TrimRight(a + b) == a + TrimRight(b) && TrimRight(b) != ""
    decreases |b|
  {
    var s := a + b;
    if IsBlank(b[|b| - 1]) {
      assert s[..|s| - 1] == a + b[..|b| - 1];
      TrimRightAppend(a, b[..|b| - 1]);
    }
  }

  /** Trimming a text on the right trims its tokens, and cuts the last one. */
  lemma {:induction false} TrimRightText(toks: seq<Token>)
    requires Regular(toks)
    ensures TrimRight(Flatten(toks)) == Flatten(CutEnd(TrimR(toks)))
    ensures Regular(TrimR(toks)) && Regular(CutEnd(TrimR(toks)))
  {
    if toks != [] {
      var n := |toks| - 1;
      var last := toks[n];
      FrontRegular(toks);
      assert toks == toks[..n] + [last];
      if IsBlankToken(last) {
        TrimRightText(toks[..n]);
        BlankLast(toks[..n], last);
        hide Flatten, Regular, CutEnd, TrimRight, IsBlankToken;
      } else {
        LastText(toks);
        LastTrimmed(toks[..n], last);
        RegularCut(toks[..n], last);
        hide Flatten, TrimRight, IsBlank, IsBlankToken, Regular;
      }
    }
  }

  lemma BlankLast(front: seq<Token>, last: Token)
    requires IsBlankToken(last)
    ensures TrimRight(Flatten(front + [last])) == TrimRight(Flatten(front))
  {
    FlattenSnoc(front, last);
    var text := Flatten(front + [last]);
    hide Flatten;
    assert text[..|text| - 1] == Flatten(front);
  }

  lemma RegularCut(front: seq<Token>, last: Token)
    requires Regular(front) && last.text != "" && !IsBlank(last.text[0])
    ensures Regular(front + [last.(text := TrimRight(last.text))])
  {
    TrimRightPrefix(last.text);
    hide TrimRight, IsBlank, IsBlankToken;
  }

  lemma LastTrimmed(front: seq<Token>, last: Token)
    requires last.text != "" && !IsBlank(last.text[0])
    ensures TrimRight(Flatten(front + [last])) == Flatten(front + [last.(text := TrimRight(last.text))])
  {
    hide Flatten, TrimRight, IsBlank;
    FlattenSnoc(front, last);
    FlattenSnoc(front, last.(text := TrimRight(last.text)));
    TrimRightAppend(Flatten(front), last.text);
  }

  lemma TrimRightPrefix(s: string)
    requires s != "" && !IsBlank(s[0])
    ensures TrimRight(s) != "" && TrimRight(s)[0] == s[0]
  {
    assert "" + s == s;
    TrimRightAppend("", s);
    hide TrimRight;
  }

  function WrittenPiece(p: seq<Token>): seq<Token> {
    if IsQualified(p) then NewTarget(p) + CutEnd(TrimR(RightOf(p))) else p
  }

  function Joined(pieces: seq<seq<Token>>): seq<Token> {
    if pieces == [] then []
    else if |pieces| == 1 then pieces[0]
    else pieces[0] + ([COMMA, SPACE] + Joined(pieces[1..]))
  }

  function AllKept(pieces: seq<seq<Token>>): (r: seq<seq<Token>>)
    ensures |r| == |pieces|
  {
    seq(|pieces|, i requires 0 <= i < |pieces| => KeptPiece(pieces[i]))
  }

  function AllWritten(pieces: seq<seq<Token>>): (r: seq<seq<Token>>)
    ensures |r| == |pieces|
  {
    seq(|pieces|, i requires 0 <= i < |pieces| => WrittenPiece(pieces[i]))
  }

  predicate PiecesOk(pieces: seq<seq<Token>>) {
    forall p :: p in pieces ==> Settled(p, ByWords) && Regular(p)
  }

  lemma SpaceText()
    ensures SPACE.text == " " && COMMA.text == "," && Regular([SPACE]) && Regular([COMMA, SPACE])
    ensures Flatten([COMMA, SPACE]) == ", " && !IsBlankToken(COMMA) && IsBlankToken(SPACE)
  {
    assert [COMMA, SPACE] == [COMMA] + [SPACE];
    FlattenSnoc([COMMA], SPACE);
    FlattenOne([COMMA]);
  }

  lemma RegularAppend(a: seq<Token>, b: seq<Token>)
    ensures Regular(a + b) <==> Regular(a) && Regular(b)
  {
    if Regular(a + b) {
      assert forall tok :: tok in a || tok in b ==> tok in a + b;
    }
  }

  lemma PathRegular(p: seq<Token>)
    ensures Regular(Path(p)) && Regular(NewTarget(p))
  {
    var x := TrimSpace(Flatten(LeftOf(p)));
    LexRegular(x);
    SpaceText();
    KeptRegular(Lex(x, ByWords), IsSpaceToken);
    hide Lex, LeftOf, TrimSpace;
  }

  lemma {:induction false} KeptRegular(toks: seq<Token>, drop: Token -> bool)
    requires Regular(toks)
    ensures Regular(Without(toks, drop))
  {
    if toks != [] {
      KeptRegular(toks[1..], drop);
    }
  }

  lemma RightRegular(p: seq<Token>)
    requires Regular(p) && HasEqual(p)
    ensures Regular(RightOf(p)) && RightOf(p) != [] && IsCode(RightOf(p)[0], '=')
  {
    FirstPiece(p, 0, '=');
    hide Pieces;
    assert forall tok :: tok in RightOf(p) ==> tok in p;
  }

  lemma WrittenRegular(p: seq<Token>)
    requires Regular(p)
    ensures Regular(WrittenPiece(p)) && Regular(KeptPiece(p))
  {
    hide Regular, NewTarget, RightOf, Path, HasEqual, NameCount, TrimR, CutEnd;
    if IsQualified(p) {
      PathRegular(p);
      RightRegular(p);
      TrimRightText(RightOf(p));
      RegularAppend(NewTarget(p), CutEnd(TrimR(RightOf(p))));
      RegularAppend(NewTarget(p), TrimR(RightOf(p)));
    }
  }

  /** The text of an assignment as it is written. */
  lemma PieceText(p: seq<Token>)
    requires Settled(p, ByWords) && Regular(p)
    ensures var item := Flatten(p);
            var target := AssignmentTarget(item);
            (if target.Some? then target.value else item) == Flatten(WrittenPiece(p))
  {
    var item := Flatten(p);
    Relex(p, ByWords);
    hide Lex, Settled, Regular, RightOf, Path, HasEqual, NameCount, TrimR, CutEnd, AssignmentTarget, TrimLeft, TrimRight;
    AssignmentTargetLex(item, p);
    if IsQualified(p) {
      var right := RightOf(p);
      RightRegular(p);
      TrimRightText(right);
      EqualStarts(right);
      FlattenAppend(NewTarget(p), CutEnd(TrimR(right)));
      TargetText(p);
    }
  }

  lemma TargetText(p: seq<Token>)
    requires Path(p) != []
    ensures Flatten(NewTarget(p)) == Path(p)[|Path(p)| - 1].text + " "
  {
    hide Path;
    var last := Path(p)[|Path(p)| - 1];
    assert [last, SPACE] == [last] + [SPACE];
    FlattenSnoc([last], SPACE);
    FlattenOne([last]);
  }

  lemma EqualStarts(right: seq<Token>)
    requires right != [] && IsCode(right[0], '=')
    ensures TrimLeft(Flatten(right)) == Flatten(right)
  {
  }

  lemma {:induction false} JoinText(items: seq<string>, pieces: seq<seq<Token>>)
    requires |items| == |pieces| && forall i :: 0 <= i < |items| ==> items[i] == Flatten(pieces[i])
    ensures Join(items, ", ") == Flatten(Joined(pieces))
  {
    if |pieces| > 1 {
      JoinText(items[1..], pieces[1..]);
      SpaceText();
      FlattenAppend(pieces[0], [COMMA, SPACE] + Joined(pieces[1..]));
      FlattenAppend([COMMA, SPACE], Joined(pieces[1..]));
      assert items[0] + ", " + Join(items[1..], ", ") == items[0] + (", " + Join(items[1..], ", "));
    }
  }

  lemma WrittenText(pieces: seq<seq<Token>>)
    requires PiecesOk(pieces)
    ensures Join(TranslateAll(Texts(pieces)), ", ") == Flatten(Joined(AllWritten(pieces)))
  {
    hide AssignmentTarget, WrittenPiece, Flatten;
    var items := Texts(pieces);
    forall i | 0 <= i < |pieces|
      ensures TranslateAll(items)[i] == Flatten(AllWritten(pieces)[i])
    {
      assert pieces[i] in pieces;
      PieceText(pieces[i]);
    }
    JoinText(TranslateAll(items), AllWritten(pieces));
  }

  lemma {:induction false} JoinedRegular(pieces: seq<seq<Token>>)
    requires forall p :: p in pieces ==> Regular(p)
    ensures Regular(Joined(pieces))
  {
    hide Regular;
    if pieces == [] {
      NothingRegular();
    } else if |pieces| > 1 {
      assert pieces[0] in pieces;
      JoinedRegular(pieces[1..]);
      SpaceText();
      RegularAppend([COMMA, SPACE], Joined(pieces[1..]));
      RegularAppend(pieces[0], [COMMA, SPACE] + Joined(pieces[1..]));
    } else {
      assert pieces[0] in pieces;
    }
  }

  lemma NothingRegular()
    ensures Regular([])
  {
  }

  lemma AllRegular(pieces: seq<seq<Token>>)
    requires PiecesOk(pieces)
    ensures Regular(Joined(AllKept(pieces))) && Regular(Joined(AllWritten(pieces)))
  {
    hide Regular, WrittenPiece, KeptPiece;
    forall i | 0 <= i < |pieces|
      ensures Regular(AllKept(pieces)[i]) && Regular(AllWritten(pieces)[i])
    {
      assert pieces[i] in pieces;
      WrittenRegular(pieces[i]);
    }
    JoinedRegular(AllKept(pieces));
    JoinedRegular(AllWritten(pieces));
  }

  /** The clause that is kept, and the clause as it is written: both ends trimmed. */
  function KeptClause(pieces: seq<seq<Token>>): seq<Token> {
    TrimR(TrimL(Joined(AllKept(pieces))))
  }

  function WrittenClause(pieces: seq<seq<Token>>): seq<Token> {
    CutEnd(TrimR(TrimL(Joined(AllWritten(pieces)))))
  }

  lemma {:induction false} TrimLRegular(toks: seq<Token>)
    requires Regular(toks)
    ensures Regular(TrimL(toks)) && TrimLeft(Flatten(toks)) == Flatten(TrimL(toks))
  {
    if toks != [] {
      assert toks[0] in toks;
      if IsBlankToken(toks[0]) {
        TrimLRegular(toks[1..]);
        assert Flatten(toks)[1..] == Flatten(toks[1..]);
        hide Flatten, Regular;
      }
    }
  }

  lemma ClauseText(pieces: seq<seq<Token>>)
    requires PiecesOk(pieces)
    ensures TrimSpace(Join(TranslateAll(Texts(pieces)), ", ")) == Flatten(WrittenClause(pieces))
    ensures Regular(WrittenClause(pieces)) && Regular(KeptClause(pieces))
  {
    hide Regular, AllWritten, AllKept, TrimL, TrimR, CutEnd, TranslateAll, Joined;
    WrittenText(pieces);
    AllRegular(pieces);
    TrimLRegular(Joined(AllWritten(pieces)));
    TrimRightText(TrimL(Joined(AllWritten(pieces))));
    TrimLRegular(Joined(AllKept(pieces)));
    TrimRightText(TrimL(Joined(AllKept(pieces))));
  }

  // ---------------------------------------------------------------------------------------------
  // The whole statement
  // ---------------------------------------------------------------------------------------------

  /** The tokens up to SET, the assignments between top-level commas, and the tokens from the first ending word on. */
  datatype Sides = NoSet | Sides(head: seq<Token>, pieces: seq<seq<Token>>, tail: seq<Token>)

  predicate EndsSetClause(upper: string) {
    upper == "WHERE" || upper == "ORDER" || upper == "LIMIT"
  }

  /** The tokens before the first word that ends a SET clause. */
  function ClauseCount(toks: seq<Token>): (n: nat)
    ensures n <= |toks|
    ensures n < |toks| ==> toks[n].kind == Word
  {
    if toks == [] || (toks[0].kind == Word && EndsSetClause(Upper(toks[0].text))) then 0 else 1 + ClauseCount(toks[1..])
  }

  function SetStart(t: string): (r: Option<nat>)
  {
    var update := Keyword(t, "UPDATE");
    if update.None? then None
    else Later(AfterWord(Lex(update.value, ByWords), "SET"), |t| - |update.value|)
  }

  function SidesAt(t: string, start: nat): (r: Sides)
    requires start <= |t|
    ensures r.Sides?
  {
    var toks := Lex(t[start..], ByWords);
    var n := ClauseCount(toks);
    Sides(Lex(t[..start], ByWords), Pieces(toks[..n], 0, ','), toks[n..])
  }

  lemma SetStartInside(t: string)
    ensures SetStart(t).Some? ==> SetStart(t).value <= |t|
  {
    var update := Keyword(t, "UPDATE");
    if update.Some? {
      FindSetFirst(update.value);
    }
  }

  function SidesOf(t: string): Sides {
    SetStartInside(t);
    if SetStart(t).None? then NoSet else SidesAt(t, SetStart(t).value)
  }

  /** There is a qualified target to rewrite. */
  predicate Changes(t: string) {
    SidesOf(t).Sides? && exists p :: p in SidesOf(t).pieces && IsQualified(p)
  }

  function WithBlank(toks: seq<Token>): seq<Token> {
    if toks == [] then [] else [SPACE] + toks
  }

  /** The statement's tokens with the qualifiers of the targets dropped, and blanks put in and trimmed. */
  function KeptTokens(t: string): seq<Token>
    requires Changes(t)
  {
    var s := SidesOf(t);
    s.head + ([SPACE] + (KeptClause(s.pieces) + WithBlank(s.tail)))
  }

  function WrittenTokens(t: string): seq<Token>
    requires Changes(t)
  {
    var s := SidesOf(t);
    s.head + ([SPACE] + (WrittenClause(s.pieces) + WithBlank(s.tail)))
  }

  lemma {:induction false} ClauseLenCount(toks: seq<Token>)
    ensures ClauseLen(toks) == |Flatten(toks[..ClauseCount(toks)])|
  {
    if toks != [] && ClauseCount(toks) > 0 {
      ClauseLenCount(toks[1..]);
      var n := ClauseCount(toks[1..]);
      assert toks[..n + 1] == [toks[0]] + toks[1..][..n];
      assert ([toks[0]] + toks[1..][..n])[1..] == toks[1..][..n];
    }
  }

  /** The clause and what follows it, by text. */
  lemma ClauseCut(t: string, start: nat)
    requires start <= |t|
    ensures var toks := Lex(t[start..], ByWords);
            var n, end := ClauseCount(toks), start + ClauseLen(toks);
            end <= |t| && Lex(t[start..end], ByWords) == toks[..n] && t[end..] == Flatten(toks[n..])
  {
    hide Lex, Flatten, ClauseCount, ClauseLen;
    ClauseCutFrom(t[start..]);
    SliceOf(t, start, ClauseLen(Lex(t[start..], ByWords)));
  }

  lemma ClauseCutFrom(u: string)
    ensures var toks := Lex(u, ByWords);
            var n, end := ClauseCount(toks), ClauseLen(toks);
            end <= |u| && Lex(u[..end], ByWords) == toks[..n] && u[end..] == Flatten(toks[n..])
  {
    hide Lex, Flatten, ClauseCount, ClauseLen;
    var toks := Lex(u, ByWords);
    ClauseLenCount(toks);
    CutAtToken(u, toks, ClauseCount(toks));
  }

  lemma CutAtToken(u: string, toks: seq<Token>, n: nat)
    requires Lex(u, ByWords) == toks && n <= |toks|
    ensures var end := |Flatten(toks[..n])|;
            end <= |u| && Lex(u[..end], ByWords) == toks[..n] && u[end..] == Flatten(toks[n..])
  {
    hide Lex, Flatten;
    assert toks == toks[..n] + toks[n..];
    CutAt(u, toks[..n], toks[n..]);
  }

  lemma SliceOf(t: string, start: nat, n: nat)
    requires start <= |t| && n <= |t[start..]|
    ensures t[start..start + n] == t[start..][..n] && t[start + n..] == t[start..][n..]
  {
  }

  /** The parts as the source cuts them. */
  lemma SidesText(t: string, start: nat)
    requires start <= |t|
    ensures var s := SidesAt(t, start);
            var end := start + ClauseLen(Lex(t[start..], ByWords));
            && end <= |t| && SplitList(t[start..end]) == Texts(s.pieces) && t[end..] == Flatten(s.tail) && PiecesOk(s.pieces)
  {
    hide Lex, Flatten, ClauseCount, ClauseLen, Pieces, PiecesOk;
    ClauseCut(t, start);
    var end := start + ClauseLen(Lex(t[start..], ByWords));
    PiecesWords(t[start..end], ',');
    PiecesFine(t[start..end]);
  }

  lemma PiecesFine(clause: string)
    ensures PiecesOk(Pieces(Lex(clause, ByWords), 0, ','))
  {
    var toks := Lex(clause, ByWords);
    LexSpells(clause, ByWords);
    LexRegular(clause);
    hide Lex;
    PiecesSettled(toks, 0, ',', ByWords);
    PiecesMembers(toks, 0, ',');
  }

  lemma {:induction false} PiecesMembers(toks: seq<Token>, depth: nat, sep: char)
    requires Regular(toks)
    ensures forall p :: p in Pieces(toks, depth, sep) ==> Regular(p)
  {
    if toks != [] {
      if IsCode(toks[0], sep) && depth == 0 {
        PiecesMembers(toks[1..], 0, sep);
      } else {
        PiecesMembers(toks[1..], DepthAfter(toks[0], depth), sep);
        var r := Pieces(toks[1..], DepthAfter(toks[0], depth), sep);
        assert r[0] in r;
      }
    }
  }

  /** There is a qualified target exactly when the source rewrites one. */
  lemma ChangesAny(pieces: seq<seq<Token>>)
    requires PiecesOk(pieces)
    ensures AnyQualified(Texts(pieces)) <==> exists p :: p in pieces && IsQualified(p)
  {
    hide AssignmentTarget, IsQualified, Settled, Regular;
    forall i | 0 <= i < |pieces|
      ensures AssignmentTarget(Texts(pieces)[i]).Some? <==> IsQualified(pieces[i])
    {
      assert pieces[i] in pieces;
      Relex(pieces[i], ByWords);
      AssignmentTargetLex(Flatten(pieces[i]), pieces[i]);
    }
  }

  lemma {:induction false} QualifiedNotBlank(pieces: seq<seq<Token>>, p: seq<Token>)
    requires p in pieces && IsQualified(p) && PiecesOk(pieces)
    ensures KeptClause(pieces) != [] && WrittenClause(pieces) != []
  {
    PathName(p);
    var name := Path(p)[|Path(p)| - 1];
    var kept, written := Joined(AllKept(pieces)), Joined(AllWritten(pieces));
    hide NewTarget, Path, IsQualified, Joined, CutEnd, NameCount, HasEqual;
    var i :| 0 <= i < |pieces| && pieces[i] == p;
    assert name in AllKept(pieces)[i] && name in AllWritten(pieces)[i];
    InJoined(AllKept(pieces), i, name);
    InJoined(AllWritten(pieces), i, name);
    NotTrimmed(kept, name);
    NotTrimmed(written, name);
  }

  lemma PathName(p: seq<Token>)
    requires IsQualified(p)
    ensures Path(p) != [] && !IsBlankToken(Path(p)[|Path(p)| - 1]) && Path(p)[|Path(p)| - 1] in NewTarget(p)
    ensures Path(p)[|Path(p)| - 1] in KeptPiece(p) && Path(p)[|Path(p)| - 1] in WrittenPiece(p)
  {
    LastName(Path(p));
    hide Path, RightOf, HasEqual, NameCount, TrimR, CutEnd;
    var name := Path(p)[|Path(p)| - 1];
    assert NewTarget(p)[0] == name;
    assert KeptPiece(p)[0] == name && WrittenPiece(p)[0] == name;
  }

  lemma {:induction false} InJoined(pieces: seq<seq<Token>>, i: nat, tok: Token)
    requires i < |pieces| && tok in pieces[i]
    ensures tok in Joined(pieces)
  {
    if |pieces| > 1 && i > 0 {
      InJoined(pieces[1..], i - 1, tok);
    }
  }

  lemma NotTrimmed(toks: seq<Token>, tok: Token)
    requires tok in toks && !IsBlankToken(tok)
    ensures tok in TrimL(toks) && tok in TrimR(TrimL(toks))
  {
    NotTrimmedL(toks, tok);
    NotTrimmedR(TrimL(toks), tok);
  }

  lemma {:induction false} NotTrimmedL(toks: seq<Token>, tok: Token)
    requires tok in toks && !IsBlankToken(tok)
    ensures tok in TrimL(toks)
  {
    if IsBlankToken(toks[0]) {
      NotTrimmedL(toks[1..], tok);
    }
  }

  lemma {:induction false} NotTrimmedR(toks: seq<Token>, tok: Token)
    requires tok in toks && !IsBlankToken(tok)
    ensures tok in TrimR(toks)
  {
    if IsBlankToken(toks[|toks| - 1]) {
      NotTrimmedR(toks[..|toks| - 1], tok);
    }
  }

  /** The ending word is no white space. */
  lemma TailStarts(t: string, start: nat)
    requires start <= |t|
    ensures var tail := SidesAt(t, start).tail;
            tail != [] ==> Flatten(tail) != "" && !IsSpace(Flatten(tail)[0]) && Settled(tail, ByWords)
  {
    var toks := Lex(t[start..], ByWords);
    var n := ClauseCount(toks);
    LexSpells(t[start..], ByWords);
    assert toks == toks[..n] + toks[n..];
    SettledCut(toks[..n], toks[n..], ByWords);
    if n < |toks| {
      WordNotSpace(toks[n], Flatten(toks[n..][1..]));
    }
  }

  lemma WordNotSpace(tok: Token, y: string)
    requires Sits(tok, y, ByWords) && tok.kind == Word
    ensures tok.text != "" && !IsSpace(tok.text[0])
  {
  }

  /** What the source writes, as tokens. */
  lemma SetTargetsText(t: string)
    ensures SetTargets(t) == if Changes(t) then Flatten(WrittenTokens(t)) else t
  {
    hide Lex, Flatten, ClauseCount, ClauseLen, Pieces, PiecesOk, Keyword, FindSet, AnyQualified, TranslateAll, WrittenClause, IsQualified,
         SplitList, Rebuilt, AfterWord;
    var update := Keyword(t, "UPDATE");
    if update.Some? {
      FindSetFirst(update.value);
      if FindSet(update.value).Some? {
        var start := |t| - |update.value| + FindSet(update.value).value;
        SidesText(t, start);
        ChangesAny(SidesAt(t, start).pieces);
        if Changes(t) {
          RebuiltText(t, start);
        }
      }
    }
  }

  lemma RebuiltText(t: string, start: nat)
    requires start <= |t|
    requires exists p :: p in SidesAt(t, start).pieces && IsQualified(p)
    ensures var s := SidesAt(t, start);
            Rebuilt(t[..start], TranslateAll(Texts(s.pieces)), Flatten(s.tail))
              == Flatten(s.head + ([SPACE] + (WrittenClause(s.pieces) + WithBlank(s.tail))))
  {
    SidesText(t, start);
    TailStarts(t, start);
    LexSpells(t[..start], ByWords);
    hide Lex, ClauseCount, ClauseLen, Pieces, TranslateAll, WrittenClause, KeptClause, IsQualified, TrimLeft, TrimRight, Settled;
    var s := SidesAt(t, start);
    var p :| p in s.pieces && IsQualified(p);
    ClauseText(s.pieces);
    QualifiedNotBlank(s.pieces, p);
    NotEmptyText(WrittenClause(s.pieces));
    FourTexts(s.head, WrittenClause(s.pieces), s.tail);
  }

  lemma NotEmptyText(toks: seq<Token>)
    requires Regular(toks) && toks != []
    ensures Flatten(toks) != ""
  {
    assert toks[0] in toks;
  }

  lemma FourTexts(head: seq<Token>, clause: seq<Token>, tail: seq<Token>)
    ensures Flatten(head + ([SPACE] + (clause + WithBlank(tail))))
         == Flatten(head) + " " + Flatten(clause) + if tail == [] then "" else " " + Flatten(tail)
  {
    SpaceText();
    FlattenAppend(head, [SPACE] + (clause + WithBlank(tail)));
    FlattenAppend([SPACE], clause + WithBlank(tail));
    FlattenAppend(clause, WithBlank(tail));
    FlattenAppend([SPACE], tail);
    FlattenOne([SPACE]);
    FlattenNone();
    hide Flatten;
    var a, c, d := Flatten(head), Flatten(clause), Flatten(WithBlank(tail));
    assert a + (" " + (c + d)) == a + " " + c + d;
  }

  // ---------------------------------------------------------------------------------------------
  // The kept tokens are read back
  // ---------------------------------------------------------------------------------------------

  /** Tokens that a blank or a comma may follow. */
  predicate Firm(toks: seq<Token>) {
    Settled(toks, ByWords) && (toks != [] ==> Sits(toks[|toks| - 1], " ", ByWords))
  }

  /** A token that may be followed by a blank may be followed by a comma. */
  lemma SitsComma(tok: Token, y: string)
    requires Sits(tok, " ", ByWords) && y != "" && y[0] == ','
    ensures Sits(tok, y, ByWords)
  {
    var x := tok.text;
    TailAfterFirst(x, " ", y);
    hide QuoteTail, ClosedBody, LineTail, BlockTail, PartTail;
    match tok.kind
    case Quoted =>
      ShortSpanIsClosed(x[1..], " ", x[0]);
      ClosedBodyEnds(x[1..], y, x[0]);
    case Comment => CommentLocal(x, " ", y, false);
    case Word =>
      CommaNoComment(x, y);
      PartTailLocal(x[1..], " ", y);
    case Code => CommaNoComment(x, y);
  }

  lemma CommaNoComment(x: string, y: string)
    requires x != "" && CommentLen(x + " ", false) == 0 && y != "" && y[0] == ','
    ensures CommentLen(x + y, false) == 0
  {
    assert (x + " ")[0] == (x + y)[0] == x[0];
    assert |x| > 1 ==> (x + " ")[1] == (x + y)[1] == x[1];
    assert |x| == 1 ==> (x + y)[1] == y[0];
  }

  lemma {:induction false} SettledJoin(a: seq<Token>, b: seq<Token>)
    requires Settled(a, ByWords) && Settled(b, ByWords) && (a != [] && b != [] ==> Sits(a[|a| - 1], Flatten(b), ByWords))
    ensures Settled(a + b, ByWords)
  {
    hide Sits, Flatten;
    if a == [] {
      assert a + b == b;
    } else if b == [] {
      assert a + b == a;
    } else {
      SettledJoin(a[1..], b);
      assert a + b == [a[0]] + (a[1..] + b);
      if |a| == 1 {
        assert a[1..] + b == b;
      } else {
        FirstNotEmpty(a[1..]);
        FlattenAppend(a[1..], b);
        SitsNext(a[0], Flatten(a[1..]), Flatten(a[1..] + b), ByWords);
      }
      SettledCons(a[0], a[1..] + b);
    }
  }

  lemma FirmBefore(a: seq<Token>, b: seq<Token>)
    requires Firm(a) && Settled(b, ByWords) && (b != [] ==> Flatten(b) != "" && Flatten(b)[0] in " ,")
    ensures Settled(a + b, ByWords) && (Firm(b) ==> Firm(a + b))
  {
    hide Sits, Settled, Flatten;
    if a != [] && b != [] {
      var tok := a[|a| - 1];
      if Flatten(b)[0] == ',' {
        SitsComma(tok, Flatten(b));
      } else {
        SitsNext(tok, " ", Flatten(b), ByWords);
      }
    }
    SettledJoin(a, b);
    assert b == [] ==> a + b == a;
    assert b != [] ==> (a + b)[|a + b| - 1] == b[|b| - 1];
  }

  lemma SpaceThen(b: seq<Token>)
    requires Settled(b, ByWords)
    ensures Settled([SPACE] + b, ByWords) && Flatten([SPACE] + b) == " " + Flatten(b) && (Firm(b) ==> Firm([SPACE] + b))
  {
    CodeSits(' ', Flatten(b));
    CodeSits(' ', " ");
    SettledCons(SPACE, b);
  }

  lemma CommaThen(b: seq<Token>)
    requires Settled(b, ByWords)
    ensures Settled([COMMA, SPACE] + b, ByWords) && Flatten([COMMA, SPACE] + b) == ", " + Flatten(b) && (Firm(b) ==> Firm([COMMA, SPACE] + b))
  {
    SpaceThen(b);
    hide Flatten, Settled, Sits;
    var spaced := [SPACE] + b;
    CodeSits(',', Flatten(spaced));
    SettledCons(COMMA, spaced);
    assert [COMMA] + spaced == [COMMA, SPACE] + b;
    assert "," + (" " + Flatten(b)) == ", " + Flatten(b);
  }

  lemma {:induction false} JoinedFirm(pieces: seq<seq<Token>>)
    requires pieces != [] && (forall i :: 0 <= i < |pieces| - 1 ==> Firm(pieces[i])) && Settled(pieces[|pieces| - 1], ByWords)
    ensures Settled(Joined(pieces), ByWords) && (Firm(pieces[|pieces| - 1]) ==> Firm(Joined(pieces)))
  {
    hide Settled, Sits;
    if |pieces| > 1 {
      var later := Joined(pieces[1..]);
      assert forall i :: 0 <= i < |pieces[1..]| - 1 ==> Firm(pieces[1..][i]) by {
        assert forall i :: 0 <= i < |pieces[1..]| - 1 ==> pieces[1..][i] == pieces[i + 1];
      }
      JoinedFirm(pieces[1..]);
      hide Flatten, Firm;
      CommaThen(later);
      FirmBefore(pieces[0], [COMMA, SPACE] + later);
    }
  }

  lemma {:induction false} TrimLCut(toks: seq<Token>) returns (gap: seq<Token>)
    ensures toks == gap + TrimL(toks)
  {
    gap := [];
    if toks != [] && IsBlankToken(toks[0]) {
      var later := TrimLCut(toks[1..]);
      assert TrimL(toks) == TrimL(toks[1..]);
      hide TrimL, IsBlankToken;
      gap := [toks[0]] + later;
      GapGrows(toks, later, TrimL(toks[1..]));
    }
  }

  lemma GapGrows(toks: seq<Token>, gap: seq<Token>, rest: seq<Token>)
    requires toks != [] && toks[1..] == gap + rest
    ensures toks == ([toks[0]] + gap) + rest
  {
    assert toks == [toks[0]] + toks[1..];
  }

  lemma {:induction false} TrimRCut(toks: seq<Token>) returns (gap: seq<Token>)
    ensures toks == TrimR(toks) + gap && AllBlank(gap)
  {
    gap := [];
    if toks != [] && IsBlankToken(toks[|toks| - 1]) {
      var n := |toks| - 1;
      gap := TrimRCut(toks[..n]);
      gap := gap + [toks[n]];
      assert toks == toks[..n] + [toks[n]];
    }
  }

  lemma TrimLFirm(toks: seq<Token>)
    requires Settled(toks, ByWords)
    ensures Settled(TrimL(toks), ByWords) && (Firm(toks) ==> Firm(TrimL(toks)))
  {
    hide Sits, Settled;
    var gap := TrimLCut(toks);
    SettledCut(gap, TrimL(toks), ByWords);
    assert TrimL(toks) != [] ==> toks[|toks| - 1] == TrimL(toks)[|TrimL(toks)| - 1];
  }

  lemma TrimRFirm(toks: seq<Token>)
    requires Settled(toks, ByWords)
    ensures Settled(TrimR(toks), ByWords) && (Firm(toks) ==> Firm(TrimR(toks)))
  {
    var gap := TrimRCut(toks);
    hide Sits, Settled, TrimR;
    SettledCut(TrimR(toks), gap, ByWords);
    if gap == [] {
      assert TrimR(toks) + gap == TrimR(toks);
    } else if TrimR(toks) != [] {
      Followed(TrimR(toks), gap);
    }
  }

  /** A token that another one follows may be followed by a blank. */
  lemma Followed(a: seq<Token>, b: seq<Token>)
    requires a != [] && b != [] && Settled(a + b, ByWords)
    ensures Sits(a[|a| - 1], " ", ByWords)
  {
    hide Sits, Settled, Flatten;
    LastSitsBefore(a, b);
    SettledCut(a, b, ByWords);
    FirstNotEmpty(b);
    SitsNext(a[|a| - 1], Flatten(b), " ", ByWords);
  }

  lemma {:induction false} MemberFollowed(a: seq<Token>, tok: Token, b: seq<Token>)
    requires tok in a && b != [] && Settled(a + b, ByWords)
    ensures Sits(tok, " ", ByWords)
  {
    hide Sits, Settled;
    var i :| 0 <= i < |a| && a[i] == tok;
    assert a + b == a[..i + 1] + (a[i + 1..] + b);
    Followed(a[..i + 1], a[i + 1..] + b);
  }

  lemma {:induction false} WithoutIn(toks: seq<Token>, drop: Token -> bool)
    ensures forall tok :: tok in Without(toks, drop) ==> tok in toks
  {
    if toks != [] {
      WithoutIn(toks[1..], drop);
    }
  }

  lemma KeptPieceFirm(p: seq<Token>)
    requires Settled(p, ByWords) && Regular(p)
    ensures Settled(KeptPiece(p), ByWords) && (Firm(p) ==> Firm(KeptPiece(p)))
  {
    hide Sits, Settled, Path, RightOf, LeftOf, HasEqual, NameCount, TrimR, Firm, Regular;
    if IsQualified(p) {
      NewTargetFirm(p);
      RightFirm(p);
      TrimRFirm(RightOf(p));
      SpaceBefore(p);
    }
  }

  /** The rewritten target, in front of what is kept of the rest. */
  lemma SpaceBefore(p: seq<Token>)
    requires Path(p) != [] && Firm([Path(p)[|Path(p)| - 1]]) && Settled(TrimR(RightOf(p)), ByWords)
    ensures var kept := NewTarget(p) + TrimR(RightOf(p));
            Settled(kept, ByWords) && (Firm(TrimR(RightOf(p))) ==> Firm(kept))
  {
    hide Sits, Settled, Path, RightOf, TrimR, Flatten, Firm;
    var name, right := [Path(p)[|Path(p)| - 1]], TrimR(RightOf(p));
    SpaceThen(right);
    assert NewTarget(p) + right == name + ([SPACE] + right);
    FirmBefore(name, [SPACE] + right);
  }

  lemma NewTargetFirm(p: seq<Token>)
    requires Settled(p, ByWords) && Regular(p) && IsQualified(p)
    ensures Path(p) != [] && Firm([Path(p)[|Path(p)| - 1]])
  {
    PathName(p);
    TargetTokens(p);
    BothSides(p);
    RightRegular(p);
    WithoutIn(LeftOf(p), IsBlankToken);
    var name := Path(p)[|Path(p)| - 1];
    hide Path, RightOf, LeftOf, HasEqual, NameCount, Sits;
    MemberFollowed(LeftOf(p), name, RightOf(p));
    MemberSettled(LeftOf(p) + RightOf(p), name);
  }

  lemma MemberSettled(toks: seq<Token>, tok: Token)
    requires Settled(toks, ByWords) && tok in toks
    ensures Settled([tok], ByWords)
  {
    hide Sits, Settled;
    var i :| 0 <= i < |toks| && toks[i] == tok;
    assert toks == toks[..i] + ([tok] + toks[i + 1..]);
    SettledCut(toks[..i], [tok] + toks[i + 1..], ByWords);
    SettledCut([tok], toks[i + 1..], ByWords);
  }

  lemma RightFirm(p: seq<Token>)
    requires Settled(p, ByWords) && Regular(p) && HasEqual(p)
    ensures Settled(RightOf(p), ByWords) && (Firm(p) ==> Firm(RightOf(p)))
  {
    BothSides(p);
    RightRegular(p);
    hide RightOf, LeftOf, HasEqual, Sits, Settled, Regular;
    SettledCut(LeftOf(p), RightOf(p), ByWords);
    assert p[|p| - 1] == RightOf(p)[|RightOf(p)| - 1];
  }

  /** All pieces but the last are followed by a comma. */
  lemma {:induction false} PiecesFirm(toks: seq<Token>, depth: nat, sep: char)
    requires Settled(toks, ByWords)
    ensures AllFirm(Pieces(toks, depth, sep), Firm(toks))
  {
    hide Sits, AllFirm;
    if toks == [] {
      FirmLast(toks, Firm(toks));
    } else {
      var tok, later := toks[0], toks[1..];
      assert toks == [tok] + later;
      SettledCut([tok], later, ByWords);
      if IsCode(tok, sep) && depth == 0 {
        PiecesFirm(later, 0, sep);
        FirmTail(toks);
        NothingFirm(Pieces(later, 0, sep), Firm(later), Firm(toks));
      } else {
        var depth' := DepthAfter(tok, depth);
        PiecesFirm(later, depth', sep);
        FirmTail(toks);
        FirstPiece(later, depth', sep);
        var r := Pieces(later, depth', sep);
        hide Pieces, Settled, Firm;
        FirstFirm(tok, later, r[0], |r| > 1);
        FirmFirst([tok] + r[0], r, Firm(later), Firm(toks));
      }
    }
  }

  /** All pieces but the last may be followed by a blank, and the last one if the whole may. */
  predicate AllFirm(r: seq<seq<Token>>, whole: bool)
    requires r != []
  {
    && (forall i :: 0 <= i < |r| - 1 ==> Firm(r[i])) && Settled(r[|r| - 1], ByWords)
    && (whole ==> Firm(r[|r| - 1]))
  }

  lemma FirmLast(toks: seq<Token>, whole: bool)
    requires Settled(toks, ByWords) && (whole ==> Firm(toks))
    ensures AllFirm([toks], whole)
  {
  }

  lemma NothingFirm(r: seq<seq<Token>>, whole: bool, wider: bool)
    requires r != [] && AllFirm(r, whole) && (wider ==> whole)
    ensures AllFirm([[]] + r, wider)
  {
    hide Sits;
    assert Firm([]);
    hide Firm, Settled;
  }

  lemma FirmFirst(first: seq<Token>, r: seq<seq<Token>>, whole: bool, wider: bool)
    requires r != [] && AllFirm(r, whole) && (wider ==> whole) && Settled(first, ByWords)
    requires |r| > 1 || wider ==> Firm(first)
    ensures AllFirm([first] + r[1..], wider)
  {
    hide Firm, Settled;
  }

  lemma FirmTail(toks: seq<Token>)
    requires toks != []
    ensures Firm(toks) ==> Firm(toks[1..])
  {
    hide Sits;
  }

  lemma FirstFirm(tok: Token, later: seq<Token>, first: seq<Token>, more: bool)
    requires Settled([tok] + later, ByWords) && first <= later && (more <==> |first| < |later|)
    ensures Settled([tok] + first, ByWords) && (more ==> Firm([tok] + first)) && (!more ==> first == later)
  {
    hide Sits, Settled;
    var rest := later[|first|..];
    assert [tok] + later == ([tok] + first) + rest;
    SettledCut([tok] + first, rest, ByWords);
    if more {
      Followed([tok] + first, rest);
    }
  }

  lemma {:induction false} AfterWordCut(toks: seq<Token>, word: string) returns (k: nat)
    requires AfterWord(toks, word).Some?
    ensures 0 < k <= |toks| && |Flatten(toks[..k])| == AfterWord(toks, word).value && IsKeyword(toks[k - 1], word)
  {
    hide IsKeyword;
    if IsKeyword(toks[0], word) {
      k := 1;
      FlattenOne(toks[..1]);
    } else {
      k := AfterWordCut(toks[1..], word);
      assert toks[..k + 1] == [toks[0]] + toks[1..][..k];
      assert ([toks[0]] + toks[1..][..k])[1..] == toks[1..][..k];
      k := k + 1;
    }
  }

  lemma KeywordCut(t: string, word: string) returns (front: seq<Token>)
    requires Keyword(t, word).Some?
    ensures Lex(t, ByWords) == front + Lex(Keyword(t, word).value, ByWords)
  {
    var gap := SpacesLex(t);
    KeywordLex(t, word);
    hide Lex, Keyword, SkipSpaces, IsKeyword;
    var toks := Lex(SkipSpaces(t), ByWords);
    front := gap + [toks[0]];
    assert toks == [toks[0]] + toks[1..];
    assert gap + ([toks[0]] + toks[1..]) == front + toks[1..];
  }

  predicate CutBehindWord(t: string, start: nat) {
    && start <= |t| && Lex(t, ByWords) == Lex(t[..start], ByWords) + Lex(t[start..], ByWords)
    && Lex(t[..start], ByWords) != [] && Lex(t[..start], ByWords)[|Lex(t[..start], ByWords)| - 1].kind == Word
  }

  lemma CutBehind(t: string, head: seq<Token>, tail: seq<Token>)
    requires Lex(t, ByWords) == head + tail && head != [] && head[|head| - 1].kind == Word
    ensures CutBehindWord(t, |Flatten(head)|)
  {
    hide Lex, Flatten;
    CutAt(t, head, tail);
  }

  /** The text up to SET is cut off between tokens, behind a word. */
  lemma HeadLex(t: string)
    requires SetStart(t).Some?
    ensures CutBehindWord(t, SetStart(t).value)
  {
    hide Lex, Keyword, Flatten, AfterWord, Settled, CutBehindWord, IsKeyword;
    var update := Keyword(t, "UPDATE").value;
    var front := KeywordCut(t, "UPDATE");
    var toks := Lex(update, ByWords);
    var k := AfterWordCut(toks, "SET");
    SetWord(toks[k - 1]);
    assert toks == toks[..k] + toks[k..];
    var head := front + toks[..k];
    assert front + toks == head + toks[k..];
    CutBehind(t, head, toks[k..]);
    HeadLength(t, update, front, toks[..k]);
  }

  lemma SetWord(tok: Token)
    requires IsKeyword(tok, "SET")
    ensures tok.kind == Word
  {
  }

  lemma HeadLength(t: string, update: string, front: seq<Token>, part: seq<Token>)
    requires Lex(t, ByWords) == front + Lex(update, ByWords)
    ensures |Flatten(front + part)| == |t| - |update| + |Flatten(part)|
  {
    LexSpells(t, ByWords);
    LexSpells(update, ByWords);
    FlattenAppend(front, part);
    FlattenAppend(front, Lex(update, ByWords));
    hide Lex, Settled, Flatten;
  }

  lemma WordClosed(tok: Token, y: string)
    requires Sits(tok, y, ByWords) && tok.kind == Word
    ensures Sits(tok, " ", ByWords)
  {
    if y != "" {
      hide Sits;
      SitsNext(tok, y, " ", ByWords);
    } else {
      var x := tok.text;
      assert x + "" == x && (x + " ")[1..] == x[1..] + " ";
      NoCommentAhead(x, " ");
      assert x[1..] + "" == x[1..];
      PartTailLocal(x[1..], "", " ");
      assert (x + " ")[..|x|] == x;
    }
  }

  lemma HeadFirm(toks: seq<Token>)
    requires Settled(toks, ByWords) && toks != [] && toks[|toks| - 1].kind == Word
    ensures Firm(toks)
  {
    var n := |toks| - 1;
    LastAtEnd(toks);
    WordClosed(toks[n], "");
    hide Sits, Settled;
  }

  lemma LastAtEnd(toks: seq<Token>)
    requires Settled(toks, ByWords) && toks != []
    ensures Sits(toks[|toks| - 1], "", ByWords)
  {
    hide Sits, Settled;
    var n := |toks| - 1;
    assert toks == toks[..n] + [toks[n]];
    SettledCut(toks[..n], [toks[n]], ByWords);
    OnlyOne(toks[n]);
  }

  /** The pieces of the clause in front of the tail. */
  lemma ClauseFirm(t: string, start: nat)
    requires start <= |t|
    ensures var s := SidesAt(t, start);
            && s.pieces != [] && PiecesOk(s.pieces)
            && (forall i :: 0 <= i < |s.pieces| - 1 ==> Firm(s.pieces[i]))
            && (s.tail != [] ==> Firm(s.pieces[|s.pieces| - 1]))
  {
    var toks := Lex(t[start..], ByWords);
    LexSpells(t[start..], ByWords);
    SidesText(t, start);
    hide Lex, Pieces, PiecesOk, Sits, Settled;
    var n := ClauseCount(toks);
    var clause, tail := toks[..n], toks[n..];
    assert toks == clause + tail;
    SettledCut(clause, tail, ByWords);
    PiecesFirm(clause, 0, ',');
    if tail != [] && clause != [] {
      Followed(clause, tail);
    }
  }

  lemma KeptClauseFirm(pieces: seq<seq<Token>>)
    requires pieces != [] && PiecesOk(pieces) && forall i :: 0 <= i < |pieces| - 1 ==> Firm(pieces[i])
    ensures Settled(KeptClause(pieces), ByWords) && (Firm(pieces[|pieces| - 1]) ==> Firm(KeptClause(pieces)))
  {
    hide Settled, KeptPiece, Joined, TrimL, TrimR, Firm, Regular;
    forall i | 0 <= i < |pieces|
      ensures Settled(AllKept(pieces)[i], ByWords) && (Firm(pieces[i]) ==> Firm(AllKept(pieces)[i]))
    {
      assert pieces[i] in pieces;
      KeptPieceFirm(pieces[i]);
    }
    JoinedFirm(AllKept(pieces));
    TrimLFirm(Joined(AllKept(pieces)));
    TrimRFirm(TrimL(Joined(AllKept(pieces))));
  }

  /** The kept tokens are read back as they are. */
  lemma KeptSettled(t: string)
    requires Changes(t)
    ensures Lex(Flatten(KeptTokens(t)), ByWords) == KeptTokens(t)
  {
    hide Lex, Settled, KeptClause, SidesAt, Flatten, IsQualified, SetStart, CutBehindWord;
    HeadLex(t);
    SidesSettled(t, SetStart(t).value);
    Relex(KeptTokens(t), ByWords);
  }

  lemma SidesSettled(t: string, start: nat)
    requires CutBehindWord(t, start)
    ensures var s := SidesAt(t, start); Settled(s.head + ([SPACE] + (KeptClause(s.pieces) + WithBlank(s.tail))), ByWords)
  {
    hide Lex, Settled, KeptClause, SidesAt, Flatten, Firm, PiecesOk;
    var s := SidesAt(t, start);
    HeadSettled(t, start);
    ClauseFirm(t, start);
    TailStarts(t, start);
    NothingSettled();
    KeptClauseFirm(s.pieces);
    FourSettled(s.head, KeptClause(s.pieces), s.tail);
  }

  lemma HeadSettled(t: string, start: nat)
    requires CutBehindWord(t, start)
    ensures Firm(SidesAt(t, start).head)
  {
    LexSpells(t[..start], ByWords);
    hide Lex, Settled, Firm, Pieces, ClauseCount;
    HeadFirm(Lex(t[..start], ByWords));
  }

  lemma FourSettled(head: seq<Token>, clause: seq<Token>, tail: seq<Token>)
    requires Firm(head) && Settled(clause, ByWords) && Settled(tail, ByWords) && (tail != [] ==> Firm(clause))
    ensures Settled(head + ([SPACE] + (clause + WithBlank(tail))), ByWords)
  {
    hide Settled, Sits, Flatten, Firm;
    if tail == [] {
      assert clause + WithBlank(tail) == clause;
    } else {
      SpaceThen(tail);
      FirmBefore(clause, WithBlank(tail));
    }
    SpaceThen(clause + WithBlank(tail));
    FirmBefore(head, [SPACE] + (clause + WithBlank(tail)));
  }

  // ---------------------------------------------------------------------------------------------
  // When the kept tokens are what is written
  // ---------------------------------------------------------------------------------------------

  /** The tokens of `b`, some of them cut short. */
  predicate CutShort(a: seq<Token>, b: seq<Token>) {
    |a| == |b| && forall i :: 0 <= i < |a| ==> a[i].kind == b[i].kind && a[i].text <= b[i].text && a[i].text != ""
  }

  lemma {:induction false} CutShortText(a: seq<Token>, b: seq<Token>)
    requires CutShort(a, b)
    ensures |Flatten(a)| <= |Flatten(b)| && (|Flatten(a)| == |Flatten(b)| <==> a == b)
  {
    if a != [] {
      CutShortText(a[1..], b[1..]);
      assert a[0].text <= b[0].text && (|a[0].text| == |b[0].text| <==> a[0].text == b[0].text);
      assert a == [a[0]] + a[1..] && b == [b[0]] + b[1..];
    }
  }

  lemma CutShortSame(a: seq<Token>)
    requires Regular(a)
    ensures CutShort(a, a)
  {
  }

  lemma CutShortAppend(a: seq<Token>, b: seq<Token>, x: seq<Token>, y: seq<Token>)
    requires CutShort(a, b) && CutShort(x, y)
    ensures CutShort(a + x, b + y) && (a + x == b + y <==> a == b && x == y)
  {
    if a + x == b + y {
      assert a == (a + x)[..|a|] && b == (b + y)[..|b|] && x == (a + x)[|a|..] && y == (b + y)[|b|..];
    }
  }

  lemma CutEndShort(toks: seq<Token>)
    requires Regular(toks) && (toks != [] ==> !IsBlankToken(toks[|toks| - 1]))
    ensures CutShort(CutEnd(toks), toks)
    ensures CutEnd(toks) == toks <==> toks == [] || !IsBlank(toks[|toks| - 1].text[|toks[|toks| - 1].text| - 1])
  {
    if toks != [] {
      var n := |toks| - 1;
      var last := toks[n];
      var cut := last.(text := TrimRight(last.text));
      LastText(toks);
      CutShortLast(last);
      FrontRegular(toks);
      hide TrimRight, IsBlank, IsBlankToken, Regular, CutShort;
      CutShortSame(toks[..n]);
      assert toks == toks[..n] + [last] && CutEnd(toks) == toks[..n] + [cut];
      CutShortAppend(toks[..n], toks[..n], [cut], [last]);
    }
  }

  lemma CutShortLast(last: Token)
    requires last.text != "" && !IsBlank(last.text[0])
    ensures var cut := last.(text := TrimRight(last.text));
            CutShort([cut], [last]) && ([cut] == [last] <==> !IsBlank(last.text[|last.text| - 1]))
  {
    TrimRightPrefix(last.text);
    TrimRightShorter(last.text);
    hide TrimRight, IsBlank;
    var cut := last.(text := TrimRight(last.text));
    assert [cut][0] == cut && [last][0] == last;
  }

  lemma LastText(toks: seq<Token>)
    requires Regular(toks) && toks != [] && !IsBlankToken(toks[|toks| - 1])
    ensures toks[|toks| - 1].text != "" && !IsBlank(toks[|toks| - 1].text[0])
  {
    assert toks[|toks| - 1] in toks;
  }

  lemma FrontRegular(toks: seq<Token>)
    requires Regular(toks) && toks != []
    ensures Regular(toks[..|toks| - 1]) && Regular(toks[1..])
  {
    assert forall tok :: tok in toks[..|toks| - 1] || tok in toks[1..] ==> tok in toks;
  }

  lemma CutBlank(a: Token, b: Token)
    requires a.kind == b.kind && a.text <= b.text && a.text != "" && (IsBlank(b.text[0]) ==> IsBlankToken(b))
    ensures IsBlankToken(a) <==> IsBlankToken(b)
    ensures IsBlankToken(b) ==> a == b
  {
    assert a.text[0] == b.text[0];
    if IsBlankToken(b) {
      assert a.text == b.text;
    }
  }

  /** The parts of two such lists, and their first and last tokens. */
  lemma CutShortParts(a: seq<Token>, b: seq<Token>)
    requires CutShort(a, b) && Regular(b) && a != []
    ensures var n := |a| - 1;
            && |b| == n + 1 && CutShort(a[1..], b[1..]) && CutShort(a[..n], b[..n])
            && (IsBlankToken(a[0]) <==> IsBlankToken(b[0])) && (IsBlankToken(b[0]) ==> a[0] == b[0])
            && (IsBlankToken(a[n]) <==> IsBlankToken(b[n])) && (IsBlankToken(b[n]) ==> a[n] == b[n])
  {
    var n := |a| - 1;
    assert b[0] in b && b[n] in b;
    hide IsBlank, IsBlankToken;
    CutBlank(a[0], b[0]);
    CutBlank(a[n], b[n]);
  }

  lemma SameFirst(a: seq<Token>, b: seq<Token>)
    requires |a| == |b| > 0
    ensures a[0] == b[0] ==> (a == b <==> a[1..] == b[1..])
    ensures a[|a| - 1] == b[|b| - 1] ==> (a == b <==> a[..|a| - 1] == b[..|b| - 1])
  {
    assert a == [a[0]] + a[1..] && b == [b[0]] + b[1..];
    assert a == a[..|a| - 1] + [a[|a| - 1]] && b == b[..|b| - 1] + [b[|b| - 1]];
  }

  lemma {:induction false} CutShortTrimL(a: seq<Token>, b: seq<Token>)
    requires CutShort(a, b) && Regular(b)
    ensures CutShort(TrimL(a), TrimL(b)) && (TrimL(a) == TrimL(b) <==> a == b)
  {
    if a != [] {
      CutShortParts(a, b);
      FrontRegular(b);
      hide IsBlankToken, Regular, CutShort;
      if IsBlankToken(b[0]) {
        CutShortTrimL(a[1..], b[1..]);
        SameFirst(a, b);
      }
    }
  }

  lemma {:induction false} CutShortTrimR(a: seq<Token>, b: seq<Token>)
    requires CutShort(a, b) && Regular(b)
    ensures CutShort(TrimR(a), TrimR(b)) && (TrimR(a) == TrimR(b) <==> a == b)
  {
    if a != [] {
      CutShortParts(a, b);
      FrontRegular(b);
      hide IsBlankToken, Regular, CutShort;
      if IsBlankToken(b[|b| - 1]) {
        CutShortTrimR(a[..|a| - 1], b[..|b| - 1]);
        SameFirst(a, b);
      }
    }
  }

  lemma {:induction false} TrimREnds(toks: seq<Token>)
    ensures TrimR(toks) != [] ==> !IsBlankToken(TrimR(toks)[|TrimR(toks)| - 1])
  {
    if toks != [] && IsBlankToken(toks[|toks| - 1]) {
      TrimREnds(toks[..|toks| - 1]);
    }
  }

  /** A trimmed list ends cleanly exactly when nothing is cut from it. */
  lemma TrimmedCut(toks: seq<Token>)
    requires Regular(toks)
    ensures CutShort(CutEnd(TrimR(toks)), TrimR(toks)) && (CutEnd(TrimR(toks)) == TrimR(toks) <==> EndsClean(toks))
  {
    TrimRightText(toks);
    TrimREnds(toks);
    hide IsBlank, IsBlankToken, TrimR, CutEnd;
    var r := TrimR(toks);
    CutEndShort(r);
    assert r != [] ==> r[|r| - 1] in r;
  }

  lemma PieceShort(p: seq<Token>)
    requires Regular(p)
    ensures CutShort(WrittenPiece(p), KeptPiece(p))
    ensures WrittenPiece(p) == KeptPiece(p) <==> (IsQualified(p) ==> EndsClean(p))
  {
    hide Regular, NewTarget, RightOf, Path, HasEqual, NameCount, TrimR, CutEnd, EndsClean, CutShort;
    if IsQualified(p) {
      PathRegular(p);
      RightRegular(p);
      TrimmedCut(RightOf(p));
      CutShortSame(NewTarget(p));
      CutShortAppend(NewTarget(p), NewTarget(p), CutEnd(TrimR(RightOf(p))), TrimR(RightOf(p)));
      RightEndsClean(p);
    } else {
      CutShortSame(p);
    }
  }

  lemma {:induction false} TrimRAppend(a: seq<Token>, b: seq<Token>)
    ensures TrimR(b) != [] ==> TrimR(a + b) == a + TrimR(b)
    ensures TrimR(b) == [] ==> TrimR(a + b) == TrimR(a)
  {
    hide IsBlankToken;
    if b == [] {
      assert a + b == a;
    } else {
      var n := |b| - 1;
      assert (a + b)[|a + b| - 1] == b[n];
      if IsBlankToken(b[n]) {
        assert (a + b)[..|a + b| - 1] == a + b[..n];
        TrimRAppend(a, b[..n]);
      }
    }
  }

  lemma EndsCleanAppend(a: seq<Token>, b: seq<Token>)
    ensures TrimR(b) != [] ==> EndsClean(a + b) == EndsClean(b)
    ensures TrimR(b) == [] ==> EndsClean(a + b) == EndsClean(a)
  {
    TrimRAppend(a, b);
    hide TrimR, IsBlank;
    assert TrimR(b) != [] ==> (a + TrimR(b))[|a + TrimR(b)| - 1] == TrimR(b)[|TrimR(b)| - 1];
  }

  lemma {:induction false} NotAllTrimmed(toks: seq<Token>)
    requires toks != [] && !IsBlankToken(toks[0])
    ensures TrimR(toks) != []
  {
    NotTrimmedR(toks, toks[0]);
  }

  lemma RightEndsClean(p: seq<Token>)
    requires Regular(p) && HasEqual(p)
    ensures EndsClean(RightOf(p)) == EndsClean(p)
  {
    BothSides(p);
    RightRegular(p);
    hide RightOf, LeftOf, HasEqual, EndsClean, TrimR;
    NotAllTrimmed(RightOf(p));
    EndsCleanAppend(LeftOf(p), RightOf(p));
  }

  predicate PairsShort(a: seq<seq<Token>>, b: seq<seq<Token>>) {
    |a| == |b| && forall i :: 0 <= i < |a| ==> CutShort(a[i], b[i])
  }

  lemma {:induction false} JoinedShort(a: seq<seq<Token>>, b: seq<seq<Token>>)
    requires PairsShort(a, b)
    ensures CutShort(Joined(a), Joined(b)) && (Joined(a) == Joined(b) <==> a == b)
  {
    hide CutShort;
    if a == [] {
      CutShortNothing();
    } else if |a| > 1 {
      JoinedShort(a[1..], b[1..]);
      SpaceText();
      CutShortSame([COMMA, SPACE]);
      CutShortAppend([COMMA, SPACE], [COMMA, SPACE], Joined(a[1..]), Joined(b[1..]));
      CutShortAppend(a[0], b[0], [COMMA, SPACE] + Joined(a[1..]), [COMMA, SPACE] + Joined(b[1..]));
      assert a == [a[0]] + a[1..] && b == [b[0]] + b[1..];
    } else {
      assert a == [a[0]] && b == [b[0]];
    }
  }

  lemma CutShortNothing()
    ensures CutShort([], [])
  {
  }

  /** Every assignment that is trimmed at its end - because it is rewritten, or the last - ends cleanly. */
  predicate TrimsClean(pieces: seq<seq<Token>>) {
    && (forall p :: p in pieces && IsQualified(p) ==> EndsClean(p))
    && (pieces != [] ==> EndsClean(pieces[|pieces| - 1]))
  }

  lemma PiecesShort(pieces: seq<seq<Token>>)
    requires PiecesOk(pieces)
    ensures PairsShort(AllWritten(pieces), AllKept(pieces))
    ensures AllWritten(pieces) == AllKept(pieces) <==> forall p :: p in pieces && IsQualified(p) ==> EndsClean(p)
  {
    hide CutShort, WrittenPiece, KeptPiece, IsQualified, EndsClean, Regular, Settled;
    forall i | 0 <= i < |pieces|
      ensures CutShort(AllWritten(pieces)[i], AllKept(pieces)[i])
      ensures AllWritten(pieces)[i] == AllKept(pieces)[i] <==> (IsQualified(pieces[i]) ==> EndsClean(pieces[i]))
    {
      assert pieces[i] in pieces;
      PieceShort(pieces[i]);
    }
    if AllWritten(pieces) == AllKept(pieces) {
      forall p | p in pieces && IsQualified(p)
        ensures EndsClean(p)
      {
        var i :| 0 <= i < |pieces| && pieces[i] == p;
        assert AllWritten(pieces)[i] == AllKept(pieces)[i];
      }
    }
  }

  /** The end of the joined assignments is the end of the last. */
  lemma KeptEnds(p: seq<Token>)
    requires Regular(p)
    ensures EndsClean(KeptPiece(p)) == EndsClean(p) && (TrimR(KeptPiece(p)) == [] ==> KeptPiece(p) == p && TrimR(p) == [])
  {
    hide EndsClean, TrimR, Regular, NewTarget, RightOf, IsBlankToken, IsBlank, Path, NameCount, HasEqual;
    if IsQualified(p) {
      RightEnds(p);
      TrimmedEnds(NewTarget(p), RightOf(p));
    }
  }

  lemma RightEnds(p: seq<Token>)
    requires Regular(p) && HasEqual(p)
    ensures EndsClean(RightOf(p)) == EndsClean(p) && TrimR(RightOf(p)) != []
  {
    RightEndsClean(p);
    RightRegular(p);
    hide RightOf, HasEqual, EndsClean, TrimR, Regular;
    NotAllTrimmed(RightOf(p));
  }

  lemma TrimmedEnds(target: seq<Token>, right: seq<Token>)
    requires TrimR(right) != []
    ensures EndsClean(target + TrimR(right)) == EndsClean(right) && TrimR(target + TrimR(right)) != []
  {
    hide EndsClean, TrimR;
    TrimRTwice(right);
    TrimRAppend(target, TrimR(right));
    EndsCleanAppend(target, TrimR(right));
  }

  lemma {:induction false} TrimRTwice(toks: seq<Token>)
    ensures TrimR(TrimR(toks)) == TrimR(toks) && EndsClean(TrimR(toks)) == EndsClean(toks)
  {
    TrimREnds(toks);
    hide IsBlankToken;
  }

  lemma {:induction false} JoinedEnds(pieces: seq<seq<Token>>)
    requires pieces != []
    ensures var last := pieces[|pieces| - 1];
            EndsClean(Joined(pieces)) == EndsClean(last)
  {
    var last := pieces[|pieces| - 1];
    if |pieces| > 1 {
      JoinedEnds(pieces[1..]);
      var later := [COMMA, SPACE] + Joined(pieces[1..]);
      CommaClean(Joined(pieces[1..]));
      hide EndsClean, TrimR, Joined;
      EndsCleanAppend(pieces[0], later);
      assert Joined(pieces) == pieces[0] + later by {
        JoinedMore(pieces);
      }
    }
  }

  lemma JoinedMore(pieces: seq<seq<Token>>)
    requires |pieces| > 1
    ensures Joined(pieces) == pieces[0] + ([COMMA, SPACE] + Joined(pieces[1..]))
  {
  }

  /** A comma before blanks ends cleanly, and hides what stands before it. */
  lemma CommaClean(later: seq<Token>)
    ensures var toks := [COMMA, SPACE] + later; TrimR(toks) != [] && EndsClean(toks) == EndsClean(later)
  {
    var toks := [COMMA, SPACE] + later;
    SpaceText();
    assert toks[0] == COMMA;
    NotAllTrimmed(toks);
    EndsCleanAppend([COMMA, SPACE], later);
    assert [COMMA, SPACE][..1] == [COMMA];
    assert TrimR([COMMA, SPACE]) == [COMMA];
  }

  lemma {:induction false} TrimLEnds(toks: seq<Token>)
    ensures EndsClean(TrimL(toks)) == EndsClean(toks)
  {
    if toks != [] && IsBlankToken(toks[0]) {
      TrimLEnds(toks[1..]);
      assert toks == [toks[0]] + toks[1..];
      OneBlankClean(toks[0]);
      hide EndsClean, TrimR;
      EndsCleanAppend([toks[0]], toks[1..]);
      CleanNothing(toks[1..]);
    }
  }

  lemma OneBlankClean(tok: Token)
    requires IsBlankToken(tok)
    ensures EndsClean([tok])
  {
    assert [tok][..0] == [];
  }

  lemma CleanNothing(toks: seq<Token>)
    ensures TrimR(toks) == [] ==> EndsClean(toks)
  {
  }

  lemma ClauseShort(pieces: seq<seq<Token>>)
    requires pieces != [] && PiecesOk(pieces)
    ensures CutShort(WrittenClause(pieces), KeptClause(pieces))
    ensures WrittenClause(pieces) == KeptClause(pieces) <==> TrimsClean(pieces)
  {
    hide CutShort, AllWritten, AllKept, Joined, TrimL, TrimR, CutEnd, EndsClean, IsQualified, Regular, Settled;
    var w, k := Joined(AllWritten(pieces)), Joined(AllKept(pieces));
    PiecesShort(pieces);
    JoinedShort(AllWritten(pieces), AllKept(pieces));
    AllRegular(pieces);
    CutShortTrimL(w, k);
    TrimLRegular(w);
    TrimLRegular(k);
    CutShortTrimR(TrimL(w), TrimL(k));
    TrimmedCut(TrimL(w));
    ShortTwice(CutEnd(TrimR(TrimL(w))), TrimR(TrimL(w)), TrimR(TrimL(k)));
    TrimLEnds(w);
    ClauseEnds(pieces);
  }

  lemma ClauseEnds(pieces: seq<seq<Token>>)
    requires pieces != [] && PiecesOk(pieces)
    ensures EndsClean(Joined(AllKept(pieces))) == EndsClean(pieces[|pieces| - 1])
  {
    hide KeptPiece, Joined, EndsClean, Regular, Settled, TrimR;
    var last := pieces[|pieces| - 1];
    assert last in pieces;
    JoinedEnds(AllKept(pieces));
    KeptEnds(last);
  }

  lemma ShortTwice(a: seq<Token>, b: seq<Token>, c: seq<Token>)
    requires CutShort(a, b) && CutShort(b, c)
    ensures CutShort(a, c) && (a == c <==> a == b && b == c)
  {
    CutShortText(a, b);
    CutShortText(b, c);
    if a == c {
      assert |Flatten(a)| == |Flatten(b)| == |Flatten(c)|;
    }
  }

  /**
   * What the source writes is read as the statement with the qualifiers of the targets dropped, exactly
   * when no assignment that is trimmed at its end ends in a token that itself ends in a blank - as a
   * line comment does, whose newline is trimmed away.
   */
  lemma SetTargetsRead(t: string)
    ensures !Changes(t) ==> SetTargets(t) == t
    ensures Changes(t) ==> (Lex(SetTargets(t), ByWords) == KeptTokens(t) <==> TrimsClean(SidesOf(t).pieces))
  {
    SetTargetsText(t);
    if Changes(t) {
      KeptSettled(t);
      LexSpells(SetTargets(t), ByWords);
      hide Lex, SetTargets, SidesOf, Settled, Flatten, IsQualified, KeptTokens, WrittenTokens, TrimsClean;
      WrittenOrKept(t);
    }
  }

  lemma WrittenOrKept(t: string)
    requires Changes(t)
    ensures Flatten(WrittenTokens(t)) == Flatten(KeptTokens(t)) <==> TrimsClean(SidesOf(t).pieces)
  {
    var start := SetStart(t).value;
    SetStartInside(t);
    ClauseFirm(t, start);
    LexRegular(t[..start]);
    LexRegular(t[start..]);
    hide Lex, SetStart, Pieces, KeptClause, WrittenClause, TrimsClean, CutShort, IsQualified, Flatten, PiecesOk, Firm, Regular;
    var s := SidesOf(t);
    ClauseShort(s.pieces);
    TailRegular(Lex(t[start..], ByWords), ClauseCount(Lex(t[start..], ByWords)));
    FourShort(s.head, WrittenClause(s.pieces), KeptClause(s.pieces), s.tail);
  }

  lemma TailRegular(toks: seq<Token>, n: nat)
    requires Regular(toks) && n <= |toks|
    ensures Regular(toks[n..])
  {
    assert forall tok :: tok in toks[n..] ==> tok in toks;
  }

  lemma FourShort(head: seq<Token>, a: seq<Token>, b: seq<Token>, tail: seq<Token>)
    requires Regular(head) && Regular(tail) && CutShort(a, b)
    ensures Flatten(head + ([SPACE] + (a + WithBlank(tail)))) == Flatten(head + ([SPACE] + (b + WithBlank(tail)))) <==> a == b
  {
    hide CutShort, Regular;
    SpaceText();
    RegularAppend([SPACE], tail);
    NothingRegular();
    CutShortSame(head);
    CutShortSame([SPACE]);
    CutShortSame(WithBlank(tail));
    CutShortAppend(a, b, WithBlank(tail), WithBlank(tail));
    CutShortAppend([SPACE], [SPACE], a + WithBlank(tail), b + WithBlank(tail));
    CutShortAppend(head, head, [SPACE] + (a + WithBlank(tail)), [SPACE] + (b + WithBlank(tail)));
    CutShortText(head + ([SPACE] + (a + WithBlank(tail))), head + ([SPACE] + (b + WithBlank(tail))));
  }

  // ---------------------------------------------------------------------------------------------
  // What is dropped
  // ---------------------------------------------------------------------------------------------

  function Visible(toks: seq<Token>): seq<Token> {
    Without(toks, IsBlankToken)
  }

  /** How many tokens of a target come before its last name. */
  function Qualifiers(p: seq<Token>): nat {
    if IsQualified(p) && Path(p) != [] then |Path(p)| - 1 else 0
  }

  lemma {:induction false} VisibleTrimR(toks: seq<Token>)
    ensures Visible(TrimR(toks)) == Visible(toks)
  {
    var gap := TrimRCut(toks);
    hide TrimR, IsBlankToken;
    WithoutAppend(TrimR(toks), gap, IsBlankToken);
    WithoutAll(gap, IsBlankToken);
    assert Visible(TrimR(toks)) + [] == Visible(TrimR(toks));
  }

  lemma {:induction false} VisibleTrimL(toks: seq<Token>)
    ensures Visible(TrimL(toks)) == Visible(toks)
  {
    if toks != [] && IsBlankToken(toks[0]) {
      VisibleTrimL(toks[1..]);
      assert [] + Visible(toks[1..]) == Visible(toks[1..]);
    }
  }

  /** Of an assignment nothing but the qualifiers and their dots is dropped, blanks aside. */
  lemma PieceVisible(p: seq<Token>)
    requires Settled(p, ByWords) && Regular(p)
    ensures Qualifiers(p) <= |Visible(p)| && Visible(KeptPiece(p)) == Visible(p)[Qualifiers(p)..]
    ensures IsQualified(p) ==> Qualifiers(p) < |Visible(p)| && NameCount(Visible(p)[..Qualifiers(p) + 1]) >= 2
  {
    if IsQualified(p) {
      PathName(p);
      TargetTokens(p);
      BothSides(p);
      hide Path, RightOf, LeftOf, HasEqual, TrimR, IsBlankToken, NameCount, Settled, Regular;
      WithoutAppend(LeftOf(p), RightOf(p), IsBlankToken);
      QualifiedVisible(p);
    } else {
      hide IsQualified;
      assert Visible(p)[0..] == Visible(p);
    }
  }

  lemma QualifiedVisible(p: seq<Token>)
    requires IsQualified(p) && Path(p) != [] && !IsBlankToken(Path(p)[|Path(p)| - 1])
    requires Visible(p) == Path(p) + Visible(RightOf(p))
    ensures Visible(NewTarget(p) + TrimR(RightOf(p))) == Visible(p)[|Path(p)| - 1..]
    ensures Visible(p)[..|Path(p)|] == Path(p)
  {
    hide Path, RightOf, IsQualified, TrimR, Visible, IsBlankToken;
    VisibleTrimR(RightOf(p));
    TargetVisible(Path(p), TrimR(RightOf(p)));
  }

  lemma TargetVisible(path: seq<Token>, right: seq<Token>)
    requires path != [] && !IsBlankToken(path[|path| - 1])
    ensures Visible([path[|path| - 1], SPACE] + right) == (path + Visible(right))[|path| - 1..]
    ensures (path + Visible(right))[..|path|] == path
  {
    SpaceText();
    hide IsBlankToken;
    var name := path[|path| - 1];
    assert [name, SPACE] + right == [name] + ([SPACE] + right);
    WithoutFirst(name, [SPACE] + right, IsBlankToken);
    WithoutFirst(SPACE, right, IsBlankToken);
    hide Visible;
    LastAndRest(path, Visible(right));
  }

  lemma LastAndRest<T>(path: seq<T>, later: seq<T>)
    requires path != []
    ensures [path[|path| - 1]] + later == (path + later)[|path| - 1..] && (path + later)[..|path|] == path
  {
  }

  /** The visible tokens of the assignments, joined by commas; with `drop` those of the qualifiers left out. */
  function Listed(pieces: seq<seq<Token>>, drop: bool): seq<Token> {
    if pieces == [] then []
    else if |pieces| == 1 then Listing(pieces[0], drop)
    else Listing(pieces[0], drop) + ([COMMA] + Listed(pieces[1..], drop))
  }

  function Listing(p: seq<Token>, drop: bool): seq<Token> {
    if drop && Qualifiers(p) <= |Visible(p)| then Visible(p)[Qualifiers(p)..] else Visible(p)
  }

  lemma VisibleComma(later: seq<Token>)
    ensures Visible([COMMA, SPACE] + later) == [COMMA] + Visible(later)
    ensures Visible([COMMA] + later) == [COMMA] + Visible(later)
  {
    SpaceText();
    hide IsBlankToken;
    assert [COMMA, SPACE] + later == [COMMA] + ([SPACE] + later);
    WithoutFirst(COMMA, [SPACE] + later, IsBlankToken);
    WithoutFirst(SPACE, later, IsBlankToken);
    WithoutFirst(COMMA, later, IsBlankToken);
  }

  lemma {:induction false} ListedKept(pieces: seq<seq<Token>>)
    requires PiecesOk(pieces)
    ensures Visible(Joined(AllKept(pieces))) == Listed(pieces, true)
  {
    hide Settled, Regular, KeptPiece, Qualifiers, IsBlankToken;
    if pieces != [] {
      assert pieces[0] in pieces;
      PieceVisible(pieces[0]);
      assert AllKept(pieces)[1..] == AllKept(pieces[1..]);
      if |pieces| > 1 {
        ListedKept(pieces[1..]);
        var later := Joined(AllKept(pieces[1..]));
        VisibleComma(later);
        WithoutAppend(KeptPiece(pieces[0]), [COMMA, SPACE] + later, IsBlankToken);
      }
    }
  }

  /** Pieces joined by their separators are the tokens they were cut from. */
  lemma {:induction false} ListedPieces(toks: seq<Token>, depth: nat)
    ensures Listed(Pieces(toks, depth, ','), false) == Visible(toks)
  {
    hide IsBlankToken, Qualifiers;
    if toks != [] {
      var tok, later := toks[0], toks[1..];
      assert toks == [tok] + later;
      WithoutFirst(tok, later, IsBlankToken);
      if IsCode(tok, ',') && depth == 0 {
        assert tok.text == "," && tok == COMMA;
        ListedPieces(later, 0);
        VisibleComma(later);
        var r := Pieces(later, 0, ',');
        assert ([[]] + r)[1..] == r && Visible([]) == [];
        assert [] + ([COMMA] + Listed(r, false)) == [COMMA] + Listed(r, false);
      } else {
        ListedPieces(later, DepthAfter(tok, depth));
        ListedFirst(tok, Pieces(later, DepthAfter(tok, depth), ','));
      }
    }
  }

  lemma ListedFirst(tok: Token, r: seq<seq<Token>>)
    requires r != []
    ensures Listed([[tok] + r[0]] + r[1..], false) == Visible([tok]) + Listed(r, false)
  {
    hide IsBlankToken, Qualifiers, Visible;
    var r' := [[tok] + r[0]] + r[1..];
    VisibleAppend([tok], r[0]);
    assert r'[1..] == r[1..] && r'[0] == [tok] + r[0];
    if |r| > 1 {
      Grouped(Visible([tok]), Visible(r[0]), [COMMA] + Listed(r[1..], false));
    }
  }

  lemma VisibleAppend(a: seq<Token>, b: seq<Token>)
    ensures Visible(a + b) == Visible(a) + Visible(b)
  {
    hide IsBlankToken;
    WithoutAppend(a, b, IsBlankToken);
  }

  lemma Grouped(a: seq<Token>, b: seq<Token>, c: seq<Token>)
    ensures (a + b) + c == a + (b + c)
  {
  }

  lemma VisibleFour(head: seq<Token>, clause: seq<Token>, tail: seq<Token>)
    ensures Visible(head + ([SPACE] + (clause + WithBlank(tail)))) == Visible(head) + (Visible(clause) + Visible(tail))
  {
    SpaceText();
    hide IsBlankToken;
    WithoutAppend(head, [SPACE] + (clause + WithBlank(tail)), IsBlankToken);
    WithoutFirst(SPACE, clause + WithBlank(tail), IsBlankToken);
    WithoutAppend(clause, WithBlank(tail), IsBlankToken);
    if tail != [] {
      WithoutFirst(SPACE, tail, IsBlankToken);
    }
  }

  /**
   * Blanks aside, the kept tokens are those of the statement without the qualifiers of the targets:
   * what is left out of an assignment are names and dots in front of the last name of its target.
   */
  lemma OnlyQualifiersDropped(t: string)
    requires Changes(t)
    ensures var s := SidesOf(t);
            && Visible(Lex(t, ByWords)) == Visible(s.head) + (Listed(s.pieces, false) + Visible(s.tail))
            && Visible(KeptTokens(t)) == Visible(s.head) + (Listed(s.pieces, true) + Visible(s.tail))
            && forall p :: p in s.pieces ==>
                 Qualifiers(p) <= |Visible(p)| &&
                 (IsQualified(p) ==> Qualifiers(p) < |Visible(p)| && NameCount(Visible(p)[..Qualifiers(p) + 1]) >= 2)
  {
    hide Lex, SidesAt, KeptClause, IsQualified, Qualifiers, NameCount, Listed, SetStart, PiecesOk, CutBehindWord, Firm, Visible;
    var start := SetStart(t).value;
    SetStartInside(t);
    HeadLex(t);
    ClauseFirm(t, start);
    DroppedAt(t, start);
    PiecesVisible(SidesAt(t, start).pieces);
  }

  lemma PiecesVisible(pieces: seq<seq<Token>>)
    requires PiecesOk(pieces)
    ensures forall p :: p in pieces ==>
              Qualifiers(p) <= |Visible(p)| &&
              (IsQualified(p) ==> Qualifiers(p) < |Visible(p)| && NameCount(Visible(p)[..Qualifiers(p) + 1]) >= 2)
  {
    hide IsQualified, Qualifiers, NameCount, Visible, Settled, Regular;
    forall p | p in pieces
      ensures Qualifiers(p) <= |Visible(p)|
      ensures IsQualified(p) ==> Qualifiers(p) < |Visible(p)| && NameCount(Visible(p)[..Qualifiers(p) + 1]) >= 2
    {
      PieceVisible(p);
    }
  }

  lemma DroppedAt(t: string, start: nat)
    requires CutBehindWord(t, start) && PiecesOk(SidesAt(t, start).pieces)
    ensures var s := SidesAt(t, start);
            && Visible(Lex(t, ByWords)) == Visible(s.head) + (Listed(s.pieces, false) + Visible(s.tail))
            && Visible(s.head + ([SPACE] + (KeptClause(s.pieces) + WithBlank(s.tail)))) ==
                 Visible(s.head) + (Listed(s.pieces, true) + Visible(s.tail))
  {
    hide Lex, Qualifiers, Listed, KeptClause, Visible, PiecesOk, Pieces, ClauseCount;
    var s := SidesAt(t, start);
    var toks := Lex(t[start..], ByWords);
    VisibleSides(s.head, toks, ClauseCount(toks));
    VisibleFour(s.head, KeptClause(s.pieces), s.tail);
    KeptVisible(s.pieces);
  }

  lemma VisibleSides(head: seq<Token>, toks: seq<Token>, n: nat)
    requires n <= |toks|
    ensures Visible(head + toks) == Visible(head) + (Listed(Pieces(toks[..n], 0, ','), false) + Visible(toks[n..]))
  {
    hide Visible, Pieces, Listed;
    assert toks == toks[..n] + toks[n..];
    VisibleAppend(head, toks);
    VisibleAppend(toks[..n], toks[n..]);
    ListedPieces(toks[..n], 0);
  }

  lemma KeptVisible(pieces: seq<seq<Token>>)
    requires PiecesOk(pieces)
    ensures Visible(KeptClause(pieces)) == Listed(pieces, true)
  {
    hide Visible, TrimL, TrimR, Joined, AllKept, Listed, PiecesOk;
    var kept := Joined(AllKept(pieces));
    VisibleTrimR(TrimL(kept));
    VisibleTrimL(kept);
    ListedKept(pieces);
  }

  // ---------------------------------------------------------------------------------------------
  // A comment that swallows the WHERE
  // ---------------------------------------------------------------------------------------------

  /** A comment that runs to the end of its line: nothing before its last byte is a newline. */
  predicate LineComment(text: string) {
    && ("--" <= text || "#" <= text)
    && text != "" && text[|text| - 1] == '\n' && forall i :: 0 <= i < |text| - 1 ==> text[i] != '\n'
  }

  lemma {:induction false} LineTailBytes(t: string)
    ensures forall i :: 0 <= i < LineTail(t, false) - 1 ==> t[i] != '\n'
    ensures 0 < LineTail(t, false) < |t| ==> t[LineTail(t, false) - 1] == '\n'
  {
    if t != "" && t[0] != '\n' {
      LineTailBytes(t[1..]);
      forall i | 0 < i < LineTail(t, false) - 1
        ensures t[i] != '\n'
      {
        assert t[i] == t[1..][i - 1];
      }
    }
  }

  lemma {:induction false} LineTailAll(t: string)
    requires '\n' !in t
    ensures LineTail(t, false) == |t|
  {
    if t != "" {
      assert t[0] in t;
      LineTailAll(t[1..]);
    }
  }

  lemma {:induction false} BlockTailEnd(t: string)
    ensures BlockTail(t) < |t| ==> BlockTail(t) >= 2 && t[BlockTail(t) - 1] == '/'
  {
    if |t| >= 2 && !(t[0] == '*' && t[1] == '/') {
      BlockTailEnd(t[1..]);
      var n := BlockTail(t[1..]);
      assert n < |t[1..]| ==> t[1..][n - 1] == t[n];
    }
  }

  /** What ends in a blank although something follows it is a line comment. */
  lemma UncleanIsLine(tok: Token, y: string)
    requires Sits(tok, y, ByWords) && y != "" && IsBlank(tok.text[|tok.text| - 1]) && !IsBlankToken(tok)
    ensures tok.kind == Comment && LineComment(tok.text)
  {
    if tok.kind == Quoted {
      QuotedEnds(tok, y);
    } else if tok.kind == Word {
      NameEnds(tok, y);
    } else if tok.kind == Comment {
      CommentSits(tok, y);
      hide Sits;
      CommentBytes(tok.text, y);
    } else {
      CodeOne(tok, y);
    }
  }

  lemma CommentSits(tok: Token, y: string)
    requires Sits(tok, y, ByWords) && tok.kind == Comment
    ensures tok.text != "" && CommentLen(tok.text + y, false) == |tok.text|
  {
    hide CommentLen, QuoteTail;
  }

  lemma CodeOne(tok: Token, y: string)
    requires Sits(tok, y, ByWords) && tok.kind == Code
    ensures |tok.text| == 1
  {
    hide CommentLen, QuoteTail;
  }

  lemma CommentBytes(x: string, y: string)
    requires x != "" && y != "" && CommentLen(x + y, false) == |x| && IsBlank(x[|x| - 1])
    ensures LineComment(x)
  {
    var t := x + y;
    TailAfterFirst(x, y, "");
    assert t[0] == x[0] && (|x| > 1 ==> t[1] == x[1]);
    if |t| > 1 && t[0] == '-' && t[1] == '-' {
      LineTailBytes(t[2..]);
      LineFrom(x, y, 2);
    } else if t[0] == '#' {
      LineTailBytes(t[1..]);
      LineFrom(x, y, 1);
    } else {
      BlockTailEnd(t[2..]);
    }
  }

  lemma LineFrom(x: string, y: string, k: nat)
    requires k <= |x| && (k == 1 || k == 2) && y != "" && forall i :: 0 <= i < k ==> x[i] in "-#"
    requires var t := x + y; |t| > k && k + LineTail(t[k..], false) == |x|
    requires var u := (x + y)[k..]; var n := LineTail(u, false);
             (forall i :: 0 <= i < n - 1 ==> u[i] != '\n') && (0 < n < |u| ==> u[n - 1] == '\n')
    ensures |x| > k && x[|x| - 1] == '\n' && forall i :: 0 <= i < |x| - 1 ==> x[i] != '\n'
  {
    var t := x + y;
    var u := t[k..];
    assert u != "" && LineTail(u, false) > 0;
    forall i | k <= i < |x|
      ensures x[i] == u[i - k]
    {
    }
  }

  /** Without its newline the comment runs on to the end of a text without one. */
  lemma CommentRunsOn(text: string, more: string)
    requires LineComment(text) && '\n' !in more
    ensures var cut := TrimRight(text);
            cut != "" && cut[0] == text[0] && Lead(cut + more, ByWords) == Token(Comment, cut + more)
  {
    var cut := TrimRight(text);
    CutKeepsStart(text);
    assert cut <= text && cut != text;
    assert '\n' !in cut;
    var u := cut + more;
    assert '\n' !in u;
    hide TrimRight;
    if "--" <= cut {
      assert u[0] == '-' && u[1] == '-';
      assert '\n' !in u[2..];
      LineTailAll(u[2..]);
    } else {
      assert u[0] == '#';
      assert '\n' !in u[1..];
      LineTailAll(u[1..]);
    }
    assert u[..|u|] == u;
  }

  lemma CutKeepsStart(text: string)
    requires LineComment(text)
    ensures var cut := TrimRight(text); ("--" <= text ==> "--" <= cut) && ("#" <= text ==> "#" <= cut) && cut != text
  {
    var n := if "--" <= text then 2 else 1;
    var a, b := text[..n - 1], text[n - 1..];
    assert text == a + b;
    TrimRightAppend(a, b);
    TrimRightPrefix(b);
    hide TrimRight;
    TrimmedShorter(text);
  }

  lemma TrimmedShorter(text: string)
    requires text != "" && text[|text| - 1] == '\n'
    ensures TrimRight(text) != text
  {
    TrimRightShorter(text);
  }

  /** The last token of an assignment that does not end cleanly. */
  predicate UncleanEnd(toks: seq<Token>) {
    && toks != [] && !IsBlankToken(toks[0]) && !IsBlankToken(toks[|toks| - 1])
    && var text := toks[|toks| - 1].text; text != "" && !IsBlank(text[0]) && IsBlank(text[|text| - 1])
  }

  /** One assignment and what it leaves behind. */
  lemma OnePiece(p: seq<Token>)
    requires Regular(p) && IsQualified(p) && !EndsClean(p)
    ensures var kept := KeptPiece(p);
            UncleanEnd(kept) && KeptClause([p]) == kept && WrittenClause([p]) == CutEnd(kept)
  {
    hide IsQualified, EndsClean, TrimL, TrimR, CutEnd, UncleanEnd, WrittenPiece, KeptPiece, Regular;
    PieceEnd(p);
    SinglePieces(p);
    CutEndStays(KeptPiece(p));
  }

  lemma SinglePieces(p: seq<Token>)
    ensures Joined(AllKept([p])) == KeptPiece(p) && Joined(AllWritten([p])) == WrittenPiece(p)
  {
    hide KeptPiece, WrittenPiece;
    assert AllKept([p]) == [KeptPiece(p)] && AllWritten([p]) == [WrittenPiece(p)];
  }

  lemma PieceEnd(p: seq<Token>)
    requires Regular(p) && IsQualified(p) && !EndsClean(p)
    ensures UncleanEnd(KeptPiece(p)) && WrittenPiece(p) == CutEnd(KeptPiece(p))
  {
    PathName(p);
    RightRegular(p);
    RightEndsClean(p);
    LastUnclean(RightOf(p));
    TrimREnds(RightOf(p));
    hide Path, RightOf, HasEqual, NameCount, IsBlank, EndsClean, TrimRight, IsBlankToken, Regular, CutEnd;
    var right := TrimR(RightOf(p));
    hide TrimR;
    assert KeptPiece(p)[|KeptPiece(p)| - 1] == right[|right| - 1] && KeptPiece(p)[0] == NewTarget(p)[0];
    CutEndAppend(NewTarget(p), right);
  }

  lemma LastUnclean(toks: seq<Token>)
    requires Regular(toks) && !EndsClean(toks)
    ensures var r := TrimR(toks);
            r != [] && r[|r| - 1].text != "" && IsBlank(r[|r| - 1].text[|r[|r| - 1].text| - 1]) && r[|r| - 1] in toks && !IsBlank(r[|r| - 1].text[0])
  {
    var r := TrimR(toks);
    TrimREnds(toks);
    assert r != [] ==> r[|r| - 1] in toks;
  }

  lemma CutEndAppend(a: seq<Token>, b: seq<Token>)
    requires b != []
    ensures CutEnd(a + b) == a + CutEnd(b)
  {
    var n := |b| - 1;
    assert (a + b)[..|a + b| - 1] == a + b[..n];
  }

  /** Cutting the end once more changes nothing. */
  lemma CutEndStays(kept: seq<Token>)
    requires UncleanEnd(kept)
    ensures TrimL(kept) == kept && TrimR(kept) == kept && TrimL(CutEnd(kept)) == CutEnd(kept)
    ensures CutEnd(TrimR(CutEnd(kept))) == CutEnd(kept)
  {
    var n := |kept| - 1;
    var last := kept[n];
    var cut := last.(text := TrimRight(last.text));
    TrimRightPrefix(last.text);
    TrimTwice(last.text);
    assert CutEnd(kept) == kept[..n] + [cut];
    assert !IsBlankToken(cut);
    assert CutEnd(kept)[0] == if n == 0 then cut else kept[0];
    hide TrimRight, IsBlank;
    assert CutEnd(CutEnd(kept)) == kept[..n] + [cut.(text := TrimRight(cut.text))];
  }

  lemma TrimTwice(s: string)
    ensures TrimRight(TrimRight(s)) == TrimRight(s)
  {
  }

  /** The last token holds the text in a comment. */
  predicate EndsInComment(toks: seq<Token>, text: string) {
    && toks != [] && toks[|toks| - 1].kind == Comment
    && |text| <= |toks[|toks| - 1].text| && toks[|toks| - 1].text[|toks[|toks| - 1].text| - |text|..] == text
  }

  /** A settled list whose unclean token is cut: the rest of the line becomes part of the comment. */
  lemma Swallows(a: seq<Token>, c: Token, tail: seq<Token>)
    requires Settled(a + ([c] + ([SPACE] + tail)), ByWords) && '\n' !in Flatten(tail)
    requires c.text != "" && !IsBlankToken(c) && IsBlank(c.text[|c.text| - 1])
    ensures EndsInComment(Lex(Flatten(a) + (TrimRight(c.text) + (" " + Flatten(tail))), ByWords), Flatten(tail))
  {
    hide Sits, Settled, Flatten, TrimRight, IsBlankToken, Lex, EndsInComment;
    var rest := [SPACE] + tail;
    var more := " " + Flatten(tail);
    SpaceRest(tail);
    MemberBefore(a, c, rest);
    UncleanIsLine(c, more);
    CommentRunsOn(c.text, more);
    var whole := TrimRight(c.text) + more;
    SwallowingLex(a, c, rest, whole);
    EndsWith(a, TrimRight(c.text) + " ", Flatten(tail));
    assert whole == (TrimRight(c.text) + " ") + Flatten(tail);
  }

  lemma SwallowingLex(a: seq<Token>, c: Token, rest: seq<Token>, whole: string)
    requires Settled(a + ([c] + rest), ByWords) && c.text != "" && whole != "" && whole[0] == c.text[0]
    requires Lead(whole, ByWords) == Token(Comment, whole)
    ensures Lex(Flatten(a) + whole, ByWords) == a + [Token(Comment, whole)]
  {
    hide Sits, Settled, Flatten, Lex, Lead;
    WholeLex(whole);
    if a == [] {
      FlattenNone();
      assert Flatten(a) + whole == whole;
    } else {
      BeforeCut(a, c, rest, whole);
    }
  }

  lemma SpaceRest(tail: seq<Token>)
    ensures Flatten([SPACE] + tail) == " " + Flatten(tail)
    ensures '\n' !in Flatten(tail) ==> '\n' !in " " + Flatten(tail)
  {
    SpaceText();
    FlattenOne([SPACE]);
    FlattenAppend([SPACE], tail);
  }

  lemma EndsWith(a: seq<Token>, front: string, text: string)
    ensures EndsInComment(a + [Token(Comment, front + text)], text)
  {
  }

  lemma MemberBefore(a: seq<Token>, c: Token, rest: seq<Token>)
    requires Settled(a + ([c] + rest), ByWords)
    ensures Settled(a, ByWords) && Sits(c, Flatten(rest), ByWords)
  {
    SettledCut(a, [c] + rest, ByWords);
    assert ([c] + rest)[1..] == rest;
  }

  lemma WholeLex(whole: string)
    requires whole != "" && Lead(whole, ByWords) == Token(Comment, whole)
    ensures Lex(whole, ByWords) == [Token(Comment, whole)]
  {
    assert whole[|whole|..] == "";
  }

  lemma BeforeCut(a: seq<Token>, c: Token, rest: seq<Token>, whole: string)
    requires a != [] && Settled(a + ([c] + rest), ByWords) && c.text != "" && whole != "" && whole[0] == c.text[0]
    ensures Lex(Flatten(a) + whole, ByWords) == a + Lex(whole, ByWords)
  {
    MemberBefore(a, c, rest);
    LastSitsBefore(a, [c] + rest);
    FlattenAppend([c], rest);
    FlattenOne([c]);
    hide Sits, Settled, Flatten, Lex;
    SitsNext(a[|a| - 1], c.text + Flatten(rest), whole, ByWords);
    LexJoin(a, whole, ByWords);
  }

  /**
   * When the only assignment is rewritten and ends in a line comment, its newline is trimmed away and
   * the comment takes in what follows the clause, up to the next newline: the WHERE is lost.
   */
  lemma TrimmedCommentSwallowsTail(t: string)
    requires Changes(t) && |SidesOf(t).pieces| == 1 && !EndsClean(SidesOf(t).pieces[0])
    requires SidesOf(t).tail != [] && '\n' !in Flatten(SidesOf(t).tail)
    ensures EndsInComment(Lex(SetTargets(t), ByWords), Flatten(SidesOf(t).tail))
  {
    var s := SidesOf(t);
    var p := s.pieces[0];
    SetTargetsText(t);
    KeptSettled(t);
    LexSpells(Flatten(KeptTokens(t)), ByWords);
    PiecesAreOk(t);
    hide Lex, SetTargets, SidesOf, Settled, Flatten, IsQualified, EndsClean, UncleanEnd, KeptClause, WrittenClause, KeptPiece, Regular,
         TrimRight, IsBlankToken;
    assert s.pieces == [p];
    OnePiece(p);
    SwallowsIn(s.head, KeptPiece(p), s.tail);
  }

  lemma PiecesAreOk(t: string)
    requires SidesOf(t).Sides?
    ensures PiecesOk(SidesOf(t).pieces)
  {
    SetStartInside(t);
    hide SetStart, SidesAt, Lex, PiecesOk, Firm;
    ClauseFirm(t, SetStart(t).value);
  }

  lemma SwallowsIn(head: seq<Token>, kept: seq<Token>, tail: seq<Token>)
    requires UncleanEnd(kept) && tail != [] && '\n' !in Flatten(tail)
    requires Settled(head + ([SPACE] + (kept + WithBlank(tail))), ByWords)
    ensures EndsInComment(Lex(Flatten(head + ([SPACE] + (CutEnd(kept) + WithBlank(tail)))), ByWords), Flatten(tail))
  {
    hide Lex, Settled, Flatten, TrimRight, IsBlankToken, EndsInComment, IsBlank;
    var n := |kept| - 1;
    var c := kept[n];
    var cut := c.(text := TrimRight(c.text));
    var a := head + ([SPACE] + kept[..n]);
    assert kept == kept[..n] + [c];
    assert head + ([SPACE] + (kept + WithBlank(tail))) == a + ([c] + ([SPACE] + tail));
    assert head + ([SPACE] + (CutEnd(kept) + WithBlank(tail))) == a + ([cut] + ([SPACE] + tail));
    SpaceText();
    FlattenAppend(a, [cut] + ([SPACE] + tail));
    FlattenAppend([cut], [SPACE] + tail);
    FlattenAppend([SPACE], tail);
    FlattenOne([cut]);
    FlattenOne([SPACE]);
    Swallows(a, c, tail);
  }

  // ---------------------------------------------------------------------------------------------
  // Such a statement
  // ---------------------------------------------------------------------------------------------

  const TAIL_TEXT := "WHERE" + (" " + "c")
  const LEFT_TEXT := "u" + ("." + "a")
  const CLAUSE_TEXT := " " + ("u" + ("." + ("a" + ("=" + ("b" + ("--\n" + TAIL_TEXT))))))

  /** An UPDATE whose only assignment ends in a line comment. */
  const SWALLOWED := "UPDATE" + (" " + ("u" + (" " + ("SET" + CLAUSE_TEXT))))

  const LINE := Token(Comment, "--\n")

  function TailTokens(): seq<Token> {
    [Token(Word, "WHERE")] + ([SPACE] + ([Token(Word, "c")] + []))
  }

  function LeftTokens(): seq<Token> {
    [SPACE, Token(Word, "u"), Token(Code, "."), Token(Word, "a")]
  }

  function AssignmentTokens(): seq<Token> {
    LeftTokens() + [Token(Code, "="), Token(Word, "b"), LINE]
  }

  function HeadTokens(): seq<Token> {
    [Token(Word, "UPDATE"), SPACE, Token(Word, "u"), SPACE, Token(Word, "SET")]
  }

  lemma PutLine(later: seq<Token>)
    requires Settled(later, ByWords)
    ensures Settled([LINE] + later, ByWords) && Flatten([LINE] + later) == "--\n" + Flatten(later)
  {
    var t := "--\n" + Flatten(later);
    assert t[2..] == "\n" + Flatten(later);
    assert LineTail(t[2..], false) == 1 && t[..3] == "--\n";
    assert Sits(LINE, Flatten(later), ByWords);
    SettledCons(LINE, later);
  }

  lemma TailRead()
    ensures Settled(TailTokens(), ByWords) && Flatten(TailTokens()) == TAIL_TEXT && '\n' !in TAIL_TEXT
  {
    hide Settled, Flatten;
    NothingSettled();
    FlattenNone();
    var c := [Token(Word, "c")] + [];
    PutWord("c", []);
    assert "c" + "" == "c";
    PutCode(' ', c);
    PutWord("WHERE", [SPACE] + c);
  }

  lemma ClauseRead()
    ensures Settled(AssignmentTokens() + TailTokens(), ByWords) && Flatten(AssignmentTokens() + TailTokens()) == CLAUSE_TEXT
  {
    hide Settled, Flatten, TAIL_TEXT, TailTokens, AssignmentTokens;
    TailRead();
    var tail := TailTokens();
    PutLine(tail);
    var t1 := [LINE] + tail;
    PutWord("b", t1);
    var t2 := [Token(Word, "b")] + t1;
    PutCode('=', t2);
    var t3 := [Token(Code, "=")] + t2;
    PutWord("a", t3);
    var t4 := [Token(Word, "a")] + t3;
    PutCode('.', t4);
    var t5 := [Token(Code, ".")] + t4;
    PutWord("u", t5);
    var t6 := [Token(Word, "u")] + t5;
    PutCode(' ', t6);
    SpellAssignment(tail);
  }

  lemma SpellAssignment(tail: seq<Token>)
    ensures AssignmentTokens() + tail
         == [SPACE] + ([Token(Word, "u")] + ([Token(Code, ".")] + ([Token(Word, "a")] +
              ([Token(Code, "=")] + ([Token(Word, "b")] + ([LINE] + tail))))))
  {
  }

  lemma SwallowedLex()
    ensures Lex(SWALLOWED, ByWords) == HeadTokens() + (AssignmentTokens() + TailTokens())
  {
    hide Settled, Flatten, CLAUSE_TEXT, TailTokens, AssignmentTokens;
    ClauseRead();
    var clause := AssignmentTokens() + TailTokens();
    assert CLAUSE_TEXT != "" && CLAUSE_TEXT[0] == ' ' by {
      ClauseStarts();
    }
    PutWord("SET", clause);
    var t1 := [Token(Word, "SET")] + clause;
    PutCode(' ', t1);
    var t2 := [SPACE] + t1;
    PutWord("u", t2);
    var t3 := [Token(Word, "u")] + t2;
    PutCode(' ', t3);
    var t4 := [SPACE] + t3;
    PutWord("UPDATE", t4);
    SpellHead(clause);
    hide HeadTokens;
    Relex(HeadTokens() + clause, ByWords);
  }

  lemma SpellHead(clause: seq<Token>)
    ensures HeadTokens() + clause
         == [Token(Word, "UPDATE")] + ([SPACE] + ([Token(Word, "u")] + ([SPACE] + ([Token(Word, "SET")] + clause))))
  {
  }

  lemma ClauseStarts()
    ensures CLAUSE_TEXT != "" && CLAUSE_TEXT[0] == ' '
  {
  }

  lemma {:induction false} ClauseCountPast(a: seq<Token>, b: seq<Token>)
    requires forall tok :: tok in a ==> tok.kind != Word || |tok.text| == 1
    requires b != [] && b[0].kind == Word && EndsSetClause(Upper(b[0].text))
    ensures ClauseCount(a + b) == |a|
  {
    hide Upper;
    if a == [] {
      assert a + b == b;
    } else {
      assert (a + b)[1..] == a[1..] + b && (a + b)[0] == a[0] && a[0] in a;
      ClauseCountPast(a[1..], b);
      assert |Upper(a[0].text)| == |a[0].text|;
    }
  }

  lemma SwallowedStart()
    ensures SetStart(SWALLOWED) == Some(12) && |SWALLOWED| >= 12
    ensures Lex(SWALLOWED[12..], ByWords) == AssignmentTokens() + TailTokens()
  {
    SwallowedLex();
    SwallowedSpaces();
    KeywordLex(SWALLOWED, "UPDATE");
    hide Lex, Keyword, Flatten, AfterWord, TailTokens, AssignmentTokens, Upper, SWALLOWED;
    var clause := AssignmentTokens() + TailTokens();
    AfterUpdate(clause);
    PastSet(clause);
    HeadLengths();
    hide HeadTokens, IsKeyword;
    CutAt(SWALLOWED, HeadTokens(), clause);
    UpdateKeyword();
  }

  lemma UpdateKeyword()
    ensures IsKeyword(Token(Word, "UPDATE"), "UPDATE")
  {
  }

  lemma AfterUpdate(clause: seq<Token>)
    ensures HeadTokens() + clause != [] && (HeadTokens() + clause)[0] == Token(Word, "UPDATE")
    ensures (HeadTokens() + clause)[1..] == [SPACE, Token(Word, "u"), SPACE] + ([Token(Word, "SET")] + clause)
  {
    var later := [SPACE, Token(Word, "u"), SPACE] + ([Token(Word, "SET")] + clause);
    assert HeadTokens() + clause == [Token(Word, "UPDATE")] + later;
  }

  lemma SwallowedSpaces()
    ensures SkipSpaces(SWALLOWED) == SWALLOWED
  {
    assert SpaceLen(SWALLOWED) == 0;
  }

  lemma PastSet(clause: seq<Token>)
    ensures AfterWord([SPACE, Token(Word, "u"), SPACE] + ([Token(Word, "SET")] + clause), "SET") == Some(6)
  {
    var front := [SPACE, Token(Word, "u"), SPACE];
    assert |Upper("u")| == 1 && |Upper("SET")| == 3;
    hide Upper;
    AfterWordPast(front, [Token(Word, "SET")] + clause, "SET");
    ThreeBytes(SPACE, Token(Word, "u"), SPACE);
  }

  lemma ThreeBytes(a: Token, b: Token, c: Token)
    ensures |Flatten([a, b, c])| == |a.text| + |b.text| + |c.text|
  {
    assert [a, b, c] == [a, b] + [c] && [a, b] == [a] + [b];
    FlattenSnoc([a, b], c);
    FlattenSnoc([a], b);
    FlattenOne([a]);
  }

  lemma HeadLengths()
    ensures |Flatten(HeadTokens())| == 12
  {
    var a, b := [Token(Word, "UPDATE"), SPACE, Token(Word, "u")], [SPACE, Token(Word, "SET")];
    assert HeadTokens() == a + b && b == [SPACE] + [Token(Word, "SET")];
    FlattenAppend(a, b);
    ThreeBytes(Token(Word, "UPDATE"), SPACE, Token(Word, "u"));
    FlattenSnoc([SPACE], Token(Word, "SET"));
    FlattenOne([SPACE]);
  }

  /** The target u.a is qualified. */
  lemma SwallowedPath()
    ensures Pieces(AssignmentTokens(), 0, '=')[0] == LeftTokens() && IsQualified(AssignmentTokens())
  {
    LeftSplit();
    LeftPath();
    hide Path, NameCount;
  }

  lemma LeftSplit()
    ensures HasEqual(AssignmentTokens()) && LeftOf(AssignmentTokens()) == LeftTokens()
  {
    var left, right := LeftTokens(), [Token(Word, "b"), LINE];
    var equal := Token(Code, "=");
    assert AssignmentTokens() == left + ([equal] + right);
    PiecesPast(left, [equal] + right, 0, '=');
    PiecesCons(equal, right, 0, '=');
    assert left + [] == left;
  }

  lemma LeftPath()
    requires LeftOf(AssignmentTokens()) == LeftTokens()
    ensures NameCount(Path(AssignmentTokens())) == 2
  {
    hide LeftOf, Lex, NameCount, Flatten, Settled, TrimSpace, AssignmentTokens;
    LeftText();
    LeftTrimmed();
    var toks := LeftNames();
  }

  lemma LeftText()
    ensures Flatten(LeftTokens()) == " " + LEFT_TEXT
  {
    var names := [Token(Word, "u"), Token(Code, "."), Token(Word, "a")];
    assert LeftTokens() == [SPACE] + names;
    FlattenAppend([SPACE], names);
    FlattenOne([SPACE]);
    assert names == [names[0], names[1]] + [names[2]] && [names[0], names[1]] == [names[0]] + [names[1]];
    FlattenSnoc([names[0], names[1]], names[2]);
    FlattenSnoc([names[0]], names[1]);
    FlattenOne([names[0]]);
  }

  lemma LeftTrimmed()
    ensures TrimSpace(" " + LEFT_TEXT) == LEFT_TEXT
  {
    assert LEFT_TEXT != "" && LEFT_TEXT[0] == 'u' && LEFT_TEXT[|LEFT_TEXT| - 1] == 'a';
    BlankBefore(LEFT_TEXT);
  }

  lemma BlankBefore(s: string)
    requires s != "" && !IsBlank(s[0]) && !IsBlank(s[|s| - 1])
    ensures TrimSpace(" " + s) == s
  {
    assert (" " + s)[1..] == s && TrimLeft(s) == s;
    assert TrimLeft(" " + s) == TrimLeft((" " + s)[1..]);
    TrimRightShorter(s);
    hide TrimRight, TrimLeft;
  }

  lemma LeftNames() returns (toks: seq<Token>)
    ensures Spaceless(LEFT_TEXT) == toks && NameCount(toks) == 2
  {
    hide Settled, Flatten, Lex;
    var a, dot, u := Token(Word, "a"), Token(Code, "."), Token(Word, "u");
    toks := [u] + ([dot] + ([a] + []));
    LeftLex(a, dot, u);
    hide LEFT_TEXT;
    WithoutFirst(a, [], IsSpaceToken);
    WithoutFirst(dot, [a] + [], IsSpaceToken);
    WithoutFirst(u, [dot] + ([a] + []), IsSpaceToken);
    assert toks[2..] == [a];
  }

  lemma LeftLex(a: Token, dot: Token, u: Token)
    requires a == Token(Word, "a") && dot == Token(Code, ".") && u == Token(Word, "u")
    ensures Lex(LEFT_TEXT, ByWords) == [u] + ([dot] + ([a] + []))
  {
    hide Settled, Flatten, Lex;
    NothingSettled();
    FlattenNone();
    PutWord("a", []);
    assert "a" + "" == "a";
    PutCode('.', [a] + []);
    PutWord("u", [dot] + ([a] + []));
    Relex([u] + ([dot] + ([a] + [])), ByWords);
  }

  /** MySQL updates the rows with c; SQLite, which sees the WHERE in a comment, updates them all. */
  lemma SwallowedWhere()
    ensures Changes(SWALLOWED) && !TrimsClean(SidesOf(SWALLOWED).pieces)
    ensures EndsInComment(Lex(SetTargets(SWALLOWED), ByWords), TAIL_TEXT)
  {
    SwallowedStart();
    SwallowedSides();
    SwallowedPath();
    SwallowedUnclean();
    TailRead();
    hide Lex, SetTargets, SetStart, SidesAt, IsQualified, EndsClean, AssignmentTokens, TailTokens, SWALLOWED, Flatten, EndsInComment, Pieces;
    var s := SidesOf(SWALLOWED);
    assert AssignmentTokens() in s.pieces;
    TrimmedCommentSwallowsTail(SWALLOWED);
  }

  lemma SwallowedSides()
    requires |SWALLOWED| >= 12 && Lex(SWALLOWED[12..], ByWords) == AssignmentTokens() + TailTokens()
    ensures SidesAt(SWALLOWED, 12).pieces == [AssignmentTokens()] && SidesAt(SWALLOWED, 12).tail == TailTokens() && TailTokens() != []
  {
    hide Lex, SWALLOWED;
    var clause, tail := AssignmentTokens(), TailTokens();
    assert Upper("WHERE") == "WHERE";
    ClauseCountPast(clause, tail);
    assert (clause + tail)[..|clause|] == clause && (clause + tail)[|clause|..] == tail;
    PiecesPast(clause, [], 0, ',');
    assert clause + [] == clause;
  }

  lemma SwallowedUnclean()
    ensures !EndsClean(AssignmentTokens())
  {
    assert AssignmentTokens()[|AssignmentTokens()| - 1] == LINE;
  }
}
