/**
 * Cutting texts between tokens and putting tokens together, for any walk over the text.
 */
module TokenLists {
  import opened Text
  import opened SqlScanner
  import opened SqlSplitting
  import opened SqlParsing

  /** Text that follows a prefix of `t`, and the prefix. */
  predicate Follows(rest: string, t: string) {
    |rest| < |t| && rest == t[|t| - |rest|..]
  }

  function UpTo(t: string, rest: string): (source: string)
    requires Follows(rest, t)
    ensures source != "" && source <= t && |source| == |t| - |rest|
  {
    t[..|t| - |rest|]
  }

  lemma FollowsOn(t: string, rest: string, later: string)
    requires Follows(rest, t) && |later| <= |rest| && later == rest[|rest| - |later|..]
    ensures Follows(later, t)
  {
  }

  /** The text before `rest` is whole tokens. */
  ghost predicate Splits(t: string, rest: string, walk: Walk) {
    Follows(rest, t) && Lex(t, walk) == Lex(UpTo(t, rest), walk) + Lex(rest, walk)
  }

  lemma CutSplits(t: string, rest: string, toks: seq<Token>, walk: Walk)
    requires Follows(rest, t) && Lex(t, walk) == toks + Lex(rest, walk)
    ensures Splits(t, rest, walk) && Lex(UpTo(t, rest), walk) == toks
  {
    hide Lex, Flatten;
    var later := Lex(rest, walk);
    assert [] + toks + later == toks + later;
    LexSlice(t, [], toks, later, walk);
    LexSpells(rest, walk);
    FlattenNone();
    assert t == Flatten(toks) + rest;
    assert Flatten(toks) == UpTo(t, rest);
  }

  lemma FlattenNone()
    ensures Flatten([]) == ""
  {
  }

  lemma SplitsThen(t: string, mid: string, rest: string, walk: Walk)
    requires Splits(t, mid, walk) && Splits(mid, rest, walk)
    ensures Splits(t, rest, walk) && Lex(UpTo(t, rest), walk) == Lex(UpTo(t, mid), walk) + Lex(UpTo(mid, rest), walk)
  {
    hide Lex;
    FollowsOn(t, mid, rest);
    var a, b := Lex(UpTo(t, mid), walk), Lex(UpTo(mid, rest), walk);
    assert a + (b + Lex(rest, walk)) == (a + b) + Lex(rest, walk);
    CutSplits(t, rest, a + b, walk);
  }

  lemma LexOne(tok: Token, y: string, walk: Walk)
    requires tok.text != ""
    ensures Lex(tok.text + y, walk) == [tok] + Lex(y, walk) <==> Sits(tok, y, walk)
  {
    var whole := tok.text + y;
    assert whole[|tok.text|..] == y;
    assert ([tok] + Lex(y, walk))[0] == tok;
  }

  lemma JoinOne(toks: seq<Token>, y: string, walk: Walk)
    requires |toks| == 1 && Settled(toks, walk)
    ensures Lex(Flatten(toks) + y, walk) == toks + Lex(y, walk) <==> Sits(toks[0], y, walk)
  {
    hide Lex, Lead;
    assert Flatten(toks) == toks[0].text + Flatten([]) == toks[0].text;
    LexOne(toks[0], y, walk);
    assert toks == [toks[0]];
  }

  /** Tokens that are settled on their own are settled before `y` when the last of them sits there. */
  lemma {:induction false} LexJoin(toks: seq<Token>, y: string, walk: Walk)
    requires toks != [] && Settled(toks, walk) && y != ""
    ensures Lex(Flatten(toks) + y, walk) == toks + Lex(y, walk) <==> Sits(toks[|toks| - 1], y, walk)
  {
    hide Lex, Lead, Sits, Flatten, Settled;
    if |toks| == 1 {
      JoinOne(toks, y, walk);
    } else {
      var later := Flatten(toks[1..]) + y;
      FirstSits(toks, y, walk);
      SitsNotEmpty(toks[0], later, walk);
      LexOne(toks[0], later, walk);
      LexJoin(toks[1..], y, walk);
      SameTail(toks[0], Lex(later, walk), toks[1..] + Lex(y, walk));
      assert toks + Lex(y, walk) == [toks[0]] + (toks[1..] + Lex(y, walk));
    }
  }

  lemma SameTail(tok: Token, a: seq<Token>, b: seq<Token>)
    ensures [tok] + a == [tok] + b <==> a == b
  {
    assert ([tok] + a)[1..] == a && ([tok] + b)[1..] == b;
  }

  lemma SitsNotEmpty(tok: Token, y: string, walk: Walk)
    ensures Sits(tok, y, walk) ==> tok.text != ""
  {
  }

  /** The first of several tokens does not notice what comes after the last. */
  lemma FirstSits(toks: seq<Token>, y: string, walk: Walk)
    requires |toks| > 1 && Settled(toks, walk)
    ensures Flatten(toks) + y == toks[0].text + (Flatten(toks[1..]) + y)
    ensures Sits(toks[0], Flatten(toks[1..]) + y, walk)
    ensures Settled(toks[1..], walk)
  {
    hide Lead, Sits;
    var tail := Flatten(toks[1..]);
    assert Flatten(toks) == toks[0].text + tail;
    assert Sits(toks[0], tail, walk);
    FlattenFirstChar(toks[1..], walk);
    hide Flatten, Settled;
    assert (toks[0].text + tail) + y == toks[0].text + (tail + y);
    SitsNext(toks[0], tail, tail + y, walk);
  }

  lemma FlattenFirstChar(toks: seq<Token>, walk: Walk)
    requires toks != [] && Settled(toks, walk)
    ensures Flatten(toks) != ""
  {
  }

  lemma SpelledTail(head: seq<Token>, tail: seq<Token>, walk: Walk)
    requires Lex(Flatten(head) + Flatten(tail), walk) == head + tail
    ensures Lex(Flatten(tail), walk) == tail
  {
    LexSpells(Flatten(head) + Flatten(tail), walk);
    SettledCut(head, tail, walk);
    Relex(tail, walk);
  }

  lemma {:induction false} CodeBytesSpell(x: string)
    ensures Flatten(CodeBytes(x)) == x
  {
    if x != "" {
      CodeBytesSpell(x[1..]);
    }
  }

  // ---------------------------------------------------------------------------------------------
  // Leaving tokens out
  // ---------------------------------------------------------------------------------------------

  function Without(toks: seq<Token>, drop: Token -> bool): seq<Token> {
    if toks == [] then []
    else (if drop(toks[0]) then [] else [toks[0]]) + Without(toks[1..], drop)
  }

  lemma {:induction false} WithoutAppend(a: seq<Token>, b: seq<Token>, drop: Token -> bool)
    ensures Without(a + b, drop) == Without(a, drop) + Without(b, drop)
  {
    if a == [] {
      assert a + b == b;
    } else {
      assert (a + b)[1..] == a[1..] + b;
      WithoutAppend(a[1..], b, drop);
    }
  }

  lemma {:induction false} WithoutAll(toks: seq<Token>, drop: Token -> bool)
    requires forall tok :: tok in toks ==> drop(tok)
    ensures Without(toks, drop) == []
  {
    if toks != [] {
      WithoutAll(toks[1..], drop);
    }
  }

  lemma WithoutFirst(tok: Token, toks: seq<Token>, drop: Token -> bool)
    ensures Without([tok] + toks, drop) == if drop(tok) then Without(toks, drop) else [tok] + Without(toks, drop)
  {
    assert ([tok] + toks)[1..] == toks;
  }

  /** The first token kept, and the dropped ones before it. */
  lemma {:induction false} FirstKept(toks: seq<Token>, drop: Token -> bool) returns (gap: seq<Token>, later: seq<Token>)
    requires Without(toks, drop) != []
    ensures toks == gap + [Without(toks, drop)[0]] + later && Without(later, drop) == Without(toks, drop)[1..]
    ensures forall tok :: tok in gap ==> drop(tok)
    ensures !drop(Without(toks, drop)[0])
  {
    if drop(toks[0]) {
      var gap', later' := FirstKept(toks[1..], drop);
      gap, later := [toks[0]] + gap', later';
      assert toks == [toks[0]] + toks[1..];
    } else {
      gap, later := [], toks[1..];
    }
  }

  // ---------------------------------------------------------------------------------------------
  // White space and names, as tokens
  // ---------------------------------------------------------------------------------------------

  predicate IsSpaceToken(tok: Token) {
    tok.kind == Code && |tok.text| == 1 && IsSpace(tok.text[0])
  }

  /** What readSQLNameToken takes for a name. */
  predicate IsName(tok: Token) {
    tok.kind == Word || (tok.kind == Quoted && tok.text != "" && (tok.text[0] == '`' || tok.text[0] == '"'))
  }

  predicate AllSpace(toks: seq<Token>) {
    forall tok :: tok in toks ==> IsSpaceToken(tok)
  }

  lemma LexCodeByte(t: string)
    requires t != "" && !IsQuote(t[0]) && CommentLen(t, false) == 0 && !IsIdentifierStart(t[0])
    ensures Lex(t, ByWords) == [Token(Code, [t[0]])] + Lex(t[1..], ByWords)
  {
    assert t[..1] == [t[0]];
  }

  lemma SpaceStep(t: string)
    requires SpaceLen(t) > 0
    ensures Lex(t, ByWords) == [Token(Code, [t[0]])] + Lex(t[1..], ByWords) && IsSpaceToken(Token(Code, [t[0]]))
    ensures SkipSpaces(t) == SkipSpaces(t[1..])
    ensures t[..SpaceLen(t)] == [t[0]] + t[1..][..SpaceLen(t[1..])]
  {
    LexCodeByte(t);
    hide Lex;
    SpaceText(t);
    hide SpaceLen, SkipSpaces;
  }

  lemma SpaceText(t: string)
    requires SpaceLen(t) > 0
    ensures SkipSpaces(t) == SkipSpaces(t[1..])
    ensures t[..SpaceLen(t)] == [t[0]] + t[1..][..SpaceLen(t[1..])]
  {
    var n := SpaceLen(t[1..]);
    assert SpaceLen(t) == 1 + n;
    hide SpaceLen;
    assert t[1..][..n] == t[1..1 + n] && t[1..][n..] == t[1 + n..];
  }

  /** Skipping white space skips as many tokens. */
  lemma {:induction false} SpacesLex(t: string) returns (gap: seq<Token>)
    ensures Lex(t, ByWords) == gap + Lex(SkipSpaces(t), ByWords) && AllSpace(gap)
    ensures Flatten(gap) == t[..SpaceLen(t)]
  {
    hide Lex, SkipSpaces, IsSpaceToken, SpaceLen;
    if SpaceLen(t) > 0 {
      SpaceStep(t);
      var later := SpacesLex(t[1..]);
      var tok := Token(Code, [t[0]]);
      gap := [tok] + later;
      assert gap[1..] == later;
      assert gap + Lex(SkipSpaces(t), ByWords) == [tok] + (later + Lex(SkipSpaces(t), ByWords));
    } else {
      gap := [];
      NoSpaces(t);
      assert [] + Lex(t, ByWords) == Lex(t, ByWords);
    }
  }

  lemma NoSpaces(t: string)
    requires SpaceLen(t) == 0
    ensures SkipSpaces(t) == t && t[..SpaceLen(t)] == ""
  {
  }

  lemma AfterSpaces(t: string)
    ensures Lex(SkipSpaces(t), ByWords) != [] ==> !IsSpaceToken(Lex(SkipSpaces(t), ByWords)[0])
  {
    hide QuoteTail, CommentLen, PartTail;
  }

  /** Leading white space is found the same way in the tokens. */
  lemma SpacesFound(t: string, gap: seq<Token>, later: seq<Token>)
    requires Lex(t, ByWords) == gap + later && AllSpace(gap) && (later != [] ==> !IsSpaceToken(later[0]))
    ensures Lex(SkipSpaces(t), ByWords) == later
  {
    var gap' := SpacesLex(t);
    AfterSpaces(t);
    hide Lex, SkipSpaces;
    SameGap(gap, later, gap', Lex(SkipSpaces(t), ByWords), IsSpaceToken);
  }

  /** A list has one longest beginning that is dropped. */
  lemma SameGap(a: seq<Token>, x: seq<Token>, b: seq<Token>, y: seq<Token>, drop: Token -> bool)
    requires a + x == b + y && (forall tok :: tok in a || tok in b ==> drop(tok))
    requires (x != [] ==> !drop(x[0])) && (y != [] ==> !drop(y[0]))
    ensures a == b && x == y
  {
    assert a == (a + x)[..|a|] && b == (b + y)[..|b|];
    assert x == (a + x)[|a|..] && y == (b + y)[|b|..];
  }

  /** Reading a name is reading one token. */
  lemma NameLex(t: string)
    ensures var toks := Lex(SkipSpaces(t), ByWords);
            && (NameToken(t).Parsed? <==> toks != [] && IsName(toks[0]))
            && (NameToken(t).Parsed? ==> toks[0].text == NameToken(t).text && Lex(NameToken(t).rest, ByWords) == toks[1..])
  {
    hide QuoteTail, PartTail, SpaceLen;
    var u := SkipSpaces(t);
    if u != "" {
      assert Lex(u, ByWords)[0] == Lead(u, ByWords);
      assert Lex(u, ByWords)[1..] == Lex(u[|Lead(u, ByWords).text|..], ByWords);
    }
  }

  /** A name that something follows ends in a byte that is neither blank nor a semicolon. */
  lemma NameEnds(tok: Token, y: string)
    requires IsName(tok) && Sits(tok, y, ByWords) && y != ""
    ensures !IsBlank(tok.text[0]) && !IsBlank(tok.text[|tok.text| - 1]) && tok.text[|tok.text| - 1] != ';'
    ensures tok.kind == Quoted ==> |tok.text| >= 2 && tok.text[|tok.text| - 1] == tok.text[0]
  {
    if tok.kind == Quoted {
      QuotedEnds(tok, y);
    } else {
      hide Lead;
      LeadWordIsParts(tok.text + y);
      var x := tok.text;
      assert x[|x| - 1] in x && x[0] in x;
    }
  }

  lemma QuotedEnds(tok: Token, y: string)
    requires tok.kind == Quoted && Sits(tok, y, ByWords) && y != ""
    ensures |tok.text| >= 2 && tok.text[|tok.text| - 1] == tok.text[0] && IsQuote(tok.text[0])
  {
    var x := tok.text;
    TailAfterFirst(x, y, "");
    ShortSpanIsClosed(x[1..], y, x[0]);
    hide QuoteTail;
    ClosedEnd(x[1..], x[0]);
  }

  lemma {:induction false} ClosedEnd(x: string, q: char)
    requires ClosedBody(x, q)
    ensures x != "" && x[|x| - 1] == q
  {
    if x[0] == '\\' && q != '`' && |x| > 1 {
      ClosedEnd(x[2..], q);
    } else if x[0] == q {
      if q != '`' && |x| > 1 && x[1] == q {
        ClosedEnd(x[2..], q);
      }
    } else {
      ClosedEnd(x[1..], q);
    }
  }

  // ---------------------------------------------------------------------------------------------
  // Parentheses, as the identifier-wise walk sees them
  // ---------------------------------------------------------------------------------------------

  lemma {:induction false} FlattenSpread(toks: seq<Token>)
    ensures Flatten(Spread(toks)) == Flatten(toks)
  {
    if toks != [] {
      FlattenSpread(toks[1..]);
      var head := if toks[0].kind == Word then CodeBytes(toks[0].text) else [toks[0]];
      FlattenAppend(head, Spread(toks[1..]));
      CodeBytesSpell(toks[0].text);
      assert [toks[0]][1..] == [];
    }
  }

  lemma {:induction false} SpreadAppend(a: seq<Token>, b: seq<Token>)
    ensures Spread(a + b) == Spread(a) + Spread(b)
  {
    if a == [] {
      assert a + b == b;
    } else {
      assert (a + b)[1..] == a[1..] + b;
      SpreadAppend(a[1..], b);
    }
  }

  /** The bytes of a word neither open nor close a parenthesis. */
  lemma {:induction false} CloseAtPast(a: seq<Token>, b: seq<Token>, depth: nat)
    requires depth > 0 && forall tok :: tok in a ==> !IsCode(tok, '(') && !IsCode(tok, ')')
    ensures CloseAt(a + b, depth) == if CloseAt(b, depth) == 0 then 0 else |a| + CloseAt(b, depth)
  {
    if a == [] {
      assert a + b == b;
    } else {
      assert (a + b)[1..] == a[1..] + b;
      CloseAtPast(a[1..], b, depth);
    }
  }

  lemma {:induction false} WordBytesPlain(x: string)
    requires forall c :: c in x ==> IsIdentifierPart(c)
    ensures forall tok :: tok in CodeBytes(x) ==> tok.kind == Code && |tok.text| == 1 && IsIdentifierPart(tok.text[0])
  {
    if x != "" {
      assert x[0] in x;
      WordBytesPlain(x[1..]);
    }
  }

  predicate WordsAreParts(toks: seq<Token>) {
    forall tok :: tok in toks && tok.kind == Word ==> forall c :: c in tok.text ==> IsIdentifierPart(c)
  }

  lemma {:induction false} LexWordsAreParts(t: string)
    ensures WordsAreParts(Lex(t, ByWords))
    decreases |t|
  {
    if t != "" {
      LexWordsAreParts(t[|Lead(t, ByWords).text|..]);
      if Lead(t, ByWords).kind == Word {
        LeadWordIsParts(t);
      }
    }
  }

  lemma {:induction false} CloseAtSpread(toks: seq<Token>, depth: nat)
    requires depth > 0 && WordsAreParts(toks)
    ensures CloseAt(Spread(toks), depth) == 0 <==> CloseAt(toks, depth) == 0
    ensures Spread(toks)[..CloseAt(Spread(toks), depth)] == Spread(toks[..CloseAt(toks, depth)])
  {
    hide CodeBytes, WordsAreParts, Spread, CloseAt;
    if toks == [] {
      SpreadNothing();
      CloseAtNothing(depth);
    } else {
      var tok, later := toks[0], toks[1..];
      FewerParts(toks);
      if DepthAfter(tok, depth) > 0 {
        CloseAtSpread(later, DepthAfter(tok, depth));
      }
      SpreadStep(tok, later, depth);
      assert toks == [tok] + later;
    }
  }

  lemma SpreadNothing()
    ensures Spread([]) == []
  {
  }

  lemma CloseAtNothing(depth: nat)
    requires depth > 0
    ensures CloseAt([], depth) == 0
  {
  }

  lemma FewerParts(toks: seq<Token>)
    requires toks != [] && WordsAreParts(toks)
    ensures WordsAreParts(toks[1..]) && (toks[0].kind == Word ==> forall c :: c in toks[0].text ==> IsIdentifierPart(c))
  {
  }

  lemma CloseAtCons(tok: Token, toks: seq<Token>, depth: nat)
    requires depth > 0
    ensures var depth' := DepthAfter(tok, depth);
            CloseAt([tok] + toks, depth) ==
              if depth' == 0 then 1 else if CloseAt(toks, depth') == 0 then 0 else CloseAt(toks, depth') + 1
  {
    assert ([tok] + toks)[1..] == toks;
  }

  lemma SpreadStep(tok: Token, later: seq<Token>, depth: nat)
    requires depth > 0 && (tok.kind == Word ==> forall c :: c in tok.text ==> IsIdentifierPart(c))
    requires var depth' := DepthAfter(tok, depth);
             depth' > 0 ==> (CloseAt(Spread(later), depth') == 0 <==> CloseAt(later, depth') == 0) &&
                            Spread(later)[..CloseAt(Spread(later), depth')] == Spread(later[..CloseAt(later, depth')])
    ensures var toks := [tok] + later;
            && (CloseAt(Spread(toks), depth) == 0 <==> CloseAt(toks, depth) == 0)
            && Spread(toks)[..CloseAt(Spread(toks), depth)] == Spread(toks[..CloseAt(toks, depth)])
  {
    hide Spread, CloseAt, CodeBytes;
    var toks, depth' := [tok] + later, DepthAfter(tok, depth);
    SpreadCons(tok, later);
    CloseAtCons(tok, later, depth);
    SpreadNothing();
    if tok.kind == Word {
      WordBytesPlain(tok.text);
      CloseAtPast(CodeBytes(tok.text), Spread(later), depth);
      var k := CloseAt(later, depth);
      if k > 0 {
        assert toks[..k + 1] == [tok] + later[..k];
        SpreadCons(tok, later[..k]);
      } else {
        assert toks[..0] == [];
      }
    } else {
      CloseAtCons(tok, Spread(later), depth);
      if depth' == 0 {
        assert toks[..1] == [tok] + [];
        SpreadCons(tok, []);
      } else {
        var k := CloseAt(later, depth');
        if k > 0 {
          assert toks[..k + 1] == [tok] + later[..k];
          SpreadCons(tok, later[..k]);
        } else {
          assert toks[..0] == [];
        }
      }
    }
  }

  lemma SpreadCons(tok: Token, toks: seq<Token>)
    ensures Spread([tok] + toks) == (if tok.kind == Word then CodeBytes(tok.text) else [tok]) + Spread(toks)
    ensures toks == [] ==> [tok] + toks == [tok]
  {
    assert ([tok] + toks)[1..] == toks;
  }

  /** The length of a parenthesised span, counted in the tokens of the identifier-wise walk. */
  lemma ParenWords(t: string)
    requires t != "" && t[0] == '('
    ensures var toks := Lex(t[1..], ByWords);
            var k := CloseAt(toks, 1);
            ParenLen(t) == if k == 0 then 0 else 1 + |Flatten(toks[..k])|
  {
    var toks := Lex(t[1..], ByWords);
    WalksInStep(t[1..]);
    LexWordsAreParts(t[1..]);
    hide Lex;
    CloseAtSpread(toks, 1);
    FlattenSpread(toks[..CloseAt(toks, 1)]);
  }

  // ---------------------------------------------------------------------------------------------
  // Building texts token by token
  // ---------------------------------------------------------------------------------------------

  lemma {:induction false} PartsEnd(x: string, y: string)
    requires forall c :: c in x ==> IsIdentifierPart(c)
    requires y == "" || !IsIdentifierPart(y[0])
    ensures PartTail(x + y) == |x|
  {
    if x == "" {
      assert x + y == y;
    } else {
      assert x[0] in x && (x + y)[1..] == x[1..] + y;
      PartsEnd(x[1..], y);
    }
  }

  lemma WordSits(word: string, y: string)
    requires word != "" && IsIdentifierStart(word[0]) && forall c :: c in word ==> IsIdentifierPart(c)
    requires y == "" || !IsIdentifierPart(y[0])
    ensures Sits(Token(Word, word), y, ByWords)
  {
    assert (word + y)[1..] == word[1..] + y;
    PartsEnd(word[1..], y);
    assert (word + y)[..|word|] == word;
  }

  lemma CodeSits(c: char, y: string)
    requires !IsQuote(c) && !IsIdentifierStart(c) && c != '#' && c != '-' && c != '/'
    ensures Sits(Token(Code, [c]), y, ByWords)
  {
    assert ([c] + y)[..1] == [c];
  }

  lemma SettledCons(tok: Token, toks: seq<Token>)
    requires Sits(tok, Flatten(toks), ByWords) && Settled(toks, ByWords)
    ensures Settled([tok] + toks, ByWords)
    ensures Flatten([tok] + toks) == tok.text + Flatten(toks)
  {
    assert ([tok] + toks)[1..] == toks;
  }

  predicate IsIdentifier(word: string) {
    word != "" && IsIdentifierStart(word[0]) && forall c :: c in word ==> IsIdentifierPart(c)
  }

  /** A name ahead is read up to the first byte that is no part of it. */
  lemma NameAhead(word: string, rest: string)
    requires IsIdentifier(word) && (rest == "" || !IsIdentifierPart(rest[0]))
    ensures NameToken(word + rest) == Parsed(word, rest)
  {
    var u := word + rest;
    assert SpaceLen(u) == 0 && SkipSpaces(u) == u;
    assert u[1..] == word[1..] + rest;
    PartsEnd(word[1..], rest);
    assert u[..|word|] == word && u[|word|..] == rest;
  }

  predicate BlankText(s: string) {
    forall c :: c in s ==> IsBlank(c)
  }

  lemma FlattenSnoc(toks: seq<Token>, tok: Token)
    ensures Flatten(toks + [tok]) == Flatten(toks) + tok.text
  {
    FlattenAppend(toks, [tok]);
    assert [tok][1..] == [];
  }

  lemma NothingSettled()
    ensures Settled([], ByWords)
  {
  }

  /** Putting a word or a code byte in front of settled tokens. */
  lemma PutWord(word: string, later: seq<Token>)
    requires IsIdentifier(word) && Settled(later, ByWords) && (later == [] || !IsIdentifierPart(Flatten(later)[0]))
    requires later != [] ==> Flatten(later) != ""
    ensures Settled([Token(Word, word)] + later, ByWords) && Flatten([Token(Word, word)] + later) == word + Flatten(later)
  {
    assert later == [] ==> Flatten(later) == "";
    WordSits(word, Flatten(later));
    SettledCons(Token(Word, word), later);
  }

  lemma PutCode(c: char, later: seq<Token>)
    requires !IsQuote(c) && !IsIdentifierStart(c) && c != '#' && c != '-' && c != '/' && Settled(later, ByWords)
    ensures Settled([Token(Code, [c])] + later, ByWords) && Flatten([Token(Code, [c])] + later) == [c] + Flatten(later)
  {
    CodeSits(c, Flatten(later));
    SettledCons(Token(Code, [c]), later);
  }
}
