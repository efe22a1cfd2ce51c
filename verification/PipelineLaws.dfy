/**
 * What the passes of translateSQL make of a text (pkg/mysqlmock/protocol.go, function_compat.go and
 * sql_compat.go): each pass stated on the tokens of its input, and when its output is read as just those
 * tokens.
 */
module PipelineLaws {
  import opened Options
  import opened Text
  import opened SqlScanner
  import opened SqlSplitting
  import opened SqlParsing
  import opened TokenLists
  import opened IndexStatements
  import opened IndexGrammar
  import opened UpdateTargets
  import opened LikeEscape
  import opened Pipeline
  import StringLiterals
  import UpdateTargetLaws

  // ---------------------------------------------------------------------------------------------
  // White space and calls, in tokens
  // ---------------------------------------------------------------------------------------------

  predicate IsByte(tok: Token, c: char) {
    tok == Token(Code, [c])
  }

  predicate IsDigitToken(tok: Token) {
    tok.kind == Code && |tok.text| == 1 && IsDigit(tok.text[0])
  }

  /** The tokens behind white space. */
  function SkipGap(toks: seq<Token>): (r: seq<Token>)
    ensures |r| <= |toks|
  {
    if toks != [] && IsSpaceToken(toks[0]) then SkipGap(toks[1..]) else toks
  }

  function SkipDigits(toks: seq<Token>): (r: seq<Token>)
    ensures |r| <= |toks|
  {
    if toks != [] && IsDigitToken(toks[0]) then SkipDigits(toks[1..]) else toks
  }

  /** The tokens behind `()` or `(digits)`, white space allowed anywhere in it. */
  function AfterCall(toks: seq<Token>): (r: Option<seq<Token>>)
    ensures r.Some? ==> |r.value| < |toks|
  {
    var open := SkipGap(toks);
    if open == [] || !IsByte(open[0], '(') then None
    else
      var close := SkipGap(SkipDigits(SkipGap(open[1..])));
      if close != [] && IsByte(close[0], ')') then Some(close[1..]) else None
  }

  lemma {:induction false} SkipAll(gap: seq<Token>, later: seq<Token>)
    requires AllSpace(gap) && (later != [] ==> !IsSpaceToken(later[0]))
    ensures SkipGap(gap + later) == later
  {
    if gap == [] {
      assert gap + later == later;
    } else {
      assert gap[0] in gap && (gap + later)[1..] == gap[1..] + later;
      SkipAll(gap[1..], later);
    }
  }

  lemma SkipGapLex(t: string)
    ensures SkipGap(Lex(t, ByWords)) == Lex(SkipSpaces(t), ByWords)
  {
    var gap := SpacesLex(t);
    AfterSpaces(t);
    hide Lex, SkipSpaces, IsSpaceToken;
    SkipAll(gap, Lex(SkipSpaces(t), ByWords));
  }

  lemma {:induction false} SkipDigitsLex(t: string)
    ensures SkipDigits(Lex(t, ByWords)) == Lex(t[DigitsLen(t)..], ByWords)
  {
    if t != "" && IsDigit(t[0]) {
      LexCodeByte(t);
      SkipDigitsLex(t[1..]);
      hide Lex;
      assert t[1..][DigitsLen(t[1..])..] == t[DigitsLen(t)..];
      assert ([Token(Code, [t[0]])] + Lex(t[1..], ByWords))[1..] == Lex(t[1..], ByWords);
    } else {
      assert t[0..] == t;
      if t != "" {
        NoDigitFirst(t);
      }
    }
  }

  lemma NoDigitFirst(t: string)
    requires t != "" && !IsDigit(t[0])
    ensures Lex(t, ByWords) != [] && !IsDigitToken(Lex(t, ByWords)[0])
  {
    hide QuoteTail, PartTail, CommentLen;
  }

  lemma ByteFirst(t: string, c: char)
    requires c == '(' || c == ')'
    ensures t != "" && t[0] == c <==> Lex(t, ByWords) != [] && IsByte(Lex(t, ByWords)[0], c)
    ensures t != "" && t[0] == c ==> Lex(t, ByWords)[1..] == Lex(t[1..], ByWords)
  {
    if t != "" && t[0] == c {
      LexCodeByte(t);
    } else {
      hide QuoteTail, PartTail, CommentLen;
    }
  }

  /** A call is found in the tokens as it is in the text. */
  lemma CallFound(t: string)
    ensures TimestampLen(t) > 0 <==> AfterCall(Lex(t, ByWords)).Some?
    ensures TimestampLen(t) > 0 ==> Lex(t[TimestampLen(t)..], ByWords) == AfterCall(Lex(t, ByWords)).value
  {
    hide Lex, SkipSpaces, TimestampLen, SkipGap, SkipDigits, DigitsLen, IsByte;
    CallRestIs(t);
    SkipGapLex(t);
    var u := SkipSpaces(t);
    ByteFirst(u, '(');
    if u != "" && u[0] == '(' {
      SkipGapLex(u[1..]);
      var v := SkipSpaces(u[1..]);
      SkipDigitsLex(v);
      SkipGapLex(v[DigitsLen(v)..]);
      ByteFirst(SkipSpaces(v[DigitsLen(v)..]), ')');
    }
  }

  // ---------------------------------------------------------------------------------------------
  // The token loop
  // ---------------------------------------------------------------------------------------------

  /** NOW or CURRENT_TIMESTAMP with a call. */
  predicate IsClock(tok: Token, later: seq<Token>) {
    (LikeEscape.IsWord(tok, "NOW") || LikeEscape.IsWord(tok, "CURRENT_TIMESTAMP")) && AfterCall(later).Some?
  }

  /** The tokens the loop writes outside DDL. */
  function Looped(toks: seq<Token>): seq<Token>
    decreases |toks|
  {
    if toks == [] then []
    else
      var tok, later := toks[0], toks[1..];
      if IsClock(tok, later) then [Token(Word, "CURRENT_TIMESTAMP")] + Looped(AfterCall(later).value)
      else if LikeEscape.IsWord(tok, "TRUE") then [Token(Code, "1")] + Looped(later)
      else if LikeEscape.IsWord(tok, "FALSE") then [Token(Code, "0")] + Looped(later)
      else if LikeEscape.IsWord(tok, "AUTO_INCREMENT") then [Token(Word, "AUTOINCREMENT")] + Looped(later)
      else [tok] + Looped(later)
  }

  predicate StartsPart(toks: seq<Token>) {
    toks != [] && toks[0].text != "" && IsIdentifierPart(toks[0].text[0])
  }

  /** No call of a clock is directly followed by a byte that would go on with its name. */
  predicate ClocksApart(toks: seq<Token>)
    decreases |toks|
  {
    if toks == [] then true
    else if IsClock(toks[0], toks[1..]) then
      !StartsPart(AfterCall(toks[1..]).value) && ClocksApart(AfterCall(toks[1..]).value)
    else ClocksApart(toks[1..])
  }

  /** The loop writes the tokens' texts. */
  lemma {:induction false} TokenLoopText(t: string)
    ensures TokenLoop(t) == Flatten(Looped(Lex(t, ByWords)))
    decreases |t|
  {
    if t == "" {
      assert Looped([]) == [] && Flatten([]) == "";
    } else {
      var tok := Lead(t, ByWords);
      var rest := t[|tok.text|..];
      var toks := Lex(t, ByWords);
      assert toks[0] == tok && toks[1..] == Lex(rest, ByWords);
      CallFound(rest);
      ClockWords(tok);
      TokenLoopText(rest);
      if tok.kind == Word && Upper(tok.text) in CLOCKS && TimestampLen(rest) > 0 {
        TokenLoopText(rest[TimestampLen(rest)..]);
      }
      hide Lex, Lead, TimestampLen, AfterCall, Upper, CLOCKS;
      LoopedFirst(tok, Lex(rest, ByWords));
    }
  }

  lemma ClockWords(tok: Token)
    ensures Upper(tok.text) in CLOCKS <==> Upper(tok.text) == "NOW" || Upper(tok.text) == "CURRENT_TIMESTAMP"
  {
    hide Upper;
  }

  lemma FlattenCons(tok: Token, later: seq<Token>)
    ensures Flatten([tok] + later) == tok.text + Flatten(later)
  {
    assert ([tok] + later)[1..] == later;
  }

  lemma LoopedFirst(tok: Token, later: seq<Token>)
    ensures Flatten(Looped([tok] + later)) ==
              if IsClock(tok, later) then "CURRENT_TIMESTAMP" + Flatten(Looped(AfterCall(later).value))
              else (if LikeEscape.IsWord(tok, "TRUE") then "1" else if LikeEscape.IsWord(tok, "FALSE") then "0"
                    else if LikeEscape.IsWord(tok, "AUTO_INCREMENT") then "AUTOINCREMENT" else tok.text) + Flatten(Looped(later))
  {
    hide AfterCall, Upper;
    assert ([tok] + later)[1..] == later;
    FlattenCons(tok, Looped(later));
    FlattenCons(Token(Code, "1"), Looped(later));
    FlattenCons(Token(Code, "0"), Looped(later));
    FlattenCons(Token(Word, "AUTOINCREMENT"), Looped(later));
    if AfterCall(later).Some? {
      FlattenCons(Token(Word, "CURRENT_TIMESTAMP"), Looped(AfterCall(later).value));
    }
  }

  // ---------------------------------------------------------------------------------------------
  // When what the loop writes is read as it was meant
  // ---------------------------------------------------------------------------------------------

  lemma CallIsLater(toks: seq<Token>)
    requires Settled(toks, ByWords) && AfterCall(toks).Some?
    ensures Settled(AfterCall(toks).value, ByWords)
  {
    hide Sits, IsSpaceToken, IsDigitToken, IsByte;
    SkipGapLater(toks);
    var open := SkipGap(toks);
    SettledTail(open);
    SkipGapLater(open[1..]);
    SkipDigitsLater(SkipGap(open[1..]));
    SkipGapLater(SkipDigits(SkipGap(open[1..])));
    SettledTail(SkipGap(SkipDigits(SkipGap(open[1..]))));
  }

  lemma SettledTail(toks: seq<Token>)
    ensures toks != [] && Settled(toks, ByWords) ==> Settled(toks[1..], ByWords) && Sits(toks[0], Flatten(toks[1..]), ByWords)
  {
    hide Sits;
  }

  lemma {:induction false} SkipGapLater(toks: seq<Token>)
    requires Settled(toks, ByWords)
    ensures Settled(SkipGap(toks), ByWords)
  {
    hide Sits, IsSpaceToken;
    if toks != [] {
      SkipGapLater(toks[1..]);
    }
  }

  lemma {:induction false} SkipDigitsLater(toks: seq<Token>)
    requires Settled(toks, ByWords)
    ensures Settled(SkipDigits(toks), ByWords)
  {
    hide Sits, IsDigitToken;
    if toks != [] {
      SkipDigitsLater(toks[1..]);
    }
  }

  /** The first byte of the tokens written: another part of an identifier, or the same byte. */
  lemma LoopedStarts(toks: seq<Token>)
    requires Settled(toks, ByWords)
    ensures Flatten(toks) == "" <==> Flatten(Looped(toks)) == ""
    ensures Flatten(toks) != "" && !IsIdentifierPart(Flatten(toks)[0]) ==> Flatten(Looped(toks))[0] == Flatten(toks)[0]
    ensures Flatten(toks) != "" && IsIdentifierPart(Flatten(toks)[0]) ==> IsIdentifierPart(Flatten(Looped(toks))[0])
    ensures StartsPart(toks) <==> Flatten(toks) != "" && IsIdentifierPart(Flatten(toks)[0])
  {
    if toks != [] {
      var tok, later := toks[0], toks[1..];
      assert toks == [tok] + later;
      WordStarts(tok, Flatten(later));
      hide Lead, AfterCall, Upper;
      LoopedFirst(tok, later);
      FlattenCons(tok, later);
    }
  }

  lemma WordStarts(tok: Token, y: string)
    requires Sits(tok, y, ByWords)
    ensures tok.text != "" && (tok.kind == Word ==> IsIdentifierStart(tok.text[0]))
  {
    hide QuoteTail, CommentLen, PartTail;
  }

  /** A token that is no word may be followed by any part of an identifier instead. */
  lemma SitsBeforePart(tok: Token, y: string, z: string)
    requires Sits(tok, y, ByWords) && y != "" && tok.kind != Word && z != "" && (IsIdentifierPart(z[0]) || z[0] == y[0])
    ensures Sits(tok, z, ByWords)
  {
    var x := tok.text;
    TailAfterFirst(x, y, z);
    match tok.kind
    case Quoted =>
      ShortSpanIsClosed(x[1..], y, x[0]);
      ClosedBodyEnds(x[1..], z, x[0]);
    case Comment => CommentLocal(x, y, z, false);
    case Code => CodeBeforePart(x, y, z);
  }

  lemma CodeBeforePart(x: string, y: string, z: string)
    requires x != "" && Sits(Token(Code, x), y, ByWords) && y != "" && z != "" && (IsIdentifierPart(z[0]) || z[0] == y[0])
    ensures Sits(Token(Code, x), z, ByWords)
  {
    TailAfterFirst(x, y, z);
    assert |x| == 1;
    assert (x + z)[..1] == x && (x + z)[1] == z[0] && (x + y)[1] == y[0];
  }

  /** A word sits where no part of an identifier follows it. */
  lemma WordSitsExactly(word: string, y: string)
    requires IsIdentifier(word)
    ensures Sits(Token(Word, word), y, ByWords) <==> y == "" || !IsIdentifierPart(y[0])
  {
    if y == "" || !IsIdentifierPart(y[0]) {
      WordSits(word, y);
    } else {
      WordGoesOn(word, y);
    }
  }

  lemma WordGoesOn(word: string, y: string)
    requires IsIdentifier(word) && y != "" && IsIdentifierPart(y[0])
    ensures !Sits(Token(Word, word), y, ByWords)
  {
    var t := word + y;
    assert t[1..] == word[1..] + y;
    assert t[|word|] == y[0];
    hide QuoteTail;
    assert PartTail(t[1..]) != |word| - 1 by {
      assert t[1..][|word| - 1] == y[0];
    }
  }

  lemma NewWords()
    ensures IsIdentifier("CURRENT_TIMESTAMP") && IsIdentifier("AUTOINCREMENT")
  {
  }

  lemma ConsSettled(tok: Token, later: seq<Token>)
    ensures Settled([tok] + later, ByWords) <==> Sits(tok, Flatten(later), ByWords) && Settled(later, ByWords)
  {
    hide Sits;
    assert ([tok] + later)[1..] == later;
  }

  /** What the loop writes is read as it was meant exactly when no clock call runs into a name. */
  lemma {:induction false} LoopedSettled(toks: seq<Token>)
    requires Settled(toks, ByWords)
    ensures Settled(Looped(toks), ByWords) <==> ClocksApart(toks)
    decreases |toks|
  {
    hide Sits, AfterCall, Upper, Settled, Flatten;
    if toks == [] {
      NothingSettled();
    } else {
      var tok, later := toks[0], toks[1..];
      assert toks == [tok] + later;
      SettledTail(toks);
      if IsClock(tok, later) {
        var after := AfterCall(later).value;
        CallIsLater(later);
        LoopedSettled(after);
        ClockSettled(after);
      } else {
        LoopedSettled(later);
        OtherSits(tok, later);
      }
    }
  }

  lemma ClockSettled(after: seq<Token>)
    requires Settled(after, ByWords)
    ensures Settled([Token(Word, "CURRENT_TIMESTAMP")] + Looped(after), ByWords) <==>
              !StartsPart(after) && Settled(Looped(after), ByWords)
  {
    hide Sits, AfterCall, Upper, Settled, Flatten, Looped;
    NewWords();
    LoopedStarts(after);
    WordSitsExactly("CURRENT_TIMESTAMP", Flatten(Looped(after)));
    ConsSettled(Token(Word, "CURRENT_TIMESTAMP"), Looped(after));
  }

  /** Any other token, replaced or not, sits before what is written next. */
  lemma OtherSits(tok: Token, later: seq<Token>)
    requires Settled(later, ByWords) && Sits(tok, Flatten(later), ByWords) && !IsClock(tok, later)
    ensures Settled(Looped([tok] + later), ByWords) <==> Settled(Looped(later), ByWords)
  {
    hide Sits, AfterCall, Upper, Settled, Flatten;
    var y, z := Flatten(later), Flatten(Looped(later));
    assert ([tok] + later)[1..] == later;
    LoopedStarts(later);
    NewWords();
    if tok.kind == Word {
      WordEndsHere(tok, y);
      WordSitsExactly("AUTOINCREMENT", z);
      WordSitsExactly(tok.text, z);
      CodeSits('1', z);
      CodeSits('0', z);
      assert Token(Word, tok.text) == tok;
      assert ['1'] == "1" && ['0'] == "0";
    } else if y == "" {
      assert z == "";
    } else {
      SitsBeforePart(tok, y, z);
    }
    ConsSettled(Token(Code, "1"), Looped(later));
    ConsSettled(Token(Code, "0"), Looped(later));
    ConsSettled(Token(Word, "AUTOINCREMENT"), Looped(later));
    ConsSettled(tok, Looped(later));
  }

  lemma WordEndsHere(tok: Token, y: string)
    requires Sits(tok, y, ByWords) && tok.kind == Word
    ensures IsIdentifier(tok.text) && (y == "" || !IsIdentifierPart(y[0]))
  {
    LeadWordIsParts(tok.text + y);
    WordStarts(tok, y);
    if y != "" && IsIdentifierPart(y[0]) {
      WordGoesOn(tok.text, y);
    }
  }

  /**
   * Outside DDL the loop turns TRUE into 1, FALSE into 0, AUTO_INCREMENT into AUTOINCREMENT and a call of
   * NOW or CURRENT_TIMESTAMP into CURRENT_TIMESTAMP, and leaves every other token alone - as the scanner
   * reads it, exactly when no such call is directly followed by a letter, digit, `_` or `$`.
   */
  lemma TokenLoopReads(t: string)
    ensures TokenLoop(t) == Flatten(Looped(Lex(t, ByWords)))
    ensures Lex(TokenLoop(t), ByWords) == Looped(Lex(t, ByWords)) <==> ClocksApart(Lex(t, ByWords))
  {
    TokenLoopText(t);
    LexSpells(t, ByWords);
    LoopedSettled(Lex(t, ByWords));
    LexSpells(TokenLoop(t), ByWords);
    hide Lex, Looped, ClocksApart, TokenLoop;
    if ClocksApart(Lex(t, ByWords)) {
      Relex(Looped(Lex(t, ByWords)), ByWords);
    }
  }

  /** `NOW()a`: the clock runs into the name behind it. */
  lemma ClockRunsIntoName()
    ensures TokenLoop("NOW()a") == "CURRENT_TIMESTAMPa" && !ClocksApart(Lex("NOW()a", ByWords))
  {
    var t := "NOW" + (['('] + ([')'] + ("a" + "")));
    assert t == "NOW()a";
    var now, open, close, name := Token(Word, "NOW"), Token(Code, "("), Token(Code, ")"), Token(Word, "a");
    hide Settled, Flatten, Lex;
    NothingSettled();
    FlattenNone();
    PutWord("a", []);
    PutCode(')', [name] + []);
    PutCode('(', [close] + ([name] + []));
    PutWord("NOW", [open] + ([close] + ([name] + [])));
    Relex([now] + ([open] + ([close] + ([name] + []))), ByWords);
    TokenLoopText(t);
    ClockTokens(now, open, close, name);
  }

  lemma ClockTokens(now: Token, open: Token, close: Token, name: Token)
    requires now == Token(Word, "NOW") && open == Token(Code, "(") && close == Token(Code, ")") && name == Token(Word, "a")
    ensures var toks := [now] + ([open] + ([close] + ([name] + [])));
            Flatten(Looped(toks)) == "CURRENT_TIMESTAMPa" && !ClocksApart(toks)
  {
    var call := [open] + ([close] + ([name] + []));
    var toks := [now] + call;
    assert Upper("NOW") == "NOW" && |Upper("a")| == 1 && |Upper("TRUE")| == 4;
    assert call[1..] == [close] + ([name] + []) && ([close] + ([name] + []))[1..] == [name] + [];
    assert AfterCall(call) == Some([name] + []);
    assert toks[1..] == call;
    hide AfterCall, Upper;
    assert [name] + [] == [name] && [name][1..] == [];
    assert Looped([name]) == [name] + Looped([]);
    FlattenCons(Token(Word, "CURRENT_TIMESTAMP"), [name]);
    FlattenCons(name, []);
    FlattenNone();
  }

  // ---------------------------------------------------------------------------------------------
  // The operator pass
  // ---------------------------------------------------------------------------------------------

  /** The bytes of `<=>`. */
  predicate IsEqualOperator(toks: seq<Token>) {
    |toks| >= 3 && IsByte(toks[0], '<') && IsByte(toks[1], '=') && IsByte(toks[2], '>')
  }

  /** ` IS ` for `<=>`, every other token as it is. */
  function WithIs(toks: seq<Token>): seq<Token> {
    if toks == [] then []
    else if IsEqualOperator(toks) then
      [Token(Code, " "), Token(Code, "I"), Token(Code, "S"), Token(Code, " ")] + WithIs(toks[3..])
    else [toks[0]] + WithIs(toks[1..])
  }

  lemma PlainByte(t: string)
    requires t != "" && t[0] in "<=>"
    ensures Lex(t, ByBytes) == [Token(Code, [t[0]])] + Lex(t[1..], ByBytes)
  {
    assert t[..1] == [t[0]];
  }

  /** The operator is seen in the tokens as it is in the text. */
  lemma OperatorSeen(t: string)
    requires t != ""
    ensures Lead(t, ByBytes).kind == Code && "<=>" <= t <==> IsEqualOperator(Lex(t, ByBytes))
    ensures IsEqualOperator(Lex(t, ByBytes)) ==> Lex(t, ByBytes)[3..] == Lex(t[3..], ByBytes)
  {
    var toks := Lex(t, ByBytes);
    if "<=>" <= t {
      assert t[0] == '<' && t[1] == '=' && t[2] == '>';
      PlainByte(t);
      PlainByte(t[1..]);
      PlainByte(t[1..][1..]);
      hide Lex;
      assert t[1..][1..] == t[2..] && t[2..][1..] == t[3..];
    }
    LexSpells(t, ByBytes);
    OperatorSpelled(toks);
  }

  lemma OperatorSpelled(toks: seq<Token>)
    ensures IsEqualOperator(toks) ==> "<=>" <= Flatten(toks)
  {
    if IsEqualOperator(toks) {
      var a, b := toks[1..], toks[2..];
      assert a[1..] == b && b[1..] == toks[3..] && a[0] == toks[1] && b[0] == toks[2];
      assert Flatten(b) == ">" + Flatten(toks[3..]);
      assert Flatten(a) == "=" + Flatten(b);
      assert Flatten(toks) == "<" + Flatten(a);
    }
  }

  lemma ThreeOn(toks: seq<Token>)
    requires Settled(toks, ByBytes) && |toks| >= 3
    ensures Settled(toks[3..], ByBytes)
  {
    hide Sits;
    assert Settled(toks[1..], ByBytes);
    assert Settled(toks[1..][1..], ByBytes);
    assert toks[1..][1..][1..] == toks[3..];
  }

  lemma {:induction false} OperatorsText(t: string)
    ensures Operators(t) == Flatten(WithIs(Lex(t, ByBytes)))
    decreases |t|
  {
    if t == "" {
      assert WithIs([]) == [] && Flatten([]) == "";
    } else {
      var tok := Lead(t, ByBytes);
      var toks := Lex(t, ByBytes);
      assert toks != [] && toks[0] == tok && toks[1..] == Lex(t[|tok.text|..], ByBytes);
      OperatorSeen(t);
      hide Lex, Lead, IsEqualOperator;
      if IsEqualOperator(toks) {
        OperatorsText(t[3..]);
        IsFlat(WithIs(toks[3..]));
      } else {
        OperatorsText(t[|tok.text|..]);
        FlattenCons(tok, WithIs(toks[1..]));
      }
    }
  }

  lemma IsFlat(later: seq<Token>)
    ensures Flatten([Token(Code, " "), Token(Code, "I"), Token(Code, "S"), Token(Code, " ")] + later) == " IS " + Flatten(later)
  {
    FlattenAppend([Token(Code, " "), Token(Code, "I"), Token(Code, "S"), Token(Code, " ")], later);
    FourFlat();
  }

  lemma FourFlat()
    ensures Flatten([Token(Code, " "), Token(Code, "I"), Token(Code, "S"), Token(Code, " ")]) == " IS "
  {
    var toks := [Token(Code, " "), Token(Code, "I"), Token(Code, "S"), Token(Code, " ")];
    assert toks[1..] == [Token(Code, "I"), Token(Code, "S"), Token(Code, " ")];
    assert toks[1..][1..] == [Token(Code, "S"), Token(Code, " ")];
    assert toks[1..][1..][1..] == [Token(Code, " ")];
    assert toks[1..][1..][1..][1..] == [];
  }

  lemma InertSits(c: char, y: string)
    requires c == ' ' || c == 'I' || c == 'S'
    ensures Sits(Token(Code, [c]), y, ByBytes)
  {
    assert ([c] + y)[..1] == [c];
  }

  lemma IsSettled(later: seq<Token>)
    requires Settled(later, ByBytes)
    ensures Settled([Token(Code, " "), Token(Code, "I"), Token(Code, "S"), Token(Code, " ")] + later, ByBytes)
  {
    hide Sits, Flatten;
    var t1 := [Token(Code, " ")] + later;
    InertSits(' ', Flatten(later));
    ByteSettled(Token(Code, " "), later);
    var t2 := [Token(Code, "S")] + t1;
    InertSits('S', Flatten(t1));
    ByteSettled(Token(Code, "S"), t1);
    var t3 := [Token(Code, "I")] + t2;
    InertSits('I', Flatten(t2));
    ByteSettled(Token(Code, "I"), t2);
    InertSits(' ', Flatten(t3));
    ByteSettled(Token(Code, " "), t3);
    assert [Token(Code, " ")] + t3 == [Token(Code, " "), Token(Code, "I"), Token(Code, "S"), Token(Code, " ")] + later;
  }

  lemma ByteSettled(tok: Token, later: seq<Token>)
    requires Sits(tok, Flatten(later), ByBytes) && Settled(later, ByBytes)
    ensures Settled([tok] + later, ByBytes)
  {
    hide Sits;
    assert ([tok] + later)[1..] == later;
  }

  lemma WithIsStarts(toks: seq<Token>)
    requires Settled(toks, ByBytes)
    ensures Flatten(toks) == "" <==> Flatten(WithIs(toks)) == ""
    ensures Flatten(toks) != "" ==> Flatten(WithIs(toks))[0] == Flatten(toks)[0] || Flatten(WithIs(toks))[0] == ' '
  {
    if toks != [] {
      FlattenCons(toks[0], WithIs(toks[1..]));
      if IsEqualOperator(toks) {
        IsFlat(WithIs(toks[3..]));
      }
      hide Lead;
    }
  }

  lemma {:induction false} WithIsSettled(toks: seq<Token>)
    requires Settled(toks, ByBytes)
    ensures Settled(WithIs(toks), ByBytes)
  {
    if toks != [] {
      if IsEqualOperator(toks) {
        ThreeOn(toks);
        hide Sits;
        WithIsSettled(toks[3..]);
        IsSettled(WithIs(toks[3..]));
      } else {
        var y, z := Flatten(toks[1..]), Flatten(WithIs(toks[1..]));
        WithIsSettled(toks[1..]);
        WithIsStarts(toks[1..]);
        hide Sits, IsEqualOperator;
        if y != "" {
          SitsNext(toks[0], y, z, ByBytes);
        }
        ByteSettled(toks[0], WithIs(toks[1..]));
      }
    }
  }

  /** The operator pass turns `<=>` in code into ` IS ` and leaves every other token alone, as the scanner reads it. */
  lemma OperatorsRead(t: string)
    ensures Lex(Operators(t), ByBytes) == WithIs(Lex(t, ByBytes))
  {
    OperatorsText(t);
    LexSpells(t, ByBytes);
    WithIsSettled(Lex(t, ByBytes));
    Relex(WithIs(Lex(t, ByBytes)), ByBytes);
  }

  // ---------------------------------------------------------------------------------------------
  // The call pass
  // ---------------------------------------------------------------------------------------------

  /** The tokens inside and behind a parenthesis that closes, white space allowed before it. */
  datatype Paren = NoParen | Paren(inner: seq<Token>, later: seq<Token>)

  function ParenIn(toks: seq<Token>): (r: Paren)
    ensures r.Paren? ==> |r.later| < |toks|
  {
    var u := SkipGap(toks);
    if u == [] || !IsByte(u[0], '(') then NoParen
    else
      var k := CloseAt(u[1..], 1);
      if k == 0 then NoParen else Paren(u[1..][..k - 1], u[1..][k..])
  }

  /** A call of one of the five functions is what `call` makes of name and arguments; everything else is as it is. */
  function CalledText(toks: seq<Token>, call: (string, string) -> Option<string>): string
    decreases |toks|
  {
    if toks == [] then ""
    else
      var tok, later := toks[0], toks[1..];
      var p := ParenIn(later);
      if tok.kind == Word && p.Paren? && Upper(tok.text) in ["CONCAT", "DATE_FORMAT", "JSON_EXTRACT", "JSON_UNQUOTE", "CAST"] &&
         call(tok.text, Flatten(p.inner)).Some?
      then call(tok.text, Flatten(p.inner)).value + CalledText(p.later, call)
      else tok.text + CalledText(later, call)
  }

  lemma CallWordsAre(upper: string)
    ensures upper in CALLS <==> upper in ["CONCAT", "DATE_FORMAT", "JSON_EXTRACT", "JSON_UNQUOTE", "CAST"]
  {
  }

  lemma {:induction false} CloseIsParen(toks: seq<Token>, depth: nat)
    requires depth > 0 && CloseAt(toks, depth) > 0
    ensures IsCode(toks[CloseAt(toks, depth) - 1], ')')
  {
    var depth' := DepthAfter(toks[0], depth);
    if depth' > 0 {
      CloseIsParen(toks[1..], depth');
    }
  }

  /** The arguments of a call, found in the tokens as in the text. */
  lemma ParenFoundIn(t: string)
    ensures var p := ParenIn(Lex(t, ByWords));
            && (CallLen(t) > 0 <==> p.Paren?)
            && (p.Paren? ==> CallInner(t) == Flatten(p.inner) && Lex(t[CallLen(t)..], ByWords) == p.later)
  {
    hide Lex, SkipSpaces, SkipGap, ParenLen, Flatten, SpaceLen;
    SkipGapLex(t);
    var u := SkipSpaces(t);
    ByteFirst(u, '(');
    ParenNeedsOpen(u);
    if u != "" && u[0] == '(' {
      ParenWords(u);
      ParenInside(u);
      ParenTokens(u);
      if ParenLen(u) > 0 {
        CallAt(t, u);
      }
    }
  }

  lemma ParenNeedsOpen(u: string)
    ensures ParenLen(u) > 0 ==> u != "" && u[0] == '('
  {
  }

  lemma CallAt(t: string, u: string)
    requires u == SkipSpaces(t) && ParenLen(u) > 0
    ensures CallInner(t) == u[1..ParenLen(u) - 1] && t[CallLen(t)..] == u[ParenLen(u)..]
  {
    hide ParenLen;
    var a, n := SpaceLen(t), ParenLen(u);
    assert u == t[a..];
    ParenInside(u);
    assert t[a..][n..] == t[a + n..];
    assert t[a..][1..n - 1] == t[a + 1..a + n - 1];
  }

  lemma ParenTokens(u: string)
    requires u != "" && u[0] == '('
    ensures var toks := Lex(u[1..], ByWords);
            var k := CloseAt(toks, 1);
            k > 0 ==>
              2 <= ParenLen(u) <= |u| && u[1..ParenLen(u) - 1] == Flatten(toks[..k - 1]) && Lex(u[ParenLen(u)..], ByWords) == toks[k..]
  {
    var toks := Lex(u[1..], ByWords);
    var k := CloseAt(toks, 1);
    ParenWords(u);
    LexSpells(u[1..], ByWords);
    hide Lex, ParenLen, Settled, CloseAt, Flatten, IsCode;
    if k > 0 {
      CloseIsParen(toks, 1);
      CutAtClose(toks, k);
      OneLong(toks[k - 1]);
      CutThree(u, Flatten(toks[..k - 1]), toks[k - 1].text, Flatten(toks[k..]));
    }
  }

  lemma OneLong(tok: Token)
    requires IsCode(tok, ')')
    ensures |tok.text| == 1
  {
  }

  lemma CutAtClose(toks: seq<Token>, k: nat)
    requires 0 < k <= |toks| && Settled(toks, ByWords)
    ensures Flatten(toks) == (Flatten(toks[..k - 1]) + toks[k - 1].text) + Flatten(toks[k..])
    ensures Flatten(toks[..k]) == Flatten(toks[..k - 1]) + toks[k - 1].text
    ensures Lex(Flatten(toks[k..]), ByWords) == toks[k..]
  {
    hide Lex, Settled, Flatten;
    var inner, close, later := toks[..k - 1], toks[k - 1], toks[k..];
    assert toks[..k] == inner + [close] && toks == (inner + [close]) + later;
    FlattenSnoc(inner, close);
    FlattenAppend(inner + [close], later);
    SettledCut(inner + [close], later, ByWords);
    Relex(later, ByWords);
  }

  lemma CutThree(u: string, a: string, c: string, b: string)
    requires u != "" && |c| == 1 && u[1..] == (a + c) + b
    ensures 2 + |a| <= |u| && u[1..1 + |a|] == a && u[2 + |a|..] == b
  {
    var v := u[1..];
    assert v[..|a|] == a && v[|a| + 1..] == b;
    assert u[1..1 + |a|] == v[..|a|] && u[2 + |a|..] == v[|a| + 1..];
  }

  /** The call pass replaces the calls that `call` knows, with the arguments as they stand, and copies everything else. */
  lemma {:induction false} FunctionCallsText(t: string, tables: Tables)
    ensures FunctionCalls(t, tables) == CalledText(Lex(t, ByWords), tables.call)
    decreases |t|
  {
    if t == "" {
      assert CalledText([], tables.call) == "";
    } else {
      var tok := Lead(t, ByWords);
      var rest := t[|tok.text|..];
      var toks := Lex(t, ByWords);
      assert toks != [] && toks[0] == tok && toks[1..] == Lex(rest, ByWords);
      ParenFoundIn(rest);
      CallWordsAre(Upper(tok.text));
      FunctionCallsText(rest, tables);
      if CallLen(rest) > 0 {
        FunctionCallsText(rest[CallLen(rest)..], tables);
      }
      hide Lex, Lead, CallLen, ParenIn, Upper, CALLS, CallInner;
    }
  }

  // ---------------------------------------------------------------------------------------------
  // Index statements
  // ---------------------------------------------------------------------------------------------

  /** CREATE [UNIQUE] INDEX "name" ON, before the table. */
  function IndexHeadTokens(unique: bool, name: string): seq<Token> {
    [Token(Word, "CREATE"), Token(Code, " ")] + (if unique then [Token(Word, "UNIQUE"), Token(Code, " ")] else []) +
    [Token(Word, "INDEX"), Token(Code, " "), Token(Quoted, QuoteIdent(name)), Token(Code, " "), Token(Word, "ON"), Token(Code, " ")]
  }

  /** One token off the front of a text. */
  lemma TokenOff(tok: Token, y: string)
    requires tok.text != "" && Sits(tok, y, ByWords)
    ensures Lex(tok.text + y, ByWords) == [tok] + Lex(y, ByWords)
  {
    LexOne(tok, y, ByWords);
  }

  lemma WordOff(word: string, y: string)
    requires IsIdentifier(word) && y != "" && y[0] == ' '
    ensures Lex(word + y, ByWords) == [Token(Word, word)] + Lex(y, ByWords)
  {
    WordSits(word, y);
    TokenOff(Token(Word, word), y);
  }

  lemma BlankOff(y: string)
    ensures Lex([' '] + y, ByWords) == [Token(Code, " ")] + Lex(y, ByWords)
  {
    CodeSits(' ', y);
    TokenOff(Token(Code, [' ']), y);
  }

  lemma QuotedSits(text: string, y: string)
    requires text != "" && text[0] == '"' && y != "" && y[0] == ' '
    ensures Sits(Token(Quoted, text), y, ByWords) <==> ClosedQuote(text)
  {
    assert (text + y)[1..] == text[1..] + y;
    if ClosedQuote(text) {
      ClosedBodyEnds(text[1..], y, '"');
      assert (text + y)[..|text|] == text;
    } else if Sits(Token(Quoted, text), y, ByWords) {
      ShortSpanIsClosed(text[1..], y, '"');
    }
  }

  /** What is written for an index: CREATE, UNIQUE if it is, INDEX, the quoted name, ON, then table and columns. */
  lemma IndexTextReads(index: IndexStatement, tables: Tables)
    requires index.Index?
    ensures var name := tables.indexName(index.table, index.name);
            var rest := index.table + ([' '] + tables.indexColumns(index.columns));
            (Lex(IndexText(index, tables), ByWords) == IndexHeadTokens(index.unique, name) + Lex(rest, ByWords)) <==>
            ClosedQuote(QuoteIdent(name))
  {
    hide Lex, QuoteIdent, ClosedQuote;
    var name := tables.indexName(index.table, index.name);
    var q := QuoteIdent(name);
    var rest := index.table + ([' '] + tables.indexColumns(index.columns));
    var on := [' '] + ("ON" + ([' '] + rest));
    OnOff(rest);
    var toks := [Token(Code, " "), Token(Word, "ON"), Token(Code, " ")] + Lex(rest, ByWords);
    QuoteStarts(name);
    QuotedSits(q, on);
    LexOne(Token(Quoted, q), on, ByWords);
    HeadOff(index.unique, q + on);
    IndexSpelled(index, tables, q, rest);
    var head := HeadWords(index.unique);
    StringLiterals.SamePrefix(head, Lex(q + on, ByWords), [Token(Quoted, q)] + toks);
    assert head + ([Token(Quoted, q)] + toks) == IndexHeadTokens(index.unique, name) + Lex(rest, ByWords);
  }

  function HeadWords(unique: bool): seq<Token> {
    [Token(Word, "CREATE"), Token(Code, " ")] + (if unique then [Token(Word, "UNIQUE"), Token(Code, " ")] else []) +
    [Token(Word, "INDEX"), Token(Code, " ")]
  }

  lemma QuoteStarts(name: string)
    ensures QuoteIdent(name) != "" && QuoteIdent(name)[0] == '"'
  {
  }

  lemma IndexSpelled(index: IndexStatement, tables: Tables, q: string, rest: string)
    requires index.Index? && q == QuoteIdent(tables.indexName(index.table, index.name))
    requires rest == index.table + ([' '] + tables.indexColumns(index.columns))
    ensures IndexText(index, tables) == IndexHead(index.unique) + (q + ([' '] + ("ON" + ([' '] + rest))))
  {
    hide QuoteIdent;
    assert " " == [' '] && " ON " == [' '] + ("ON" + [' ']);
  }

  lemma OnOff(rest: string)
    ensures Lex([' '] + ("ON" + ([' '] + rest)), ByWords) ==
              [Token(Code, " "), Token(Word, "ON"), Token(Code, " ")] + Lex(rest, ByWords)
  {
    hide Lex;
    BlankOff(rest);
    WordOff("ON", [' '] + rest);
    BlankOff("ON" + ([' '] + rest));
  }

  lemma IndexOff(y: string)
    ensures Lex("INDEX" + ([' '] + y), ByWords) == [Token(Word, "INDEX"), Token(Code, " ")] + Lex(y, ByWords)
  {
    hide Lex;
    BlankOff(y);
    WordOff("INDEX", [' '] + y);
  }

  lemma UniqueOff(y: string)
    ensures Lex("UNIQUE" + ([' '] + y), ByWords) == [Token(Word, "UNIQUE"), Token(Code, " ")] + Lex(y, ByWords)
  {
    hide Lex;
    BlankOff(y);
    WordOff("UNIQUE", [' '] + y);
  }

  lemma CreateOff(y: string)
    ensures Lex("CREATE" + ([' '] + y), ByWords) == [Token(Word, "CREATE"), Token(Code, " ")] + Lex(y, ByWords)
  {
    hide Lex;
    BlankOff(y);
    WordOff("CREATE", [' '] + y);
  }

  lemma HeadOff(unique: bool, y: string)
    ensures Lex(IndexHead(unique) + y, ByWords) == HeadWords(unique) + Lex(y, ByWords)
  {
    hide Lex;
    var index := "INDEX" + ([' '] + y);
    var text := if unique then "UNIQUE" + ([' '] + index) else index;
    IndexOff(y);
    UniqueOff(index);
    CreateOff(text);
    HeadText(unique, y);
  }

  lemma HeadText(unique: bool, y: string)
    ensures IndexHead(unique) + y ==
              "CREATE" + ([' '] + (if unique then "UNIQUE" + ([' '] + ("INDEX" + ([' '] + y))) else "INDEX" + ([' '] + y)))
  {
  }

  // ---------------------------------------------------------------------------------------------
  // The locking clause
  // ---------------------------------------------------------------------------------------------

  /** The next words, white space aside. */
  predicate NextAre(toks: seq<Token>, words: seq<string>)
    decreases |words|
  {
    words == [] ||
    var u := SkipGap(toks);
    u != [] && LikeEscape.IsWord(u[0], words[0]) && NextAre(u[1..], words[1..])
  }

  /** FOR UPDATE, FOR SHARE or LOCK IN SHARE MODE. */
  predicate IsLock(toks: seq<Token>) {
    NextAre(toks, ["FOR", "UPDATE"]) || NextAre(toks, ["FOR", "SHARE"]) || NextAre(toks, ["LOCK", "IN", "SHARE", "MODE"])
  }

  /** How many tokens stand before the first locking clause outside parentheses. */
  function LockTokens(toks: seq<Token>): (r: Option<nat>)
    ensures r.Some? ==> r.value < |toks| && toks[r.value].kind == Word
    decreases |toks|
  {
    if toks == [] then None
    else
      var k := CloseAt(toks[1..], 1);
      if IsByte(toks[0], '(') && k > 0 then Later(LockTokens(toks[1..][k..]), 1 + k)
      else if toks[0].kind == Word && IsLock(toks) then Some(0)
      else Later(LockTokens(toks[1..]), 1)
  }

  lemma KeywordIs(t: string, word: string)
    requires Upper(word) == word
    ensures var u := SkipGap(Lex(t, ByWords));
            && (Keyword(t, word).Some? <==> u != [] && LikeEscape.IsWord(u[0], word))
            && (Keyword(t, word).Some? ==> Lex(Keyword(t, word).value, ByWords) == u[1..])
  {
    SkipGapLex(t);
    UpdateTargetLaws.KeywordLex(t, word);
    hide Lex, SkipSpaces, Keyword, Upper;
  }

  lemma LockWords()
    ensures Upper("UPDATE") == "UPDATE" && Upper("SHARE") == "SHARE" && Upper("IN") == "IN" && Upper("MODE") == "MODE"
    ensures Upper("FOR") == "FOR" && Upper("LOCK") == "LOCK"
  {
  }

  lemma OneNext(toks: seq<Token>, word: string)
    ensures NextAre(toks, [word]) <==> SkipGap(toks) != [] && LikeEscape.IsWord(SkipGap(toks)[0], word)
  {
    assert [word][1..] == [];
  }

  lemma MoreNext(toks: seq<Token>, word: string, words: seq<string>)
    ensures NextAre(toks, [word] + words) <==>
              SkipGap(toks) != [] && LikeEscape.IsWord(SkipGap(toks)[0], word) && NextAre(SkipGap(toks)[1..], words)
  {
    assert ([word] + words)[1..] == words;
  }

  lemma WordHere(tok: Token, later: seq<Token>)
    requires tok.kind == Word
    ensures SkipGap([tok] + later) == [tok] + later
  {
  }

  /** The clause is recognised in the tokens as in the text. */
  lemma LockOpens(tok: Token, rest: string)
    requires tok.kind == Word
    ensures OpensLock(tok.text, rest) <==> IsLock([tok] + Lex(rest, ByWords))
  {
    hide Lex, Keyword, SkipGap, Upper, NextAre;
    var later := Lex(rest, ByWords);
    var toks := [tok] + later;
    LockWords();
    WordHere(tok, later);
    assert toks[0] == tok && toks[1..] == later;
    KeywordIs(rest, "UPDATE");
    KeywordIs(rest, "SHARE");
    KeywordIs(rest, "IN");
    OneNext(later, "UPDATE");
    OneNext(later, "SHARE");
    assert ["FOR", "UPDATE"] == ["FOR"] + ["UPDATE"] && ["FOR", "SHARE"] == ["FOR"] + ["SHARE"];
    assert ["LOCK", "IN", "SHARE", "MODE"] == ["LOCK"] + (["IN"] + (["SHARE"] + ["MODE"]));
    MoreNext(toks, "FOR", ["UPDATE"]);
    MoreNext(toks, "FOR", ["SHARE"]);
    MoreNext(toks, "LOCK", ["IN"] + (["SHARE"] + ["MODE"]));
    MoreNext(later, "IN", ["SHARE"] + ["MODE"]);
    if Keyword(rest, "IN").Some? {
      var a := Keyword(rest, "IN").value;
      KeywordIs(a, "SHARE");
      MoreNext(Lex(a, ByWords), "SHARE", ["MODE"]);
      if Keyword(a, "SHARE").Some? {
        var b := Keyword(a, "SHARE").value;
        KeywordIs(b, "MODE");
        OneNext(Lex(b, ByWords), "MODE");
      }
    }
  }

  /** The clause starts at that token of the text, or there is none. */
  predicate LockFound(t: string, toks: seq<Token>) {
    match LockTokens(toks)
    case None => LockAt(t).None?
    case Some(m) => |Flatten(toks[m..])| <= |t| && LockAt(t) == Some(|t| - |Flatten(toks[m..])|)
  }

  lemma LockLater(t: string, toks: seq<Token>, len: nat, n: nat)
    requires len <= |t| && n <= |toks| && LockFound(t[len..], toks[n..])
    requires LockAt(t) == Later(LockAt(t[len..]), len) && LockTokens(toks) == Later(LockTokens(toks[n..]), n)
    ensures LockFound(t, toks)
  {
    hide LockAt, LockTokens, Flatten;
    if LockTokens(toks[n..]).Some? {
      var m := LockTokens(toks[n..]).value;
      assert toks[n..][m..] == toks[m + n..];
    }
  }

  lemma LockHere(t: string, toks: seq<Token>)
    requires LockAt(t) == Some(0) && LockTokens(toks) == Some(0) && t == Flatten(toks)
    ensures LockFound(t, toks)
  {
    assert toks[0..] == toks;
  }

  lemma LockTokensStep(toks: seq<Token>)
    requires toks != []
    ensures var k := CloseAt(toks[1..], 1);
            LockTokens(toks) ==
              if IsByte(toks[0], '(') && k > 0 then Later(LockTokens(toks[1 + k..]), 1 + k)
              else if toks[0].kind == Word && IsLock(toks) then Some(0)
              else Later(LockTokens(toks[1..]), 1)
  {
    hide IsLock, CloseAt;
    assert toks[1..][CloseAt(toks[1..], 1)..] == toks[1 + CloseAt(toks[1..], 1)..];
  }

  lemma LockAtStep(t: string)
    requires t != ""
    ensures var tok := Lead(t, ByWords);
            ParenLen(t) <= |t| &&
            LockAt(t) ==
              if tok.kind == Code && ParenLen(t) > 0 then Later(LockAt(t[ParenLen(t)..]), ParenLen(t))
              else if tok.kind == Word && OpensLock(tok.text, t[|tok.text|..]) then Some(0)
              else Later(LockAt(t[|tok.text|..]), |tok.text|)
  {
    hide Lead, ParenLen, OpensLock;
    ParenInside(t);
  }

  lemma {:induction false} LockIsFound(t: string)
    ensures LockFound(t, Lex(t, ByWords))
    decreases |t|
  {
    if t == "" {
      assert LockTokens([]).None?;
    } else {
      var tok := Lead(t, ByWords);
      var rest := t[|tok.text|..];
      var toks := Lex(t, ByWords);
      assert toks != [] && toks[0] == tok && toks[1..] == Lex(rest, ByWords);
      LexSpells(t, ByWords);
      OpenIs(t);
      LockAtStep(t);
      LockTokensStep(toks);
      hide Lex, Lead, ParenLen, OpensLock, IsLock, Flatten, CloseAt, LockFound, LockAt, LockTokens;
      var k := CloseAt(toks[1..], 1);
      if t[0] == '(' {
        ParenTokens(t);
        ParenRest(t);
      }
      if IsByte(tok, '(') && k > 0 {
        LockIsFound(t[ParenLen(t)..]);
        LaterTokens(toks, 1 + k);
        LockLater(t, toks, ParenLen(t), 1 + k);
      } else if tok.kind == Word && OpensLock(tok.text, rest) {
        LockOpens(tok, rest);
        assert [tok] + Lex(rest, ByWords) == toks;
        LockHere(t, toks);
      } else {
        LockIsFound(rest);
        if tok.kind == Word {
          LockOpens(tok, rest);
          assert [tok] + Lex(rest, ByWords) == toks;
        }
        LockLater(t, toks, |tok.text|, 1);
      }
    }
  }

  lemma LaterTokens(toks: seq<Token>, n: nat)
    requires 1 <= n <= |toks|
    ensures toks[1..][n - 1..] == toks[n..]
  {
  }

  lemma LexCodeFirst(t: string)
    requires t != ""
    ensures IsByte(Lead(t, ByWords), '(') <==> t[0] == '('
    ensures t[0] == '(' ==> |Lead(t, ByWords).text| == 1
  {
    if t[0] == '(' {
      assert t[..1] == ['('];
    }
  }

  lemma OpenIs(t: string)
    requires t != ""
    ensures IsByte(Lead(t, ByWords), '(') <==> t[0] == '('
    ensures t[0] == '(' ==> t[1..] == t[|Lead(t, ByWords).text|..]
    ensures t[0] != '(' ==> ParenLen(t) == 0
  {
    LexCodeFirst(t);
    ParenNeedsOpen(t);
  }

  lemma ParenRest(t: string)
    requires t != "" && t[0] == '('
    ensures CloseAt(Lex(t[1..], ByWords), 1) > 0 <==> ParenLen(t) > 0
  {
    ParenWords(t);
    hide Lex, ParenLen, CloseAt, Flatten;
  }

  // ---------------------------------------------------------------------------------------------
  // What is left without it
  // ---------------------------------------------------------------------------------------------

  /** The tokens before white space at the end. */
  function WithoutGap(toks: seq<Token>): (r: seq<Token>)
    ensures r <= toks
  {
    if toks != [] && IsSpaceToken(toks[|toks| - 1]) then WithoutGap(toks[..|toks| - 1]) else toks
  }

  predicate EndsInSpace(toks: seq<Token>) {
    toks != [] && toks[|toks| - 1].text != "" && IsSpace(toks[|toks| - 1].text[|toks[|toks| - 1].text| - 1])
  }

  /** White space aside, the text ends in a semicolon. */
  predicate EndsInSemicolon(s: string) {
    exists i :: 0 <= i < |s| && s[i] == ';' && forall j :: i < j < |s| ==> IsSpace(s[j])
  }

  function Semicolon(found: bool): seq<Token> {
    if found then [Token(Code, ";")] else []
  }

  lemma {:induction false} SemicolonSeen(s: string)
    ensures EndsInSemicolon(s) <==> TrimSpacesRight(s) != "" && TrimSpacesRight(s)[|TrimSpacesRight(s)| - 1] == ';'
  {
    if s != "" {
      var n := |s| - 1;
      if IsSpace(s[n]) {
        SemicolonSeen(s[..n]);
        SemicolonBefore(s, n);
      } else {
        assert TrimSpacesRight(s) == s;
        if s[n] == ';' {
          assert EndsInSemicolon(s);
        }
      }
    }
  }

  lemma SemicolonBefore(s: string, n: nat)
    requires n + 1 == |s| && IsSpace(s[n])
    ensures EndsInSemicolon(s) <==> EndsInSemicolon(s[..n])
  {
    if EndsInSemicolon(s) {
      var i :| 0 <= i < |s| && s[i] == ';' && forall j :: i < j < |s| ==> IsSpace(s[j]);
      assert i != n;
      assert s[..n][i] == ';';
      assert forall j :: i < j < n ==> IsSpace(s[..n][j]);
    }
    if EndsInSemicolon(s[..n]) {
      var i :| 0 <= i < n && s[..n][i] == ';' && forall j :: i < j < n ==> IsSpace(s[..n][j]);
      assert s[i] == ';';
      forall j | i < j < |s| ensures IsSpace(s[j]) {
        if j < n {
          assert s[j] == s[..n][j];
        }
      }
    }
  }

  lemma {:induction false} GapTrimmed(toks: seq<Token>)
    ensures TrimSpacesRight(Flatten(toks)) == TrimSpacesRight(Flatten(WithoutGap(toks)))
  {
    if toks != [] && IsSpaceToken(toks[|toks| - 1]) {
      var n := |toks| - 1;
      assert toks == toks[..n] + [toks[n]];
      FlattenSnoc(toks[..n], toks[n]);
      var s := Flatten(toks);
      hide Flatten;
      assert s[..|s| - 1] == Flatten(toks[..n]);
      GapTrimmed(toks[..n]);
    }
  }

  /** Text that ends in no space is not trimmed; any other loses at least a byte. */
  lemma TrimmedLength(toks: seq<Token>)
    requires forall tok :: tok in toks ==> tok.text != ""
    ensures EndsInSpace(toks) ==> |TrimSpacesRight(Flatten(toks))| < |Flatten(toks)|
    ensures !EndsInSpace(toks) ==> TrimSpacesRight(Flatten(toks)) == Flatten(toks)
  {
    if toks != [] {
      var n := |toks| - 1;
      assert toks == toks[..n] + [toks[n]];
      FlattenSnoc(toks[..n], toks[n]);
      assert toks[n] in toks;
    }
  }

  /** Tokens that something followed may be followed by a semicolon. */
  lemma SitsBeforeSemicolon(tok: Token, y: string)
    requires Sits(tok, y, ByWords) && y != ""
    ensures Sits(tok, [';'], ByWords)
  {
    var x, z := tok.text, [';'];
    match tok.kind
    case Quoted =>
      TailAfterFirst(x, y, z);
      ShortSpanIsClosed(x[1..], y, x[0]);
      ClosedBodyEnds(x[1..], z, x[0]);
    case Comment =>
      TailAfterFirst(x, y, z);
      CommentLocal(x, y, z, false);
    case Word =>
      WordEndsHere(tok, y);
      WordSits(x, z);
    case Code =>
      CodeBeforeSemicolon(x, y);
  }

  lemma CodeBeforeSemicolon(x: string, y: string)
    requires x != "" && Sits(Token(Code, x), y, ByWords) && y != ""
    ensures Sits(Token(Code, x), [';'], ByWords)
  {
    TailAfterFirst(x, y, [';']);
    assert |x| == 1;
    assert (x + [';'])[..1] == x && (x + [';'])[1] == ';';
  }

  lemma {:induction false} SemicolonPut(a: seq<Token>, b: seq<Token>)
    requires Settled(a + b, ByWords) && Flatten(b) != ""
    ensures Settled(a + [Token(Code, ";")], ByWords)
  {
    var semi := Token(Code, ";");
    if a == [] {
      assert a + [semi] == [semi];
      NothingSettled();
      CodeSits(';', Flatten([]));
      SettledCons(semi, []);
      assert [semi] + [] == [semi];
    } else {
      var tok := a[0];
      assert (a + b)[1..] == a[1..] + b && (a + [semi])[1..] == a[1..] + [semi];
      SemicolonPut(a[1..], b);
      if a[1..] == [] {
        assert a[1..] + b == b && a[1..] + [semi] == [semi];
        SitsBeforeSemicolon(tok, Flatten(b));
        SemicolonFlat();
      } else {
        SettledCut(a[1..], b, ByWords);
        FlattenFirst(a[1..], b, ByWords);
        FlattenFirst(a[1..], [semi], ByWords);
        SitsNext(tok, Flatten(a[1..] + b), Flatten(a[1..] + [semi]), ByWords);
      }
    }
  }

  lemma SemicolonFlat()
    ensures Flatten([Token(Code, ";")]) == [';']
  {
    FlattenNone();
    FlattenCons(Token(Code, ";"), []);
    assert [Token(Code, ";")] + [] == [Token(Code, ";")];
  }

  lemma {:induction false} NoEmptyToken(toks: seq<Token>)
    requires Settled(toks, ByWords)
    ensures forall tok :: tok in toks ==> tok.text != ""
  {
    if toks != [] {
      WordStarts(toks[0], Flatten(toks[1..]));
      NoEmptyToken(toks[1..]);
    }
  }

  lemma TextBehind(toks: seq<Token>, n: nat, m: nat)
    requires n <= m < |toks| && Settled(toks, ByWords)
    ensures Flatten(toks[n..]) != ""
  {
    NoEmptyToken(toks);
    assert toks[n] in toks && toks[n..][0] == toks[n];
  }

  /**
   * Without a locking clause outside parentheses the text stays as it is.  The first one takes everything
   * behind it along, but for a semicolon at the end; the tokens in front of it stay, the white space between
   * does not - as the scanner reads it, exactly when what is left there ends in no space of its own, as a
   * line comment does.
   */
  lemma StripLockReads(t: string)
    ensures var toks := Lex(t, ByWords);
            var at := LockTokens(toks);
            && (at.None? ==> StripLock(t) == t)
            && (at.Some? ==>
                  var kept := WithoutGap(toks[..at.value]);
                  var semicolon := Semicolon(EndsInSemicolon(Flatten(toks[at.value..])));
                  Lex(StripLock(t), ByWords) == kept + semicolon <==> !EndsInSpace(kept))
  {
    var toks := Lex(t, ByWords);
    LockIsFound(t);
    LexSpells(t, ByWords);
    if LockTokens(toks).Some? {
      var m := LockTokens(toks).value;
      hide Lex, LockAt, LockTokens, Settled, WithoutGap, TrimSpacesRight, EndsInSpace, EndsInSemicolon, Flatten;
      ClauseCut(t, toks, m);
      KeptReads(toks, m);
    }
  }

  lemma ClauseCut(t: string, toks: seq<Token>, m: nat)
    requires m < |toks| && t == Flatten(toks) && LockAt(t) == Some(|t| - |Flatten(toks[m..])|)
    ensures StripLock(t) ==
              TrimSpacesRight(Flatten(WithoutGap(toks[..m]))) + Flatten(Semicolon(EndsInSemicolon(Flatten(toks[m..]))))
  {
    hide LockAt, WithoutGap, TrimSpacesRight, EndsInSemicolon, Flatten;
    assert toks == toks[..m] + toks[m..];
    FlattenAppend(toks[..m], toks[m..]);
    var start := LockAt(t).value;
    assert t[..start] == Flatten(toks[..m]) && t[start..] == Flatten(toks[m..]);
    SemicolonSeen(Flatten(toks[m..]));
    GapTrimmed(toks[..m]);
    SemicolonFlat();
    FlattenNone();
  }

  /** The first n bytes are the text without white space at its end. */
  predicate WithoutSpaces(s: string, n: int) {
    0 <= n <= |s| && (forall k :: n <= k < |s| ==> IsSpace(s[k])) && (n > 0 ==> !IsSpace(s[n - 1]))
  }

  lemma {:induction false} SpacesTrimmed(s: string)
    ensures WithoutSpaces(s, |TrimSpacesRight(s)|)
  {
    if s != "" && IsSpace(s[|s| - 1]) {
      SpacesTrimmed(s[..|s| - 1]);
    }
  }

  /** What stands before the m-th token, white space at its end cut off, and the semicolon that ends the text. */
  predicate CutBefore(toks: seq<Token>, m: nat, u: string)
    requires m <= |toks|
  {
    var front, semicolon := Flatten(toks[..m]), Semicolon(EndsInSemicolon(Flatten(toks[m..])));
    var n := |u| - |semicolon|;
    WithoutSpaces(front, n) && u == front[..n] + Flatten(semicolon)
  }

  lemma StripLockText(t: string)
    ensures var toks := Lex(t, ByWords);
            var at := LockTokens(toks);
            at.Some? ==> CutBefore(toks, at.value, StripLock(t))
  {
    var toks := Lex(t, ByWords);
    LockIsFound(t);
    LexSpells(t, ByWords);
    hide Lex, LockAt, LockTokens, StripLock, Flatten, CutBefore, Settled;
    if LockTokens(toks).Some? {
      var m := LockTokens(toks).value;
      ClauseCut(t, toks, m);
      FrontCut(toks, m, StripLock(t));
    }
  }

  lemma FrontCut(toks: seq<Token>, m: nat, u: string)
    requires m <= |toks|
    requires u == TrimSpacesRight(Flatten(WithoutGap(toks[..m]))) + Flatten(Semicolon(EndsInSemicolon(Flatten(toks[m..]))))
    ensures CutBefore(toks, m, u)
  {
    GapTrimmed(toks[..m]);
    SemicolonFlat();
    FlattenNone();
    SpacesTrimmed(Flatten(toks[..m]));
    hide Flatten, WithoutSpaces, WithoutGap, TrimSpacesRight, EndsInSemicolon;
  }

  lemma KeptSettled(toks: seq<Token>, m: nat)
    requires m < |toks| && Settled(toks, ByWords)
    ensures var kept := WithoutGap(toks[..m]);
            && Settled(kept, ByWords) && Settled(kept + [Token(Code, ";")], ByWords)
            && (EndsInSpace(kept) ==> |TrimSpacesRight(Flatten(kept))| < |Flatten(kept)|)
            && (!EndsInSpace(kept) ==> TrimSpacesRight(Flatten(kept)) == Flatten(kept))
  {
    var kept := WithoutGap(toks[..m]);
    var n := |kept|;
    hide Settled, WithoutGap, TrimSpacesRight, EndsInSpace, Flatten;
    assert kept == toks[..n] && toks == toks[..n] + toks[n..];
    SettledCut(kept, toks[n..], ByWords);
    NoEmptyToken(kept);
    TrimmedLength(kept);
    TextBehind(toks, n, m);
    SemicolonPut(kept, toks[n..]);
  }

  lemma KeptReads(toks: seq<Token>, m: nat)
    requires m < |toks| && Settled(toks, ByWords)
    ensures var kept := WithoutGap(toks[..m]);
            var semicolon := Semicolon(EndsInSemicolon(Flatten(toks[m..])));
            Lex(TrimSpacesRight(Flatten(kept)) + Flatten(semicolon), ByWords) == kept + semicolon <==> !EndsInSpace(kept)
  {
    var kept := WithoutGap(toks[..m]);
    var semicolon := Semicolon(EndsInSemicolon(Flatten(toks[m..])));
    hide Lex, Settled, WithoutGap, TrimSpacesRight, EndsInSpace, EndsInSemicolon, Flatten;
    KeptSettled(toks, m);
    FlattenAppend(kept, semicolon);
    var text := TrimSpacesRight(Flatten(kept)) + Flatten(semicolon);
    LexSpells(text, ByWords);
    if !EndsInSpace(kept) {
      assert kept + [] == kept;
      Relex(kept + semicolon, ByWords);
    }
  }

  /** FOR UPDATE; */
  function ClauseTokens(): seq<Token> {
    [Token(Word, "FOR")] + ([Token(Code, " ")] + ([Token(Word, "UPDATE")] + ([Token(Code, ";")] + [])))
  }

  lemma ClauseText()
    ensures Settled(ClauseTokens(), ByWords) && Flatten(ClauseTokens()) == "FOR UPDATE;"
  {
    var update, semi := Token(Word, "UPDATE"), Token(Code, ";");
    assert IsIdentifier("FOR") && IsIdentifier("UPDATE");
    hide Settled, Flatten, Lex, IsIdentifier;
    NothingSettled();
    FlattenNone();
    PutCode(';', []);
    PutWord("UPDATE", [semi] + []);
    PutCode(' ', [update] + ([semi] + []));
    PutWord("FOR", [Token(Code, " ")] + ([update] + ([semi] + [])));
    assert "FOR" + ([' '] + ("UPDATE" + ([';'] + ""))) == "FOR UPDATE;";
  }

  lemma BehindComment()
    ensures var toks := [Token(Comment, "#\n")] + ClauseTokens();
            Lex("#\nFOR UPDATE;", ByWords) == toks && Flatten(toks) == "#\nFOR UPDATE;"
  {
    var comment := Token(Comment, "#\n");
    ClauseText();
    CommentReads();
    hide Settled, Flatten, Lex, ClauseTokens, Sits;
    SettledCons(comment, ClauseTokens());
    assert "#\n" + "FOR UPDATE;" == "#\nFOR UPDATE;";
    Relex([comment] + ClauseTokens(), ByWords);
  }

  /** A `#` comment, a line break and FOR UPDATE: the semicolon behind the clause ends up in the comment. */
  lemma LockBehindComment()
    ensures StripLock("#\nFOR UPDATE;") == "#;" && Lex("#;", ByWords) == [Token(Comment, "#;")]
  {
    var t := "#\nFOR UPDATE;";
    ClauseText();
    ClauseOpens(ClauseTokens());
    CommentReads();
    BehindComment();
    LockIsFound(t);
    hide Settled, Flatten, Lex, StripLock, TrimSpacesRight, LockFound, LockTokens;
    CommentCut(Token(Comment, "#\n"), ClauseTokens(), t);
  }

  lemma CommentReads()
    ensures forall y :: Sits(Token(Comment, "#\n"), y, ByWords)
    ensures Lex("#;", ByWords) == [Token(Comment, "#;")]
  {
    forall y ensures Sits(Token(Comment, "#\n"), y, ByWords) {
      var t := "#\n" + y;
      assert t[1..][0] == '\n' && t[..2] == "#\n";
    }
    assert "#;"[1..][1..] == "" && LineTail(";", false) == 1;
    assert "#;"[..2] == "#;";
  }

  lemma ClauseOpens(clause: seq<Token>)
    requires clause == ClauseTokens()
    ensures LockTokens([Token(Comment, "#\n")] + clause) == Some(1)
  {
    var toks := [Token(Comment, "#\n")] + clause;
    var later := [Token(Code, " ")] + ([Token(Word, "UPDATE")] + ([Token(Code, ";")] + []));
    assert clause[1..] == later && later[1..] == [Token(Word, "UPDATE")] + ([Token(Code, ";")] + []);
    LockWords();
    hide Upper;
    OneNext(later, "UPDATE");
    assert ["FOR", "UPDATE"] == ["FOR"] + ["UPDATE"];
    MoreNext(clause, "FOR", ["UPDATE"]);
    LockTokensStep(clause);
    assert toks[1..] == clause;
    LockTokensStep(toks);
  }

  lemma CommentCut(comment: Token, clause: seq<Token>, t: string)
    requires comment == Token(Comment, "#\n") && clause != []
    requires t == Flatten([comment] + clause) && Flatten(clause) == "FOR UPDATE;" && LockFound(t, [comment] + clause)
    requires LockTokens([comment] + clause) == Some(1)
    ensures StripLock(t) == "#;"
  {
    var toks := [comment] + clause;
    OnlyComment(comment);
    EndsClearly();
    TrimsLine();
    SemicolonFlat();
    hide LockTokens, Flatten, StripLock, TrimSpacesRight, EndsInSemicolon, WithoutGap;
    assert toks[1..] == clause && toks[..1] == [comment];
    ClauseCut(t, toks, 1);
    assert "#" + [';'] == "#;";
  }

  lemma OnlyComment(comment: Token)
    requires comment == Token(Comment, "#\n")
    ensures Flatten([comment]) == "#\n" && WithoutGap([comment]) == [comment]
  {
    FlattenCons(comment, []);
    FlattenNone();
    assert [comment] + [] == [comment];
  }

  lemma EndsClearly()
    ensures EndsInSemicolon("FOR UPDATE;")
  {
    var s := "FOR UPDATE;";
    assert |s| == 11 && s[10] == ';';
  }

  lemma TrimsLine()
    ensures TrimSpacesRight("#\n") == "#"
  {
    assert "#\n"[..1] == "#";
  }

  // ---------------------------------------------------------------------------------------------
  // Data definition
  // ---------------------------------------------------------------------------------------------

  predicate IsDdl(words: string) {
    words == "CREATE TABLE " || words == "CREATE TEMPORARY TABLE " || words == "CREATE TEMP TABLE " || words == "ALTER TABLE " ||
    words == "CREATE INDEX " || words == "CREATE UNIQUE INDEX "
  }

  /** White space, these words in any case, and then something that is seen. */
  ghost predicate StartsWith(t: string, i: nat, words: string) {
    && i + |words| <= |t| && (forall k :: 0 <= k < i ==> IsBlank(t[k])) && Upper(t[i..i + |words|]) == words
    && exists k :: i + |words| <= k < |t| && !IsBlank(t[k])
  }

  lemma StartsAt(t: string, a: nat, e: nat, words: string)
    requires a <= e <= |t| && forall k :: 0 <= k < a || e <= k < |t| ==> IsBlank(t[k])
    requires a < e ==> !IsBlank(t[a]) && !IsBlank(t[e - 1])
    requires |words| > 1 && 'A' <= words[0] <= 'Z' && words[|words| - 1] == ' '
    ensures HasPrefix(Upper(t[a..e]), words) <==> exists i :: StartsWith(t, i, words)
  {
    var n := |words|;
    SliceAt(t, a, e);
    var u := t[a..e];
    if HasPrefix(Upper(u), words) {
      UpperFront(u, n);
      assert t[a..a + n] == u[..n];
      assert a + n <= e - 1 < |t| && !IsBlank(t[e - 1]);
      assert StartsWith(t, a, words);
    }
    forall i: nat | StartsWith(t, i, words) ensures HasPrefix(Upper(u), words) {
      assert Upper(t[i..i + n])[0] == UpperChar(t[i]);
      assert i == a;
      assert a + n < e;
      assert t[a..a + n] == u[..n];
      UpperFront(u, n);
    }
  }

  lemma UpperFront(u: string, n: nat)
    requires n <= |u|
    ensures Upper(u)[..n] == Upper(u[..n]) && (n > 0 && Upper(u)[n - 1] == ' ' ==> u[n - 1] == ' ')
  {
  }

  /** DDL is what starts with CREATE [TEMPORARY | TEMP] TABLE, ALTER TABLE or CREATE [UNIQUE] INDEX, single blanks between. */
  lemma DdlExact(t: string)
    ensures StripsDdl(t) <==> exists i: nat, words :: IsDdl(words) && StartsWith(t, i, words)
  {
    var a, e := Spaced(t);
    DdlWords(t);
    hide StripsDdl, Upper, HasPrefix, TrimSpace, IsBlank, StartsWith, IsDdl;
    forall words | IsDdl(words)
      ensures HasPrefix(Upper(TrimSpace(t)), words) <==> exists i :: StartsWith(t, i, words)
    {
      DdlLetters(words);
      StartsAt(t, a, e, words);
    }
  }

  lemma DdlLetters(words: string)
    requires IsDdl(words)
    ensures |words| > 1 && 'A' <= words[0] <= 'Z' && words[|words| - 1] == ' '
  {
  }

  lemma DdlWords(t: string)
    ensures StripsDdl(t) <==> exists words :: IsDdl(words) && HasPrefix(Upper(TrimSpace(t)), words)
  {
    var upper := Upper(TrimSpace(t));
    hide HasPrefix, Upper, TrimSpace;
    assert IsDdl("CREATE TABLE ") && IsDdl("CREATE TEMPORARY TABLE ") && IsDdl("CREATE TEMP TABLE ") && IsDdl("ALTER TABLE ");
    assert IsDdl("CREATE INDEX ") && IsDdl("CREATE UNIQUE INDEX ");
  }
}
