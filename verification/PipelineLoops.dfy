/**
 * The loops behind the pipeline: each scans the text by position and computes the pass that
 * `Pipeline` reasons about.
 */
module PipelineLoops {
  import opened Options
  import opened Text
  import opened SqlScanner
  import opened SqlSplitting
  import opened SqlParsing
  import opened IndexStatements
  import opened IndexStatementLoops
  import opened UpdateTargets
  import UpdateTargetLoops
  import opened LikeEscape
  import opened StringLiterals
  import opened Pipeline
  import PipelineLaws
  import PipelineResults

  lemma OperatorsStep(s: string, i: nat)
    requires i < |s|
    ensures var tok := Lead(s[i..], ByBytes);
            if tok.kind == Code && "<=>" <= s[i..] then Operators(s[i..]) == " IS " + Operators(s[i + 3..])
            else Operators(s[i..]) == tok.text + Operators(s[i + |tok.text|..])
  {
    hide Lead;
    Suffix(s, i, |Lead(s[i..], ByBytes).text|);
    if "<=>" <= s[i..] {
      Suffix(s, i, 3);
    }
  }

  method TranslateMySqlOperators(s: string) returns (out: string)
    ensures out == Operators(s)
    ensures Lex(out, ByBytes) == PipelineLaws.WithIs(Lex(s, ByBytes))
  {
    PipelineLaws.OperatorsRead(s);
    hide Lex, PipelineLaws.WithIs, Operators, Lead;
    out := "";
    var i := 0;
    assert s[0..] == s;
    while i < |s|
      invariant 0 <= i <= |s|
      invariant Operators(s) == out + Operators(s[i..])
    {
      OperatorsStep(s, i);
      var end, ok := SpanAt(s, i);
      if !ok && "<=>" <= s[i..] {
        out := out + " IS ";
        i := i + 3;
        continue;
      }
      out := out + s[i..end];
      i := end;
    }
    OperatorsNothing(s);
  }

  lemma OperatorsNothing(s: string)
    ensures Operators(s[|s|..]) == ""
  {
    assert s[|s|..] == "";
  }

  lemma FunctionCallsStep(s: string, i: nat, tables: Tables)
    requires i < |s|
    ensures var tok := Lead(s[i..], ByWords);
            var rest := s[i + |tok.text|..];
            var n := CallLen(rest);
            if tok.kind == Word && n > 0 && CallText(tok.text, CallInner(rest), tables).Some?
            then FunctionCalls(s[i..], tables) ==
                 CallText(tok.text, CallInner(rest), tables).value + FunctionCalls(rest[n..], tables)
            else FunctionCalls(s[i..], tables) == tok.text + FunctionCalls(rest, tables)
  {
    hide Lead, CallLen, CallText, CallInner;
    Suffix(s, i, |Lead(s[i..], ByWords).text|);
  }

  /** The call found by position is the one found in the suffix. */
  lemma CallAt(s: string, end: nat, callStart: nat)
    requires end <= |s| && callStart == end + SpaceLen(s[end..])
    ensures CallLen(s[end..]) > 0 <==> ParenLen(s[callStart..]) > 0
    ensures var n := ParenLen(s[callStart..]);
            n > 0 ==> callStart + n <= |s| && n >= 2 && CallInner(s[end..]) == s[callStart + 1..callStart + n - 1] &&
                      s[end..][CallLen(s[end..])..] == s[callStart + n..]
  {
    hide ParenLen, SpaceLen;
    Suffix(s, end, callStart - end);
    ParenInside(s[callStart..]);
    if ParenLen(s[callStart..]) > 0 {
      Suffix(s, end, callStart - end + ParenLen(s[callStart..]));
    }
  }

  /** A word, by position: the call behind it is rewritten, or the word is copied. */
  lemma WordStep(s: string, i: nat, end: nat, callStart: nat, tables: Tables)
    requires i < end <= |s| && Lead(s[i..], ByWords) == Token(Word, s[i..end])
    requires callStart == end + SpaceLen(s[end..])
    ensures var n := ParenLen(s[callStart..]);
            callStart + n <= |s| && n != 1 &&
            var text := if n > 0 then CallText(s[i..end], s[callStart + 1..callStart + n - 1], tables) else None;
            FunctionCalls(s[i..], tables) ==
              if text.Some? then text.value + FunctionCalls(s[callStart + n..], tables)
              else s[i..end] + FunctionCalls(s[end..], tables)
  {
    hide FunctionCalls, Lead, CallText, ParenLen, CallLen, CallInner, SpaceLen;
    FunctionCallsStep(s, i, tables);
    CallAt(s, end, callStart);
    ParenInside(s[callStart..]);
  }

  lemma NoWordStep(s: string, i: nat, end: nat, tables: Tables)
    requires i < end <= |s| && Lead(s[i..], ByWords).kind != Word && Lead(s[i..], ByWords).text == s[i..end]
    ensures FunctionCalls(s[i..], tables) == s[i..end] + FunctionCalls(s[end..], tables)
  {
    hide FunctionCalls, Lead, CallText, CallLen, CallInner;
    FunctionCallsStep(s, i, tables);
  }

  lemma Written(out: string, text: string, later: string)
    ensures out + (text + later) == (out + text) + later
  {
  }

  method TranslateMySqlFunctionCalls(s: string, tables: Tables) returns (out: string)
    ensures out == FunctionCalls(s, tables)
    ensures out == PipelineLaws.CalledText(Lex(s, ByWords), tables.call)
  {
    hide Lex, PipelineLaws.CalledText, FunctionCalls, Lead, CallText, ParenLen, SpaceLen, IsQuote, CommentLen;
    out := "";
    var i := 0;
    assert s[0..] == s;
    while i < |s|
      invariant 0 <= i <= |s|
      invariant FunctionCalls(s, tables) == out + FunctionCalls(s[i..], tables)
    {
      var end, word := WordAt(s, i);
      Written(out, s[i..end], FunctionCalls(s[end..], tables));
      if word {
        assert Lead(s[i..], ByWords) == Token(Word, s[i..end]);
        var callStart := SkipSqlSpaces(s, end);
        var callEnd, hasCall := ParenthesizedSqlSpan(s, callStart);
        WordStep(s, i, end, callStart, tables);
        if hasCall {
          var text := CallText(s[i..end], s[callStart + 1..callEnd - 1], tables);
          if text.Some? {
            Written(out, text.value, FunctionCalls(s[callEnd..], tables));
            out := out + text.value;
            i := callEnd;
            continue;
          }
        }
      } else {
        NoWordStep(s, i, end, tables);
      }
      out := out + s[i..end];
      i := end;
    }
    FunctionCallsNothing(s, tables);
    PipelineLaws.FunctionCallsText(s, tables);
  }

  lemma FunctionCallsNothing(s: string, tables: Tables)
    ensures FunctionCalls(s[|s|..], tables) == ""
  {
    assert s[|s|..] == "";
  }

  lemma TokenLoopStep(s: string, i: nat)
    requires i < |s|
    ensures var tok := Lead(s[i..], ByWords);
            var end := i + |tok.text|;
            if tok.kind != Word then TokenLoop(s[i..]) == tok.text + TokenLoop(s[end..])
            else if Upper(tok.text) in CLOCKS && TimestampLen(s[end..]) > 0 then
              TokenLoop(s[i..]) == "CURRENT_TIMESTAMP" + TokenLoop(s[end + TimestampLen(s[end..])..])
            else TokenLoop(s[i..]) == WordText(tok.text) + TokenLoop(s[end..])
  {
    hide Lead, TimestampLen, WordText;
    var end := i + |Lead(s[i..], ByWords).text|;
    Suffix(s, i, end - i);
    Suffix(s, end, TimestampLen(s[end..]));
  }

  method RewriteTokens(s: string) returns (out: string)
    ensures out == TokenLoop(s)
    ensures out == Flatten(PipelineLaws.Looped(Lex(s, ByWords)))
    ensures Lex(out, ByWords) == PipelineLaws.Looped(Lex(s, ByWords)) <==> PipelineLaws.ClocksApart(Lex(s, ByWords))
  {
    PipelineLaws.TokenLoopReads(s);
    hide Lex, Flatten, PipelineLaws.Looped, PipelineLaws.ClocksApart, TokenLoop, Lead, TimestampLen, WordText, Upper;
    out := "";
    var i := 0;
    assert s[0..] == s;
    while i < |s|
      invariant 0 <= i <= |s|
      invariant TokenLoop(s) == out + TokenLoop(s[i..])
    {
      TokenLoopStep(s, i);
      var end, word := WordAt(s, i);
      if !word {
        out := out + s[i..end];
        i := end;
        continue;
      }
      var call := TimestampLen(s[end..]);
      if Upper(s[i..end]) in CLOCKS && call > 0 {
        out := out + "CURRENT_TIMESTAMP";
        i := end + call;
        continue;
      }
      out := out + WordText(s[i..end]);
      i := end;
    }
    TokenLoopNothing(s);
  }

  lemma TokenLoopNothing(s: string)
    ensures TokenLoop(s[|s|..]) == ""
  {
    assert s[|s|..] == "";
  }

  lemma LockAtStep(s: string, i: nat)
    requires i < |s|
    ensures var tok := Lead(s[i..], ByWords);
            var end, n := i + |tok.text|, ParenLen(s[i..]);
            i + n <= |s| &&
            LockAt(s[i..]) ==
            if tok.kind == Code && n > 0 then Later(LockAt(s[i + n..]), n)
            else if tok.kind == Word && OpensLock(tok.text, s[end..]) then Some(0)
            else Later(LockAt(s[end..]), |tok.text|)
  {
    hide Lead, ParenLen, OpensLock;
    ParenInside(s[i..]);
    Suffix(s, i, |Lead(s[i..], ByWords).text|);
    Suffix(s, i, ParenLen(s[i..]));
  }

  method StripMySqlLockingClause(s: string) returns (out: string, found: bool)
    ensures found <==> LockAt(s).Some?
    ensures out == StripLock(s)
    ensures PipelineResults.LockGone(s, out)
  {
    PipelineResults.LockIsGone(s);
    hide PipelineResults.LockGone, LockAt, Lead, ParenLen, OpensLock, TrimClause;
    var i := 0;
    assert s[0..] == s;
    while i < |s|
      invariant 0 <= i <= |s|
      invariant LockAt(s) == Later(LockAt(s[i..]), i)
    {
      LockAtStep(s, i);
      var end, word := WordAt(s, i);
      if !word && end == i + 1 && s[i] == '(' {
        var close, ok := ParenthesizedSqlSpan(s, i);
        if ok {
          ParenIsCode(s, i);
          i := close;
          continue;
        }
      }
      ParenOpens(s, i);
      if word && OpensLock(s[i..end], s[end..]) {
        return TrimClause(s, i), true;
      }
      i := end;
    }
    LockAtNothing(s);
    return s, false;
  }

  lemma ParenIsCode(s: string, i: nat)
    requires i < |s| && s[i] == '('
    ensures Lead(s[i..], ByWords).kind == Code
  {
  }

  lemma ParenOpens(s: string, i: nat)
    requires i < |s|
    ensures ParenLen(s[i..]) > 0 ==> s[i] == '(' && Lead(s[i..], ByWords) == Token(Code, s[i..i + 1])
  {
    assert s[i..][..1] == s[i..i + 1];
  }

  lemma LockAtNothing(s: string)
    ensures LockAt(s[|s|..]).None?
  {
    assert s[|s|..] == "";
  }

  method HasMySqlBackslashEscapedString(s: string) returns (found: bool)
    requires NoBareQuote(s)
    ensures found == HasEscapedLiteral(s)
  {
    hide HasEscapedLiteral, NoBareQuote, Lead, Inner;
    var i := 0;
    assert s[0..] == s;
    while i < |s|
      invariant 0 <= i <= |s| && NoBareQuote(s[i..])
      invariant HasEscapedLiteral(s) == HasEscapedLiteral(s[i..])
    {
      if s[i] == '\'' {
        var end, _ := QuotedSqlSpan(s, i);
        BareStep(s, i, end);
        EscapedStep(s, i, end);
        LiteralInside(s, i, end);
        if '\\' in s[i + 1..end - 1] {
          return true;
        }
        i := end;
        continue;
      }
      var end, _ := SpanAt(s, i);
      BareStep(s, i, end);
      EscapedStep(s, i, end);
      i := end;
    }
    EscapedLiteralNothing(s);
    return false;
  }

  lemma EscapedStep(s: string, i: nat, end: nat)
    requires i < end <= |s| && Lead(s[i..], ByBytes).text == s[i..end]
    requires NoBareQuote(s[i..]) && NoBareQuote(s[end..]) && (s[i] == '\'' ==> end >= i + 2)
    ensures HasEscapedLiteral(s[i..]) <==> (s[i] == '\'' && '\\' in Inner(s[i..end])) || HasEscapedLiteral(s[end..])
  {
    hide Lead, IsLiteral, Inner, NoBareQuote;
    LiteralStarts(s, i);
    Suffix(s, i, end - i);
  }

  lemma EscapedLiteralNothing(s: string)
    requires NoBareQuote(s[|s|..])
    ensures !HasEscapedLiteral(s[|s|..])
  {
    assert s[|s|..] == "";
  }

  method HasTriggerWord(s: string) returns (found: bool)
    ensures found == HasWord(Lex(s, ByWords), TRIGGERS)
  {
    hide HasWord, Lex, Lead, Upper, TRIGGERS;
    var i := 0;
    assert s[0..] == s;
    while i < |s|
      invariant 0 <= i <= |s|
      invariant HasWord(Lex(s, ByWords), TRIGGERS) == HasWord(Lex(s[i..], ByWords), TRIGGERS)
    {
      var end, word := WordAt(s, i);
      HasWordStep(s, i, end, TRIGGERS);
      if word && Upper(s[i..end]) in TRIGGERS {
        return true;
      }
      i := end;
    }
    HasWordNothing(s, TRIGGERS);
    return false;
  }

  lemma HasWordStep(s: string, i: nat, end: nat, words: set<string>)
    requires i < end <= |s| && Lead(s[i..], ByWords).text == s[i..end]
    ensures HasWord(Lex(s[i..], ByWords), words) ==
            ((Lead(s[i..], ByWords).kind == Word && Upper(s[i..end]) in words) || HasWord(Lex(s[end..], ByWords), words))
  {
    LexFrom(s, i, end, ByWords);
    hide Lead, Lex, Upper;
  }

  lemma HasWordNothing(s: string, words: set<string>)
    ensures !HasWord(Lex(s[|s|..], ByWords), words)
  {
    assert s[|s|..] == "";
  }

  method NeedsSqlTranslation(s: string) returns (needs: bool)
    requires NoBareQuote(s)
    ensures needs == Needs(s)
  {
    hide Contains, HasEscapedLiteral, CanContainLike, HasIdentifier, SetTargets, StripsDdl, HasWord, Lex, TRIGGERS,
         NoBareQuote;
    if Contains(s, "<=>") {
      return true;
    }
    var escaped := HasMySqlBackslashEscapedString(s);
    if escaped {
      return true;
    }
    if CanContainLike(s) {
      var like := HasSqlIdentifier(s, "LIKE");
      if like {
        return true;
      }
    }
    var translated := UpdateTargetLoops.TranslateMySqlUpdateSetTargets(s);
    if translated != s || StripsDdl(s) {
      return true;
    }
    needs := HasTriggerWord(s);
  }

  /** translateSQL: on the fast path or through every pass; None is a slice out of range. */
  method TranslateSqlText(s: string, tables: Tables) returns (out: Option<string>)
    requires NoBareQuote(s)
    ensures out == TranslateSql(s, tables)
    ensures if Needs(s) then PipelineResults.Rewritten(s, tables, out) else out == Some(s)
  {
    PipelineResults.SlowPathRewrites(s, tables);
    hide PipelineResults.Rewritten, Needs, StripLock, SetTargets, LikePass, Operators, FunctionCalls, ReadAddIndex, ReadCreateIndex, TokenLoop, StripsDdl,
         NoBareQuote, TranslateLiterals, IndexText, LockAt;
    var needs := NeedsSqlTranslation(s);
    if !needs {
      return Some(s);
    }
    var sql, _ := StripMySqlLockingClause(s);
    sql := UpdateTargetLoops.TranslateMySqlUpdateSetTargets(sql);
    sql := TranslateMySqlLikeDefaultEscape(sql);
    sql := TranslateMySqlOperators(sql);
    sql := TranslateMySqlFunctionCalls(sql, tables);
    var index := TranslateMySqlAlterTableAddIndex(sql);
    if index.NoIndex? {
      index := TranslateMySqlCreateIndex(sql);
    }
    if index.Index? {
      return Some(IndexText(index, tables));
    }
    if StripsDdl(sql) {
      sql := tables.ddlLoop(sql);
    } else {
      sql := RewriteTokens(sql);
    }
    if !NoBareQuote(sql) {
      return None;
    }
    sql := TranslateMySqlStringLiterals(sql);
    return Some(sql);
  }
}
