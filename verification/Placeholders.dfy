/**
 * Counting `?` placeholders (countPlaceholders of pkg/mysqlmock/prepared.go) and handing the
 * arguments of a statement out to its rows (the bind methods of pkg/mysqlmock/upsert.go).
 *
 * The counter is an automaton over seven flags, written without the scanner's span functions.
 */
module Placeholders {
  import opened Text
  import opened SqlScanner
  import opened SqlSplitting
  import opened Sequences

  predicate IsMark(tok: Token) {
    IsCode(tok, '?')
  }

  function Marks(toks: seq<Token>): nat {
    if toks == [] then 0 else (if IsMark(toks[0]) then 1 else 0) + Marks(toks[1..])
  }

  /** The `?` bytes outside every quoted span and every comment, as the scanner sees them. */
  function MarksIn(t: string): nat {
    Marks(Lex(t, ByBytes))
  }

  /** The same when a carriage return ends a line comment too, which is how the counter sees them. */
  function Count(t: string): nat {
    Marks(Lex(t, ByBytesCr))
  }

  // ---------------------------------------------------------------------------------------------
  // The automaton
  // ---------------------------------------------------------------------------------------------

  datatype Mode = InCode | InLine | InBlock | InQuote(quote: char, escaped: bool)

  /** Where the span the automaton is in ends. */
  ghost function SpanEnd(s: string, i: nat, mode: Mode): (end: nat)
    requires i <= |s|
    ensures i <= end <= |s|
  {
    match mode
    case InCode => i
    case InLine => i + LineTail(s[i..], true)
    case InBlock => i + BlockTail(s[i..])
    case InQuote(q, escaped) =>
      if !escaped then i + QuoteTail(s[i..], q)
      else if i == |s| then i
      else i + 1 + QuoteTail(s[i + 1..], q)
  }

  /** Placeholders the automaton has yet to count. */
  ghost function Remaining(s: string, i: nat, mode: Mode): nat
    requires i <= |s|
  {
    Count(s[SpanEnd(s, i, mode)..])
  }

  lemma LineStep(s: string, i: nat)
    requires i < |s|
    ensures SpanEnd(s, i, InLine) == if s[i] == '\n' || s[i] == '\r' then i + 1 else SpanEnd(s, i + 1, InLine)
  {
    assert s[i..][1..] == s[i + 1..];
  }

  lemma BlockStep(s: string, i: nat)
    requires i < |s|
    ensures SpanEnd(s, i, InBlock) ==
            if i + 1 < |s| && s[i] == '*' && s[i + 1] == '/' then i + 2 else SpanEnd(s, i + 1, InBlock)
  {
    assert s[i..][1..] == s[i + 1..];
  }

  /** Inside quotes: an escape, or any byte other than the closing quote. */
  lemma QuoteInside(s: string, i: nat, q: char)
    requires i < |s| && IsQuote(q)
    ensures q != '`' && s[i] == '\\' ==> SpanEnd(s, i, InQuote(q, false)) == SpanEnd(s, i + 1, InQuote(q, true))
    ensures s[i] != q && !(q != '`' && s[i] == '\\') ==>
              SpanEnd(s, i, InQuote(q, false)) == SpanEnd(s, i + 1, InQuote(q, false))
    ensures SpanEnd(s, i, InQuote(q, true)) == SpanEnd(s, i + 1, InQuote(q, false))
  {
    assert s[i..][1..] == s[i + 1..];
    if i + 1 < |s| {
      assert s[i..][2..] == s[i + 2..];
    }
  }

  /** The closing quote; one that follows it opens the span again. */
  lemma QuoteEnds(s: string, i: nat, q: char)
    requires i < |s| && IsQuote(q) && s[i] == q
    ensures Remaining(s, i, InQuote(q, false)) == Remaining(s, i + 1, InCode)
  {
    var doubled := i + 1 < |s| && s[i + 1] == q && q != '`';
    assert SpanEnd(s, i, InQuote(q, false)) == if doubled then SpanEnd(s, i + 2, InQuote(q, false)) else i + 1 by {
      if i + 1 < |s| {
        assert s[i..][1] == s[i + 1] && s[i..][2..] == s[i + 2..];
      }
    }
    hide SpanEnd;
    if doubled {
      OpenQuote(s, i + 1);
    } else {
      assert SpanEnd(s, i + 1, InCode) == i + 1 by {
        CodeEnd(s, i + 1);
      }
    }
  }

  lemma CodeEnd(s: string, i: nat)
    requires i <= |s|
    ensures SpanEnd(s, i, InCode) == i
  {
  }

  lemma QuoteStep(s: string, i: nat, q: char)
    requires i < |s| && IsQuote(q)
    ensures InQuoteStep(s, i, q)
  {
    QuoteInside(s, i, q);
    hide SpanEnd, Count;
    if s[i] == q {
      QuoteEnds(s, i, q);
    }
  }

  lemma LeadQuoteAt(s: string, i: nat)
    requires i < |s| && IsQuote(s[i])
    ensures Lead(s[i..], ByBytesCr) == Token(Quoted, s[i..SpanEnd(s, i + 1, InQuote(s[i], false))])
  {
    hide QuoteTail;
    assert s[i..][1..] == s[i + 1..];
    var n := 1 + QuoteTail(s[i + 1..], s[i]);
    assert s[i..][..n] == s[i..i + n];
  }

  lemma OpenQuote(s: string, i: nat)
    requires i < |s| && IsQuote(s[i])
    ensures Remaining(s, i, InCode) == Remaining(s, i + 1, InQuote(s[i], false))
  {
    LeadQuoteAt(s, i);
    CodeEnd(s, i);
    hide SpanEnd, Lead;
    LexFrom(s, i, SpanEnd(s, i + 1, InQuote(s[i], false)), ByBytesCr);
  }

  lemma OpenComment(s: string, i: nat, open: nat, mode: Mode)
    requires i + open <= |s| && open > 0 && !IsQuote(s[i])
    requires CommentLen(s[i..], true) == SpanEnd(s, i + open, mode) - i
    ensures Remaining(s, i, InCode) == Remaining(s, i + open, mode)
  {
    hide CommentLen;
    var end := SpanEnd(s, i + open, mode);
    assert s[i..][..end - i] == s[i..end];
    LexFrom(s, i, end, ByBytesCr);
  }

  lemma CodeByte(s: string, i: nat)
    requires i < |s| && !IsQuote(s[i]) && CommentLen(s[i..], true) == 0
    ensures Remaining(s, i, InCode) == (if s[i] == '?' then 1 else 0) + Remaining(s, i + 1, InCode)
  {
    assert s[i..][..1] == s[i..i + 1];
    LexFrom(s, i, i + 1, ByBytesCr);
  }

  lemma CommentStarts(s: string, i: nat)
    requires i < |s| && !IsQuote(s[i])
    ensures CommentLen(s[i..], true) ==
            if i + 1 < |s| && s[i] == '-' && s[i + 1] == '-' then SpanEnd(s, i + 2, InLine) - i
            else if s[i] == '#' then SpanEnd(s, i + 1, InLine) - i
            else if i + 1 < |s| && s[i] == '/' && s[i + 1] == '*' then SpanEnd(s, i + 2, InBlock) - i
            else 0
  {
    assert s[i..][1..] == s[i + 1..];
    assert i + 1 < |s| ==> s[i..][2..] == s[i + 2..];
  }

  /** countPlaceholders */
  method CountPlaceholders(s: string) returns (count: nat)
    ensures count == Count(s)
  {
    hide Count, SpanEnd, Remaining, CommentLen;
    count := 0;
    var inSingle, inDouble, inBacktick, lineComment, blockComment, escaped := false, false, false, false, false, false;
    var i := 0;
    RemainingStart(s);
    while i < |s|
      invariant 0 <= i <= |s|
      invariant OneOf(inSingle, inDouble, inBacktick, lineComment, blockComment, escaped)
      invariant Count(s) == count + Remaining(s, i, ModeOf(inSingle, inDouble, inBacktick, lineComment, blockComment, escaped))
    {
      var ch := s[i];
      var next := if i + 1 < |s| then s[i + 1] else 0 as char;
      StepAll(s, i);
      if lineComment {
        if ch == '\n' || ch == '\r' {
          lineComment := false;
        }
      } else if blockComment {
        if ch == '*' && next == '/' {
          blockComment := false;
          i := i + 1;
        }
      } else if inSingle {
        if escaped {
          escaped := false;
        } else if ch == '\\' {
          escaped := true;
        } else if ch == '\'' {
          inSingle := false;
        }
      } else if inDouble {
        if escaped {
          escaped := false;
        } else if ch == '\\' {
          escaped := true;
        } else if ch == '"' {
          inDouble := false;
        }
      } else if inBacktick {
        if ch == '`' {
          inBacktick := false;
        }
      } else if ch == '-' && next == '-' {
        lineComment := true;
        i := i + 1;
      } else if ch == '#' {
        lineComment := true;
      } else if ch == '/' && next == '*' {
        blockComment := true;
        i := i + 1;
      } else if ch == '\'' {
        inSingle := true;
      } else if ch == '"' {
        inDouble := true;
      } else if ch == '`' {
        inBacktick := true;
      } else if ch == '?' {
        count := count + 1;
      }
      i := i + 1;
    }
    RemainingEnd(s, ModeOf(inSingle, inDouble, inBacktick, lineComment, blockComment, escaped));
  }

  predicate OneOf(single: bool, double: bool, backtick: bool, line: bool, block: bool, escaped: bool) {
    && (single ==> !double && !backtick && !line && !block)
    && (double ==> !backtick && !line && !block)
    && (backtick ==> !line && !block)
    && (line ==> !block)
    && (escaped ==> single || double)
  }

  function ModeOf(single: bool, double: bool, backtick: bool, line: bool, block: bool, escaped: bool): Mode {
    if line then InLine
    else if block then InBlock
    else if single then InQuote('\'', escaped)
    else if double then InQuote('"', escaped)
    else if backtick then InQuote('`', false)
    else InCode
  }

  lemma RemainingStart(s: string)
    ensures Remaining(s, 0, InCode) == Count(s)
  {
    assert s[0..] == s;
  }

  lemma RemainingEnd(s: string, mode: Mode)
    ensures Remaining(s, |s|, mode) == 0
  {
    assert s[|s|..] == "";
  }

  /** What one byte does in each mode. */
  lemma StepAll(s: string, i: nat)
    requires i < |s|
    ensures Remaining(s, i, InLine) == Remaining(s, i + 1, if s[i] == '\n' || s[i] == '\r' then InCode else InLine)
    ensures if i + 1 < |s| && s[i] == '*' && s[i + 1] == '/' then Remaining(s, i, InBlock) == Remaining(s, i + 2, InCode)
            else Remaining(s, i, InBlock) == Remaining(s, i + 1, InBlock)
    ensures InQuoteStep(s, i, '\'') && InQuoteStep(s, i, '"') && InQuoteStep(s, i, '`')
    ensures InCodeStep(s, i)
  {
    LineStep(s, i);
    BlockStep(s, i);
    QuoteStep(s, i, '\'');
    QuoteStep(s, i, '"');
    QuoteStep(s, i, '`');
    InCodeStepHolds(s, i);
  }

  ghost predicate InQuoteStep(s: string, i: nat, q: char)
    requires i < |s|
  {
    && Remaining(s, i, InQuote(q, true)) == Remaining(s, i + 1, InQuote(q, false))
    && Remaining(s, i, InQuote(q, false)) ==
       Remaining(s, i + 1, if q != '`' && s[i] == '\\' then InQuote(q, true)
                           else if s[i] == q then InCode else InQuote(q, false))
  }

  ghost predicate InCodeStep(s: string, i: nat)
    requires i < |s|
  {
    Remaining(s, i, InCode) ==
    if i + 1 < |s| && s[i] == '-' && s[i + 1] == '-' then Remaining(s, i + 2, InLine)
    else if s[i] == '#' then Remaining(s, i + 1, InLine)
    else if i + 1 < |s| && s[i] == '/' && s[i + 1] == '*' then Remaining(s, i + 2, InBlock)
    else if IsQuote(s[i]) then Remaining(s, i + 1, InQuote(s[i], false))
    else (if s[i] == '?' then 1 else 0) + Remaining(s, i + 1, InCode)
  }

  lemma InCodeStepHolds(s: string, i: nat)
    requires i < |s|
    ensures InCodeStep(s, i)
  {
    hide Remaining, SpanEnd, CommentLen;
    if IsQuote(s[i]) {
      OpenQuote(s, i);
    } else {
      CommentStarts(s, i);
      if i + 1 < |s| && s[i] == '-' && s[i + 1] == '-' {
        OpenComment(s, i, 2, InLine);
      } else if s[i] == '#' {
        OpenComment(s, i, 1, InLine);
      } else if i + 1 < |s| && s[i] == '/' && s[i + 1] == '*' {
        OpenComment(s, i, 2, InBlock);
      } else {
        CodeByte(s, i);
      }
    }
  }

  // ---------------------------------------------------------------------------------------------
  // The automaton refines the scanner
  // ---------------------------------------------------------------------------------------------

  /** A `--` or `#` comment with a carriage return before its last byte. */
  predicate IsCrComment(tok: Token) {
    tok.kind == Comment && tok.text != "" && tok.text[0] != '/' && '\r' in tok.text[..|tok.text| - 1]
  }

  predicate HasCrComment(toks: seq<Token>) {
    toks != [] && (IsCrComment(toks[0]) || HasCrComment(toks[1..]))
  }

  lemma {:induction false} LineTails(t: string)
    ensures LineTail(t, true) <= LineTail(t, false)
    ensures var n := LineTail(t, false);
            LineTail(t, true) == n <==> n == 0 || '\r' !in t[..n - 1]
  {
    if t != "" {
      LineTails(t[1..]);
      var n := LineTail(t, false);
      if t[0] != '\n' && n > 1 {
        assert t[..n - 1] == [t[0]] + t[1..][..n - 2];
      }
    }
  }

  /** The two walks read the same first token unless it is a comment that a carriage return cuts short. */
  lemma LeadsAgree(t: string)
    requires t != ""
    ensures Lead(t, ByBytes) == Lead(t, ByBytesCr) <==> !IsCrComment(Lead(t, ByBytes))
  {
    if !IsQuote(t[0]) {
      if |t| > 1 && t[0] == '-' && t[1] == '-' {
        LineTails(t[2..]);
        CutInside(t, 2, LineTail(t[2..], false));
      } else if t[0] == '#' {
        LineTails(t[1..]);
        CutInside(t, 1, LineTail(t[1..], false));
      }
    }
  }

  lemma CutInside(t: string, open: nat, n: nat)
    requires 0 < open && open + n <= |t| && '\r' !in t[..open]
    ensures '\r' in t[..open + n][..open + n - 1] <==> n > 0 && '\r' in t[open..][..n - 1]
  {
    if n > 0 {
      assert t[..open + n][..open + n - 1] == t[..open] + t[open..][..n - 1];
    } else {
      assert t[..open] == t[..open - 1] + [t[open - 1]];
    }
  }

  /** The automaton and the scanner read a text alike exactly when no line comment has a carriage return inside. */
  lemma {:induction false} WalksAgree(t: string)
    ensures Lex(t, ByBytes) == Lex(t, ByBytesCr) <==> !HasCrComment(Lex(t, ByBytes))
    decreases |t|
  {
    if t != "" {
      var tok := Lead(t, ByBytes);
      LeadsAgree(t);
      assert Lex(t, ByBytes)[0] == tok && Lex(t, ByBytesCr)[0] == Lead(t, ByBytesCr);
      if !IsCrComment(tok) {
        var rest := t[|tok.text|..];
        WalksAgree(rest);
        assert Lex(t, ByBytes)[1..] == Lex(rest, ByBytes) && Lex(t, ByBytesCr)[1..] == Lex(rest, ByBytesCr);
      }
    }
  }

  /** The counter counts the placeholders outside quotes and comments. */
  lemma CountRefinesScanner(t: string)
    requires !HasCrComment(Lex(t, ByBytes))
    ensures Count(t) == MarksIn(t)
  {
    WalksAgree(t);
  }

  /** Behind a carriage return the counter sees a placeholder that the scanner sees in a comment. */
  lemma CountDiffersAfterCr()
    ensures Count("#\r?") == 1 && MarksIn("#\r?") == 0
  {
    var t := "#\r?";
    assert t[1..] == "\r?" && t[1..][1..] == "?" && t[2..] == "?" && t[2..][1..] == "" && t[3..] == "";
    assert LineTail("?", false) == 1 && LineTail("\r?", false) == 2 && LineTail("\r?", true) == 1;
    assert Lead(t, ByBytes) == Token(Comment, t[..3]);
    assert Lead(t, ByBytesCr) == Token(Comment, t[..2]);
    assert Lead("?", ByBytesCr) == Token(Code, "?");
    assert Lex("?", ByBytesCr) == [Token(Code, "?")];
    assert Lex(t, ByBytes) == [Token(Comment, t[..3])];
    assert Lex(t, ByBytesCr)[1..] == [Token(Code, "?")];
    assert Marks([Token(Code, "?")]) == 1 + Marks([]);
  }

  // ---------------------------------------------------------------------------------------------
  // Counting item by item
  // ---------------------------------------------------------------------------------------------

  function Sum(counts: seq<nat>): nat {
    if counts == [] then 0 else counts[0] + Sum(counts[1..])
  }

  function Counts(texts: seq<string>): (r: seq<nat>)
    ensures |r| == |texts|
  {
    seq(|texts|, i requires 0 <= i < |texts| => Count(texts[i]))
  }

  function PieceMarks(pieces: seq<seq<Token>>): nat {
    if pieces == [] then 0 else Marks(pieces[0]) + PieceMarks(pieces[1..])
  }

  /** Separators are not placeholders, so no piece gains or loses one. */
  lemma {:induction false} PiecesKeepMarks(toks: seq<Token>, depth: nat)
    ensures PieceMarks(Pieces(toks, depth, ',')) == Marks(toks)
  {
    if toks != [] {
      if IsCode(toks[0], ',') && depth == 0 {
        PiecesKeepMarks(toks[1..], 0);
        var r := Pieces(toks[1..], 0, ',');
        assert ([[]] + r)[1..] == r;
      } else {
        var depth' := DepthAfter(toks[0], depth);
        var r := Pieces(toks[1..], depth', ',');
        PiecesKeepMarks(toks[1..], depth');
        assert ([toks[0]] + r[0])[1..] == r[0];
        assert ([[toks[0]] + r[0]] + r[1..])[1..] == r[1..];
      }
    }
  }

  lemma {:induction false} PiecesKeepLines(toks: seq<Token>, depth: nat)
    requires !HasCrComment(toks)
    ensures forall p :: p in Pieces(toks, depth, ',') ==> !HasCrComment(p)
  {
    if toks != [] {
      var depth' := DepthAfter(toks[0], depth);
      PiecesKeepLines(toks[1..], if IsCode(toks[0], ',') && depth == 0 then 0 else depth');
      var r := Pieces(toks[1..], depth', ',');
      assert ([toks[0]] + r[0])[1..] == r[0];
    }
  }

  lemma {:induction false} CountPieces(pieces: seq<seq<Token>>)
    requires forall p :: p in pieces ==> Settled(p, ByBytes) && !HasCrComment(p)
    ensures Sum(Counts(Texts(pieces))) == PieceMarks(pieces)
  {
    if pieces != [] {
      assert pieces[0] in pieces;
      Relex(pieces[0], ByBytes);
      CountRefinesScanner(Flatten(pieces[0]));
      CountPieces(pieces[1..]);
      assert Counts(Texts(pieces))[1..] == Counts(Texts(pieces[1..]));
    }
  }

  /** The counts of the items of a list add up to the count of the list. */
  lemma CountIsAdditive(t: string)
    requires !HasCrComment(Lex(t, ByBytes))
    ensures Sum(Counts(SplitList(t))) == Count(t)
  {
    var toks := Lex(t, ByBytes);
    LexSpells(t, ByBytes);
    PiecesSettled(toks, 0, ',', ByBytes);
    PiecesKeepLines(toks, 0);
    CountPieces(Pieces(toks, 0, ','));
    PiecesKeepMarks(toks, 0);
    CountRefinesScanner(t);
  }

  // ---------------------------------------------------------------------------------------------
  // Handing out arguments
  // ---------------------------------------------------------------------------------------------

  lemma {:induction false} SumSplit(counts: seq<nat>, k: nat)
    requires k <= |counts|
    ensures Sum(counts) == Sum(counts[..k]) + Sum(counts[k..])
  {
    if k == 0 {
      assert counts[..0] == [] && counts[0..] == counts;
    } else {
      SumSplit(counts[1..], k - 1);
      assert counts[..k][1..] == counts[1..][..k - 1] && counts[k..] == counts[1..][k - 1..];
    }
  }

  /** `rows` cuts `args` into slices of the given lengths, in order, and `update` is what is left. */
  ghost predicate IsBinding<T>(counts: seq<nat>, args: seq<T>, rows: seq<seq<T>>, update: seq<T>) {
    && |rows| == |counts|
    && (forall i :: 0 <= i < |rows| ==> |rows[i]| == counts[i])
    && Concat(rows) + update == args
  }

  /** mysqlUpsertStatementTemplate.bind: succeeds exactly when the number of arguments is right. */
  method BindUpsert<T>(counts: seq<nat>, updateCount: nat, args: seq<T>)
    returns (ok: bool, rows: seq<seq<T>>, update: seq<T>)
    ensures ok <==> |args| == Sum(counts) + updateCount
    ensures ok ==> |update| == updateCount && IsBinding(counts, args, rows, update)
  {
    ok, rows, update := BindRows(counts, args);
    if !ok || updateCount != |update| {
      return false, [], [];
    }
  }

  /** mysqlInsertStatementTemplate.bind */
  method BindInsert<T>(counts: seq<nat>, args: seq<T>) returns (ok: bool, rows: seq<seq<T>>)
    ensures ok <==> |args| == Sum(counts)
    ensures ok ==> IsBinding(counts, args, rows, [])
  {
    var rest;
    ok, rows, rest := BindRows(counts, args);
    if !ok || rest != [] {
      return false, [];
    }
  }

  /** The loop the two bind methods share: too few arguments, or the rows and what is left. */
  method BindRows<T>(counts: seq<nat>, args: seq<T>) returns (ok: bool, rows: seq<seq<T>>, rest: seq<T>)
    ensures ok <==> Sum(counts) <= |args|
    ensures ok ==> IsBinding(counts, args, rows, rest) && |rest| == |args| - Sum(counts)
    ensures !ok ==> rest == []
  {
    hide Sum, Concat;
    rows := [];
    var argPos: nat, i := 0, 0;
    BindNothing<T>(counts);
    while i < |counts|
      invariant 0 <= i <= |counts| && argPos <= |args|
      invariant IsBinding(counts[..i], args[..argPos], rows, [])
      invariant argPos == Sum(counts[..i])
    {
      SumSplit(counts, i + 1);
      SumSplit(counts[..i + 1], i);
      assert counts[..i + 1][..i] == counts[..i] && counts[..i + 1][i..] == [counts[i]];
      SumOne(counts[i]);
      if argPos + counts[i] > |args| {
        return false, [], [];
      }
      var row := args[argPos..argPos + counts[i]];
      ConcatSnoc(rows, row);
      assert args[..argPos + counts[i]] == args[..argPos] + row;
      assert Concat(rows) + [] == Concat(rows) && Concat(rows + [row]) + [] == Concat(rows + [row]);
      rows := rows + [row];
      argPos := argPos + counts[i];
      i := i + 1;
    }
    assert counts[..i] == counts;
    rest := args[argPos..];
    assert Concat(rows) + [] == Concat(rows) && args == args[..argPos] + rest;
    ok := true;
  }

  lemma SumOne(n: nat)
    ensures Sum([n]) == n
  {
    assert [n][1..] == [];
  }

  lemma BindNothing<T>(counts: seq<nat>)
    ensures Sum(counts[..0]) == 0 && Concat<T>([]) == []
  {
  }

  /** There is only one way to cut the arguments up. */
  lemma {:induction false} BindingIsUnique<T>(counts: seq<nat>, args: seq<T>, rows: seq<seq<T>>, update: seq<T>,
                                              rows': seq<seq<T>>, update': seq<T>)
    requires IsBinding(counts, args, rows, update) && IsBinding(counts, args, rows', update')
    ensures rows == rows' && update == update'
  {
    if counts == [] {
      assert rows == [] && rows' == [] && args == update && args == update';
    } else {
      var n := counts[0];
      assert Concat(rows) == rows[0] + Concat(rows[1..]) && Concat(rows') == rows'[0] + Concat(rows'[1..]);
      assert args[..n] == rows[0] && args[..n] == rows'[0];
      assert args[n..] == Concat(rows[1..]) + update && args[n..] == Concat(rows'[1..]) + update';
      BindingIsUnique(counts[1..], args[n..], rows[1..], update, rows'[1..], update');
      assert rows == [rows[0]] + rows[1..] && rows' == [rows'[0]] + rows'[1..];
    }
  }
}
