/**
 * Splitting SQL text at top-level separators and finding the end of a parenthesis
 * (pkg/mysqlmock/sqlscanner.go and splitSQLStatements of pkg/mysqlmock/sql_compat.go).
 */
module SqlSplitting {
  import opened Text
  import opened SqlScanner

  predicate IsCode(tok: Token, c: char) {
    tok.kind == Code && |tok.text| == 1 && tok.text[0] == c
  }

  /** Parenthesis depth after a token; a stray closing parenthesis leaves depth 0 alone. */
  function DepthAfter(tok: Token, depth: nat): nat {
    if IsCode(tok, '(') then depth + 1
    else if IsCode(tok, ')') && depth > 0 then depth - 1
    else depth
  }

  /** The runs of tokens between the `sep` bytes found at depth 0. */
  function Pieces(toks: seq<Token>, depth: nat, sep: char): (r: seq<seq<Token>>)
    ensures r != []
  {
    if toks == [] then [[]]
    else if IsCode(toks[0], sep) && depth == 0 then [[]] + Pieces(toks[1..], 0, sep)
    else
      var r := Pieces(toks[1..], DepthAfter(toks[0], depth), sep);
      [[toks[0]] + r[0]] + r[1..]
  }

  function Texts(pieces: seq<seq<Token>>): (r: seq<string>)
    ensures |r| == |pieces|
  {
    seq(|pieces|, i requires 0 <= i < |pieces| => Flatten(pieces[i]))
  }

  /** splitSQLTopLevelList */
  function SplitList(t: string): (items: seq<string>)
    ensures items != []
  {
    Texts(Pieces(Lex(t, ByBytes), 0, ','))
  }

  // ---------------------------------------------------------------------------------------------
  // Splitting is exact and stable
  // ---------------------------------------------------------------------------------------------

  lemma {:induction false} PiecesJoin(toks: seq<Token>, depth: nat, sep: char)
    ensures Join(Texts(Pieces(toks, depth, sep)), [sep]) == Flatten(toks)
  {
    if toks != [] {
      if IsCode(toks[0], sep) && depth == 0 {
        PiecesJoin(toks[1..], 0, sep);
        var r := Pieces(toks[1..], 0, sep);
        assert Texts([[]] + r) == [""] + Texts(r);
        assert ([""] + Texts(r))[1..] == Texts(r);
        assert "" + [sep] == [sep];
      } else {
        var depth' := DepthAfter(toks[0], depth);
        PiecesJoin(toks[1..], depth', sep);
        JoinHead(Pieces(toks[1..], depth', sep), toks[0], sep);
      }
    }
  }

  lemma JoinHead(r: seq<seq<Token>>, tok: Token, sep: char)
    requires r != []
    ensures Join(Texts([[tok] + r[0]] + r[1..]), [sep]) == tok.text + Join(Texts(r), [sep])
  {
    var r' := [[tok] + r[0]] + r[1..];
    assert ([tok] + r[0])[1..] == r[0];
    assert Flatten(r'[0]) == tok.text + Flatten(r[0]);
    assert Texts(r')[1..] == Texts(r)[1..];
    JoinPrefix(Texts(r), Texts(r'), tok.text, [sep]);
  }

  lemma JoinPrefix(a: seq<string>, b: seq<string>, head: string, sep: string)
    requires |a| == |b| > 0 && b[0] == head + a[0] && b[1..] == a[1..]
    ensures Join(b, sep) == head + Join(a, sep)
  {
    if |a| > 1 {
      assert (head + a[0]) + sep + Join(a[1..], sep) == head + (a[0] + sep + Join(a[1..], sep));
    }
  }

  /** Each piece sits on its own as it sat in the whole text. */
  lemma {:induction false} PiecesSettled(toks: seq<Token>, depth: nat, sep: char, walk: Walk)
    requires Settled(toks, walk)
    ensures forall p :: p in Pieces(toks, depth, sep) ==> Settled(p, walk)
    ensures Pieces(toks, depth, sep)[0] <= toks
  {
    if toks != [] {
      if IsCode(toks[0], sep) && depth == 0 {
        PiecesSettled(toks[1..], 0, sep, walk);
      } else {
        var r := Pieces(toks[1..], DepthAfter(toks[0], depth), sep);
        PiecesSettled(toks[1..], DepthAfter(toks[0], depth), sep, walk);
        var head, n := [toks[0]] + r[0], 1 + |r[0]|;
        assert head == toks[..n];
        assert toks == toks[..n] + toks[n..];
        SettledCut(toks[..n], toks[n..], walk);
      }
    }
  }

  /** A piece contains no top-level separator of its own. */
  lemma {:induction false} PieceIsWhole(toks: seq<Token>, depth: nat, sep: char, i: nat)
    requires i < |Pieces(toks, depth, sep)|
    ensures var p := Pieces(toks, depth, sep)[i];
            Pieces(p, if i == 0 then depth else 0, sep) == [p]
  {
    if toks != [] {
      if IsCode(toks[0], sep) && depth == 0 {
        if i > 0 {
          PieceIsWhole(toks[1..], 0, sep, i - 1);
        }
      } else {
        var depth' := DepthAfter(toks[0], depth);
        var r := Pieces(toks[1..], depth', sep);
        PieceIsWhole(toks[1..], depth', sep, i);
        if i == 0 {
          assert ([toks[0]] + r[0])[1..] == r[0];
        }
      }
    }
  }

  /** Joining the items with commas gives the input back, and splitting an item gives that item. */
  lemma SplitListExact(t: string)
    ensures Join(SplitList(t), ",") == t
    ensures forall i :: 0 <= i < |SplitList(t)| ==> SplitList(SplitList(t)[i]) == [SplitList(t)[i]]
  {
    var toks := Lex(t, ByBytes);
    var pieces := Pieces(toks, 0, ',');
    LexSpells(t, ByBytes);
    PiecesJoin(toks, 0, ',');
    PiecesSettled(toks, 0, ',', ByBytes);
    forall i | 0 <= i < |pieces|
      ensures SplitList(SplitList(t)[i]) == [SplitList(t)[i]]
    {
      PieceIsWhole(toks, 0, ',', i);
      Relex(pieces[i], ByBytes);
    }
  }

  /** An item is never longer than the list it came from. */
  lemma {:induction false} PieceLength(toks: seq<Token>, depth: nat, sep: char, i: nat)
    requires i < |Pieces(toks, depth, sep)|
    ensures |Flatten(Pieces(toks, depth, sep)[i])| <= |Flatten(toks)|
  {
    if toks != [] {
      if IsCode(toks[0], sep) && depth == 0 {
        if i > 0 {
          PieceLength(toks[1..], 0, sep, i - 1);
        }
      } else {
        var depth' := DepthAfter(toks[0], depth);
        var r := Pieces(toks[1..], depth', sep);
        PieceLength(toks[1..], depth', sep, i);
        if i == 0 {
          assert ([toks[0]] + r[0])[1..] == r[0];
        }
      }
    }
  }

  /** What splitting still has to find from position `i` on, at the given depth. */
  ghost function Rest(s: string, i: nat, depth: nat, sep: char): (items: seq<string>)
    requires i <= |s|
    ensures items != []
  {
    Texts(Pieces(Lex(s[i..], ByBytes), depth, sep))
  }

  /** The items when `head` has already been read of the first one. */
  ghost function Resume(head: string, items: seq<string>): seq<string>
    requires items != []
  {
    [head + items[0]] + items[1..]
  }

  /** A separator at depth 0 ends the item read since `start`. */
  lemma RestCut(s: string, start: nat, i: nat, sep: char)
    requires start <= i < |s| && s[i] == sep && !IsQuote(sep) && CommentLen(s[i..], false) == 0
    ensures Resume(s[start..i], Rest(s, i, 0, sep)) == [s[start..i]] + Resume(s[i + 1..i + 1], Rest(s, i + 1, 0, sep))
  {
    LexCode(s, i);
    var r := Pieces(Lex(s[i + 1..], ByBytes), 0, sep);
    assert Rest(s, i, 0, sep) == Texts([[]] + r);
    PiecesCut(r);
    ResumeEmpty(s[start..i], s[i + 1..i + 1], Texts(r));
  }

  lemma PiecesCut(r: seq<seq<Token>>)
    ensures Texts([[]] + r) == [""] + Texts(r)
  {
  }

  lemma ResumeEmpty(head: string, empty: string, items: seq<string>)
    requires items != [] && empty == ""
    ensures Resume(head, [""] + items) == [head] + Resume(empty, items)
  {
    assert empty + items[0] == items[0] && head + "" == head;
  }

  /** Any other span or byte is added to the item read since `start`. */
  lemma RestGrow(s: string, start: nat, i: nat, end: nat, depth: nat, sep: char)
    requires start <= i < end <= |s| && Lead(s[i..], ByBytes).text == s[i..end]
    requires !(IsCode(Lead(s[i..], ByBytes), sep) && depth == 0)
    ensures Resume(s[start..i], Rest(s, i, depth, sep)) ==
            Resume(s[start..end], Rest(s, end, DepthAfter(Lead(s[i..], ByBytes), depth), sep))
  {
    RestStep(s, i, end, depth, sep);
    hide Lead, Rest, IsCode, DepthAfter;
    var depth' := DepthAfter(Lead(s[i..], ByBytes), depth);
    ResumeGrow(s[start..i], s[i..end], Rest(s, end, depth', sep));
    assert s[start..i] + s[i..end] == s[start..end];
  }

  lemma RestStep(s: string, i: nat, end: nat, depth: nat, sep: char)
    requires i < end <= |s| && Lead(s[i..], ByBytes).text == s[i..end]
    requires !(IsCode(Lead(s[i..], ByBytes), sep) && depth == 0)
    ensures var r := Rest(s, end, DepthAfter(Lead(s[i..], ByBytes), depth), sep);
            Rest(s, i, depth, sep) == [s[i..end] + r[0]] + r[1..]
  {
    hide Lead, IsCode, DepthAfter, Lex;
    LexFrom(s, i, end, ByBytes);
    var tok := Lead(s[i..], ByBytes);
    var r := Pieces(Lex(s[end..], ByBytes), DepthAfter(tok, depth), sep);
    PiecesGrow([tok] + r[0], tok, r);
    assert Rest(s, i, depth, sep) == Texts([[tok] + r[0]] + r[1..]);
  }

  lemma ResumeGrow(head: string, text: string, items: seq<string>)
    requires items != []
    ensures Resume(head, [text + items[0]] + items[1..]) == Resume(head + text, items)
  {
    assert head + (text + items[0]) == (head + text) + items[0];
  }

  lemma PiecesGrow(first: seq<Token>, tok: Token, r: seq<seq<Token>>)
    requires r != [] && first == [tok] + r[0]
    ensures Texts([first] + r[1..]) == [tok.text + Texts(r)[0]] + Texts(r)[1..]
  {
    assert first[1..] == r[0];
  }

  lemma RestStart(s: string, sep: char)
    ensures Resume(s[0..0], Rest(s, 0, 0, sep)) == Texts(Pieces(Lex(s, ByBytes), 0, sep))
  {
    assert s[0..] == s && s[0..0] == "";
    assert "" + Rest(s, 0, 0, sep)[0] == Rest(s, 0, 0, sep)[0];
  }

  lemma RestEnd(s: string, start: nat, depth: nat, sep: char)
    requires start <= |s|
    ensures Resume(s[start..|s|], Rest(s, |s|, depth, sep)) == [s[start..]]
  {
    assert s[|s|..] == "" && s[start..|s|] + "" == s[start..];
    assert Rest(s, |s|, depth, sep) == [""];
  }

  /** One turn of a splitting loop: skip a span, count a parenthesis, or find a separator (`cut`). */
  method SplitMove(s: string, ghost start: nat, i: nat, depth: nat, sep: char)
    returns (end: nat, depth': nat, cut: bool)
    requires start <= i < |s| && (sep == ',' || sep == ';')
    ensures i < end <= |s|
    ensures cut ==> depth' == 0 && Resume(s[start..i], Rest(s, i, depth, sep)) ==
                                   [s[start..i]] + Resume(s[end..end], Rest(s, end, 0, sep))
    ensures !cut ==> Resume(s[start..i], Rest(s, i, depth, sep)) == Resume(s[start..end], Rest(s, end, depth', sep))
  {
    var ok;
    end, ok := SpanAt(s, i);
    depth' := depth;
    cut := !ok && s[i] == sep && depth == 0;
    if cut {
      RestCut(s, start, i, sep);
    } else {
      RestGrow(s, start, i, end, depth, sep);
      if !ok && s[i] == '(' {
        depth' := depth + 1;
      } else if !ok && s[i] == ')' && depth > 0 {
        depth' := depth - 1;
      }
    }
  }

  method SplitSqlTopLevelList(s: string) returns (items: seq<string>)
    ensures items == SplitList(s)
  {
    hide Lex, Pieces, Texts, Rest, Resume;
    items := [];
    var start, depth, i := 0, 0, 0;
    RestStart(s, ',');
    ghost var todo := SplitList(s);
    while i < |s|
      invariant 0 <= start <= i <= |s| && 0 <= depth
      invariant todo == Resume(s[start..i], Rest(s, i, depth, ','))
      invariant SplitList(s) == items + todo
    {
      var end, depth', cut := SplitMove(s, start, i, depth, ',');
      if cut {
        todo := todo[1..];
        items := items + [s[start..i]];
        start := end;
      }
      depth, i := depth', end;
    }
    RestEnd(s, start, depth, ',');
    items := items + [s[start..]];
  }

  // ---------------------------------------------------------------------------------------------
  // Parenthesised spans
  // ---------------------------------------------------------------------------------------------

  /** Opening minus closing parentheses outside quotes and comments. */
  function Balance(toks: seq<Token>): int {
    if toks == [] then 0
    else (if IsCode(toks[0], '(') then 1 else if IsCode(toks[0], ')') then -1 else 0) + Balance(toks[1..])
  }

  /** Tokens up to and including the one that closes `depth` open parentheses; 0 if none does. */
  function CloseAt(toks: seq<Token>, depth: nat): (k: nat)
    requires depth > 0
    ensures k <= |toks|
  {
    if toks == [] then 0
    else
      var depth' := DepthAfter(toks[0], depth);
      if depth' == 0 then 1
      else
        var k := CloseAt(toks[1..], depth');
        if k == 0 then 0 else k + 1
  }

  /** parenthesizedSQLSpan: length of the span `t` opens, 0 if `t` opens none or never closes it. */
  function ParenLen(t: string): nat {
    if t == "" || t[0] != '(' then 0
    else
      var toks := Lex(t[1..], ByBytes);
      if CloseAt(toks, 1) == 0 then 0 else 1 + |Flatten(toks[..CloseAt(toks, 1)])|
  }

  lemma {:induction false} CloseAtFirstBalance(toks: seq<Token>, depth: nat)
    requires depth > 0
    ensures var k := CloseAt(toks, depth);
            (k > 0 ==> depth + Balance(toks[..k]) == 0) &&
            (forall j :: 0 <= j < (if k == 0 then |toks| + 1 else k) ==> depth + Balance(toks[..j]) > 0)
  {
    var k := CloseAt(toks, depth);
    if toks != [] {
      var depth' := DepthAfter(toks[0], depth);
      if depth' > 0 {
        CloseAtFirstBalance(toks[1..], depth');
      }
      forall j | 1 <= j <= |toks|
        ensures Balance(toks[..j]) == depth' - depth + Balance(toks[1..][..j - 1])
      {
        assert toks[..j][1..] == toks[1..][..j - 1];
      }
    }
  }

  /** Every prefix cut between tokens that is shorter than the span is still open, and one as long as it balances. */
  lemma ParenShortest(t: string, j: nat)
    requires t != "" && t[0] == '('
    requires 0 < j <= |Lex(t, ByBytes)|
    ensures var prefix := Lex(t, ByBytes)[..j];
            (|Flatten(prefix)| == ParenLen(t) ==> Balance(prefix) == 0) &&
            (ParenLen(t) == 0 || |Flatten(prefix)| < ParenLen(t) ==> Balance(prefix) > 0)
  {
    ParenLex(t);
    LexSpells(t[1..], ByBytes);
    PrefixOfClose(Token(Code, t[..1]), Lex(t[1..], ByBytes), j - 1);
    assert Lex(t, ByBytes)[..j] == [Token(Code, t[..1])] + Lex(t[1..], ByBytes)[..j - 1];
  }

  /**
   * The span found is a prefix cut between tokens, the shortest one whose parentheses balance outside
   * quotes and comments; no span is found exactly when no such prefix balances.
   */
  lemma ParenFound(t: string)
    requires t != "" && t[0] == '('
    ensures var toks := Lex(t, ByBytes);
            && (ParenLen(t) > 0 <==> exists j :: 0 < j <= |toks| && Balance(toks[..j]) == 0)
            && (ParenLen(t) > 0 ==> exists j :: 0 < j <= |toks| && |Flatten(toks[..j])| == ParenLen(t) &&
                                      Balance(toks[..j]) == 0 && forall i :: 0 < i < j ==> Balance(toks[..i]) > 0)
  {
    hide Balance;
    var toks := Lex(t, ByBytes);
    if ParenLen(t) > 0 {
      ParenEnd(t);
      var j :| 0 < j <= |toks| && |Flatten(toks[..j])| == ParenLen(t);
      ParenShortest(t, j);
      LexSpells(t, ByBytes);
      forall i | 0 < i < j
        ensures Balance(toks[..i]) > 0
      {
        FlattenMonotone(toks, i, j, ByBytes);
        ParenShortest(t, i);
      }
    } else if j :| 0 < j <= |toks| && Balance(toks[..j]) == 0 {
      ParenShortest(t, j);
      assert false;
    }
  }

  lemma ParenEnd(t: string)
    requires ParenLen(t) > 0
    ensures var toks := Lex(t, ByBytes);
            exists j :: 0 < j <= |toks| && |Flatten(toks[..j])| == ParenLen(t)
  {
    ParenLex(t);
    var open, later := Token(Code, t[..1]), Lex(t[1..], ByBytes);
    var k := CloseAt(later, 1);
    var prefix := ([open] + later)[..k + 1];
    assert prefix[1..] == later[..k] && prefix[0] == open;
    assert |Flatten(prefix)| == ParenLen(t);
  }

  lemma ParenLex(t: string)
    requires t != "" && t[0] == '('
    ensures Lex(t, ByBytes) == [Token(Code, t[..1])] + Lex(t[1..], ByBytes)
  {
    assert Lead(t, ByBytes) == Token(Code, t[..1]);
  }

  lemma PrefixOfClose(open: Token, toks: seq<Token>, j: nat)
    requires IsCode(open, '(') && Settled(toks, ByBytes) && j <= |toks|
    ensures var k, prefix := CloseAt(toks, 1), [open] + toks[..j];
            var len := if k == 0 then 0 else 1 + |Flatten(toks[..k])|;
            (|Flatten(prefix)| == len ==> Balance(prefix) == 0) &&
            (len == 0 || |Flatten(prefix)| < len ==> Balance(prefix) > 0)
  {
    var k := CloseAt(toks, 1);
    assert ([open] + toks[..j])[1..] == toks[..j];
    CloseAtFirstBalance(toks, 1);
    if k > 0 {
      FlattenMonotone(toks, j, k, ByBytes);
      FlattenMonotone(toks, k, j, ByBytes);
    }
  }

  lemma FlattenMonotone(toks: seq<Token>, j: nat, k: nat, walk: Walk)
    requires j <= |toks| && k <= |toks| && Settled(toks, walk)
    ensures j < k <==> |Flatten(toks[..j])| < |Flatten(toks[..k])|
  {
    var lo, hi := if j < k then j else k, if j < k then k else j;
    assert toks == toks[..lo] + toks[lo..] && toks[..hi] == toks[..lo] + toks[lo..hi];
    SettledCut(toks[..lo], toks[lo..], walk);
    FlattenAppend(toks[..lo], toks[lo..hi]);
    if lo < hi {
      assert toks[lo..hi][0] == toks[lo..][0];
    }
  }

  /** A span found lies inside the text and holds at least its two parentheses. */
  lemma ParenInside(t: string)
    ensures ParenLen(t) <= |t| && ParenLen(t) != 1
  {
    if t != "" && t[0] == '(' {
      var toks := Lex(t[1..], ByBytes);
      var k := CloseAt(toks, 1);
      LexSpells(t[1..], ByBytes);
      assert toks == toks[..k] + toks[k..];
      FlattenAppend(toks[..k], toks[k..]);
      if k > 0 {
        SettledCut(toks[..k], toks[k..], ByBytes);
      }
    }
  }

  method ParenthesizedSqlSpan(s: string, pos: nat) returns (end: nat, ok: bool)
    requires pos <= |s|
    ensures ok <==> ParenLen(s[pos..]) > 0
    ensures ok ==> end == pos + ParenLen(s[pos..])
    ensures !ok ==> end == if pos < |s| && s[pos] == '(' then |s| else pos
  {
    hide Lex, CloseAt;
    if pos >= |s| || s[pos] != '(' {
      return pos, false;
    }
    assert s[pos..][1..] == s[pos + 1..];
    var depth, i := 1, pos + 1;
    while i < |s|
      invariant pos < i <= |s| && depth > 0
      invariant Closing(s, pos + 1, 1) == Closing(s, i, depth)
    {
      var j, span := SpanAt(s, i);
      ClosingStep(s, i, j, depth);
      if !span && s[i] == '(' {
        depth := depth + 1;
      } else if !span && s[i] == ')' {
        depth := depth - 1;
        if depth == 0 {
          return i + 1, true;
        }
      }
      i := j;
    }
    ClosingEnd(s, depth);
    return |s|, false;
  }

  /** Where the parenthesis still open at position `i` closes, 0 if it does not. */
  ghost function Closing(s: string, i: nat, depth: nat): nat
    requires i <= |s| && depth > 0
  {
    var toks := Lex(s[i..], ByBytes);
    if CloseAt(toks, depth) == 0 then 0 else i + |Flatten(toks[..CloseAt(toks, depth)])|
  }

  lemma ClosingEnd(s: string, depth: nat)
    requires depth > 0
    ensures Closing(s, |s|, depth) == 0
  {
    assert s[|s|..] == "";
  }

  lemma ClosingStep(s: string, i: nat, end: nat, depth: nat)
    requires i < end <= |s| && depth > 0 && Lead(s[i..], ByBytes).text == s[i..end]
    ensures var depth' := DepthAfter(Lead(s[i..], ByBytes), depth);
            Closing(s, i, depth) == if depth' == 0 then end else Closing(s, end, depth')
  {
    LexFrom(s, i, end, ByBytes);
    var tok, toks, later := Lead(s[i..], ByBytes), Lex(s[i..], ByBytes), Lex(s[end..], ByBytes);
    var depth' := DepthAfter(tok, depth);
    if depth' == 0 {
      assert toks[..1] == [tok] && Flatten([tok]) == tok.text + "";
    } else {
      var k := CloseAt(later, depth');
      assert toks[..k + 1] == [tok] + later[..k];
      assert ([tok] + later[..k])[1..] == later[..k];
    }
  }

  // ---------------------------------------------------------------------------------------------
  // Statements
  // ---------------------------------------------------------------------------------------------

  function TrimmedNonEmpty(texts: seq<string>): seq<string> {
    if texts == [] then []
    else (if TrimSpace(texts[0]) == "" then [] else [TrimSpace(texts[0])]) + TrimmedNonEmpty(texts[1..])
  }

  /** splitSQLStatements */
  function Statements(t: string): seq<string> {
    TrimmedNonEmpty(Texts(Pieces(Lex(t, ByBytes), 0, ';')))
  }

  /** The text holds no top-level semicolon. */
  predicate Solid(t: string, depth: nat) {
    |Pieces(Lex(t, ByBytes), depth, ';')| == 1
  }

  lemma LeadStep(t: string, depth: nat)
    requires t != "" && Solid(t, depth)
    ensures var tok := Lead(t, ByBytes);
            !(IsCode(tok, ';') && depth == 0) && Solid(t[|tok.text|..], DepthAfter(tok, depth))
  {
    var toks := Lex(t, ByBytes);
    assert toks[0] == Lead(t, ByBytes) && toks[1..] == Lex(t[|toks[0].text|..], ByBytes);
  }

  lemma LeadStepBack(t: string, depth: nat)
    requires t != ""
    requires var tok := Lead(t, ByBytes);
             !(IsCode(tok, ';') && depth == 0) && Solid(t[|tok.text|..], DepthAfter(tok, depth))
    ensures Solid(t, depth)
  {
    var toks := Lex(t, ByBytes);
    assert toks[0] == Lead(t, ByBytes) && toks[1..] == Lex(t[|toks[0].text|..], ByBytes);
  }

  lemma {:induction false} TrimLeftSolid(t: string)
    requires Solid(t, 0)
    ensures Solid(TrimLeft(t), 0)
  {
    if t != "" && IsBlank(t[0]) {
      LeadStep(t, 0);
      assert Lead(t, ByBytes) == Token(Code, t[..1]);
      TrimLeftSolid(t[1..]);
    }
  }

  /** A span that runs to the end of the text still does after the text is cut short. */
  lemma UnclosedQuote(x: string, y: string, q: char)
    requires IsQuote(q) && y != "" && y[0] != q && QuoteTail(x + y, q) == |x + y|
    ensures QuoteTail(x, q) == |x|
  {
    var n := QuoteTail(x, q);
    if n < |x| {
      var a, b := x[..n], x[n..];
      assert a + b == x && a + (b + y) == x + y;
      ShortSpanIsClosed(a, b, q);
      ClosedBodyEnds(a, b + y, q);
    }
  }

  lemma UnclosedComment(x: string, c: char)
    requires |x| > 0 && IsBlank(c) && CommentLen(x + [c], false) == |x| + 1
    ensures CommentLen(x, false) == |x|
  {
    var n := CommentLen(x, false);
    TailAfterFirst(x, [c], "");
    assert |x| > 1 ==> (x + [c])[1] == x[1];
    if x[0] == '#' {
      UnclosedLine(x[1..], c);
    } else if x[0] == '-' {
      UnclosedLine(x[2..], c);
    } else {
      UnclosedBlock(x[2..], c);
    }
  }

  lemma {:induction false} UnclosedLine(x: string, c: char)
    requires LineTail(x + [c], false) == |x| + 1
    ensures LineTail(x, false) == |x|
  {
    if x != "" {
      assert (x + [c])[1..] == x[1..] + [c];
      UnclosedLine(x[1..], c);
    }
  }

  lemma {:induction false} UnclosedBlock(x: string, c: char)
    requires IsBlank(c) && BlockTail(x + [c]) == |x| + 1
    ensures BlockTail(x) == |x|
  {
    if |x| > 1 {
      assert (x + [c])[1..] == x[1..] + [c];
      UnclosedBlock(x[1..], c);
    }
  }

  /** Dropping a trailing blank uncovers no semicolon, even when the blank sat in an open comment. */
  lemma {:induction false} CutBlankSolid(u: string, c: char, depth: nat)
    requires IsBlank(c) && Solid(u + [c], depth)
    ensures Solid(u, depth)
    decreases |u|
  {
    if u == "" {
      return;
    }
    var v := u + [c];
    var tok := Lead(v, ByBytes);
    var n := |tok.text|;
    LeadStep(v, depth);
    if n < |v| {
      assert v == tok.text + v[n..] && u == tok.text + u[n..] && v[n..] == u[n..] + [c];
      if n < |u| {
        SitsNext(tok, v[n..], u[n..], ByBytes);
      } else {
        SitsAtEnd(tok, v[n..], ByBytes);
      }
      CutBlankSolid(u[n..], c, DepthAfter(tok, depth));
      LeadStepBack(u, depth);
    } else {
      WholeSpan(u, c);
      assert u[|u|..] == "";
      LeadStepBack(u, depth);
    }
  }

  lemma WholeSpan(u: string, c: char)
    requires u != "" && IsBlank(c) && Lead(u + [c], ByBytes).text == u + [c]
    ensures Lead(u, ByBytes).text == u && Lead(u, ByBytes).kind != Code
  {
    assert (u + [c])[1..] == u[1..] + [c];
    if IsQuote(u[0]) {
      UnclosedQuote(u[1..], [c], u[0]);
    } else {
      UnclosedComment(u, c);
    }
  }

  lemma {:induction false} TrimRightSolid(t: string)
    requires Solid(t, 0)
    ensures Solid(TrimRight(t), 0)
  {
    if t != "" && IsBlank(t[|t| - 1]) {
      assert t == t[..|t| - 1] + [t[|t| - 1]];
      CutBlankSolid(t[..|t| - 1], t[|t| - 1], 0);
      TrimRightSolid(t[..|t| - 1]);
    }
  }

  lemma TrimSpaceTwice(t: string)
    ensures TrimSpace(TrimSpace(t)) == TrimSpace(t)
  {
    var left := TrimLeft(t);
    var both := TrimRight(left);
    if both != "" {
      assert both[0] == left[0];
    }
  }

  lemma SolidIsOneStatement(t: string)
    requires Solid(t, 0) && TrimSpace(t) == t && t != ""
    ensures Statements(t) == [t]
  {
    var pieces := Pieces(Lex(t, ByBytes), 0, ';');
    LexSpells(t, ByBytes);
    PiecesJoin(Lex(t, ByBytes), 0, ';');
    assert Texts(pieces) == [t];
    assert TrimmedNonEmpty([]) == [] && [t][1..] == [];
  }

  lemma {:induction false} TrimmedFrom(texts: seq<string>, stmt: string)
    requires stmt in TrimmedNonEmpty(texts)
    ensures stmt != "" && exists i :: 0 <= i < |texts| && stmt == TrimSpace(texts[i])
  {
    if stmt != TrimSpace(texts[0]) || stmt == "" {
      TrimmedFrom(texts[1..], stmt);
      var i :| 0 <= i < |texts[1..]| && stmt == TrimSpace(texts[1..][i]);
      assert texts[i + 1] == texts[1..][i];
    }
  }

  /** Every statement splits to itself. */
  lemma StatementsStable(t: string, stmt: string)
    requires stmt in Statements(t)
    ensures Statements(stmt) == [stmt]
  {
    var toks := Lex(t, ByBytes);
    var pieces := Pieces(toks, 0, ';');
    TrimmedFrom(Texts(pieces), stmt);
    var i :| 0 <= i < |Texts(pieces)| && stmt == TrimSpace(Texts(pieces)[i]);
    var text := Flatten(pieces[i]);
    LexSpells(t, ByBytes);
    PiecesSettled(toks, 0, ';', ByBytes);
    PieceIsWhole(toks, 0, ';', i);
    assert pieces[i] in pieces;
    Relex(pieces[i], ByBytes);
    TrimLeftSolid(text);
    TrimRightSolid(TrimLeft(text));
    TrimSpaceTwice(text);
    SolidIsOneStatement(stmt);
  }

  method SplitSqlStatements(s: string) returns (statements: seq<string>)
    ensures statements == Statements(s)
  {
    hide Lex, Pieces, Texts, Rest, Resume, TrimmedNonEmpty, AddTrimmed;
    statements := [];
    var start, depth, i := 0, 0, 0;
    RestStart(s, ';');
    ghost var want, todo := Statements(s), Texts(Pieces(Lex(s, ByBytes), 0, ';'));
    while i < |s|
      invariant 0 <= start <= i <= |s| && 0 <= depth
      invariant todo == Resume(s[start..i], Rest(s, i, depth, ';'))
      invariant want == statements + TrimmedNonEmpty(todo)
    {
      var end, depth', cut := SplitMove(s, start, i, depth, ';');
      if cut {
        TrimmedHead(statements, todo);
        todo := todo[1..];
        statements := AddTrimmed(statements, s[start..i]);
        start := end;
      }
      depth, i := depth', end;
    }
    RestEnd(s, start, depth, ';');
    TrimmedLast(statements, s[start..]);
    statements := AddTrimmed(statements, s[start..]);
  }

  /** The list of statements after one more piece of text. */
  function AddTrimmed(done: seq<string>, text: string): seq<string> {
    if TrimSpace(text) == "" then done else done + [TrimSpace(text)]
  }

  lemma TrimmedHead(done: seq<string>, texts: seq<string>)
    requires texts != []
    ensures done + TrimmedNonEmpty(texts) == AddTrimmed(done, texts[0]) + TrimmedNonEmpty(texts[1..])
  {
    hide TrimSpace;
    if TrimSpace(texts[0]) != "" {
      Regroup(done, [TrimSpace(texts[0])], TrimmedNonEmpty(texts[1..]));
    }
  }

  lemma TrimmedLast(done: seq<string>, text: string)
    ensures done + TrimmedNonEmpty([text]) == AddTrimmed(done, text)
  {
    hide TrimSpace;
    assert [text][1..] == [];
  }

  lemma Regroup<T>(a: seq<T>, b: seq<T>, c: seq<T>)
    ensures a + (b + c) == a + b + c
  {
  }
}
