/**
 * The MySQL-to-SQLite translation pipeline and its fast path (translateSQL and needsSQLTranslation
 * of pkg/mysqlmock/protocol.go with the passes of function_compat.go and sql_compat.go).
 */
module Pipeline {
  import opened Options
  import opened Text
  import opened SqlScanner
  import opened SqlSplitting
  import opened SqlParsing
  import opened TokenLists
  import opened IndexStatements
  import opened UpdateTargets
  import opened LikeEscape
  import opened StringLiterals

  /**
   * The parts of the pipeline that are tables of their own: what a rewritten function call reads,
   * what the token loop writes for DDL, the name an index gets (a hash of table and index) and how
   * its columns are written.  The laws below hold whatever these return.
   */
  datatype Tables = Tables(
    call: (string, string) -> Option<string>,
    ddlLoop: string -> string,
    indexName: (string, string) -> string,
    indexColumns: string -> string)

  // ---------------------------------------------------------------------------------------------
  // The passes
  // ---------------------------------------------------------------------------------------------

  /** translateMySQLOperators */
  function Operators(t: string): string
    decreases |t|
  {
    if t == "" then ""
    else
      var tok := Lead(t, ByBytes);
      if tok.kind == Code && "<=>" <= t then " IS " + Operators(t[3..])
      else tok.text + Operators(t[|tok.text|..])
  }

  const CALLS := {"CONCAT", "DATE_FORMAT", "JSON_EXTRACT", "JSON_UNQUOTE", "CAST"}

  /** translateMySQLFunctionCall: only five functions are handled. */
  function CallText(name: string, inner: string, tables: Tables): Option<string> {
    if Upper(name) in CALLS then tables.call(name, inner) else None
  }

  /** The call that follows a function name: its length from the name's end, spaces included. */
  function CallLen(t: string): (n: nat)
    ensures n == 0 || (2 <= n - SpaceLen(t) && n <= |t|)
  {
    var u := SkipSpaces(t);
    ParenInside(u);
    if ParenLen(u) == 0 then 0 else SpaceLen(t) + ParenLen(u)
  }

  /** What stands between the parentheses of a call. */
  function CallInner(t: string): string
    requires CallLen(t) > 0
  {
    t[SpaceLen(t) + 1..CallLen(t) - 1]
  }

  /** translateMySQLFunctionCalls */
  function FunctionCalls(t: string, tables: Tables): string
    decreases |t|
  {
    if t == "" then ""
    else
      var tok := Lead(t, ByWords);
      var rest := t[|tok.text|..];
      var n := CallLen(rest);
      if tok.kind == Word && n > 0 then
        var text := CallText(tok.text, CallInner(rest), tables);
        if text.Some? then text.value + FunctionCalls(rest[n..], tables)
        else tok.text + FunctionCalls(rest, tables)
      else tok.text + FunctionCalls(rest, tables)
  }

  /** Where a locking clause starts, if the walk that steps over parentheses meets one. */
  function LockAt(t: string): (r: Option<nat>)
    ensures r.Some? ==> r.value <= |t|
    decreases |t|
  {
    if t == "" then None
    else
      var tok := Lead(t, ByWords);
      ParenInside(t);
      if tok.kind == Code && ParenLen(t) > 0 then Later(LockAt(t[ParenLen(t)..]), ParenLen(t))
      else if tok.kind == Word && OpensLock(tok.text, t[|tok.text|..]) then Some(0)
      else Later(LockAt(t[|tok.text|..]), |tok.text|)
  }

  /** FOR UPDATE, FOR SHARE or LOCK IN SHARE MODE. */
  predicate OpensLock(word: string, rest: string) {
    || (EqualFold(word, "FOR") && (Keyword(rest, "UPDATE").Some? || Keyword(rest, "SHARE").Some?))
    || (EqualFold(word, "LOCK") && Keyword(rest, "IN").Some? && Keyword(Keyword(rest, "IN").value, "SHARE").Some? &&
        Keyword(Keyword(Keyword(rest, "IN").value, "SHARE").value, "MODE").Some?)
  }

  function TrimSpacesRight(s: string): (r: string)
    ensures r <= s
  {
    if s != "" && IsSpace(s[|s| - 1]) then TrimSpacesRight(s[..|s| - 1]) else s
  }

  /** trimSQLClauseSuffix */
  function TrimClause(t: string, start: nat): string
    requires start <= |t|
  {
    var clause := TrimSpacesRight(t[start..]);
    TrimSpacesRight(t[..start]) + if clause != "" && clause[|clause| - 1] == ';' then ";" else ""
  }

  /** stripMySQLLockingClause, its text applied when a clause was found. */
  function StripLock(t: string): string {
    if LockAt(t).Some? then TrimClause(t, LockAt(t).value) else t
  }

  /** stripsMySQLDDLOptions */
  predicate StripsDdl(t: string) {
    var upper := Upper(TrimSpace(t));
    HasPrefix(upper, "CREATE TABLE ") || HasPrefix(upper, "CREATE TEMPORARY TABLE ") ||
    HasPrefix(upper, "CREATE TEMP TABLE ") || HasPrefix(upper, "ALTER TABLE ") ||
    HasPrefix(upper, "CREATE INDEX ") || HasPrefix(upper, "CREATE UNIQUE INDEX ")
  }

  const CLOCKS := {"NOW", "CURRENT_TIMESTAMP"}

  /** What the token loop writes for a word outside DDL. */
  function WordText(word: string): string {
    var upper := Upper(word);
    if upper == "TRUE" then "1"
    else if upper == "FALSE" then "0"
    else if upper == "AUTO_INCREMENT" then "AUTOINCREMENT"
    else word
  }

  /** The token loop of translateSQL outside DDL. */
  function TokenLoop(t: string): string
    decreases |t|
  {
    if t == "" then ""
    else
      var tok := Lead(t, ByWords);
      var rest := t[|tok.text|..];
      if tok.kind != Word then tok.text + TokenLoop(rest)
      else if Upper(tok.text) in CLOCKS && TimestampLen(rest) > 0 then
        "CURRENT_TIMESTAMP" + TokenLoop(rest[TimestampLen(rest)..])
      else WordText(tok.text) + TokenLoop(rest)
  }

  /** What an index statement is rewritten to. */
  function IndexText(index: IndexStatement, tables: Tables): string
    requires index.Index?
  {
    IndexHead(index.unique) + (QuoteIdent(tables.indexName(index.table, index.name)) +
      (" ON " + (index.table + (" " + tables.indexColumns(index.columns)))))
  }

  function IndexHead(unique: bool): string {
    if unique then "CREATE UNIQUE INDEX " else "CREATE INDEX "
  }

  /** translateSQL without its fast path; None when the literal pass slices out of range. */
  function SlowPath(t: string, tables: Tables): Option<string> {
    var unlocked := SetTargets(StripLock(t));
    var rewritten := FunctionCalls(Operators(LikePass(unlocked)), tables);
    var index := ReadIndex(rewritten);
    if index.Index? then Some(IndexText(index, tables))
    else
      var looped := if StripsDdl(rewritten) then tables.ddlLoop(rewritten) else TokenLoop(rewritten);
      if NoBareQuote(looped) then Some(TranslateLiterals(looped)) else None
  }

  // ---------------------------------------------------------------------------------------------
  // The fast path
  // ---------------------------------------------------------------------------------------------

  const TRIGGERS := {"TRUE", "FALSE", "NOW", "CURRENT_TIMESTAMP", "CONCAT", "DATE_FORMAT", "JSON_EXTRACT",
                     "JSON_UNQUOTE", "CAST", "AUTO_INCREMENT", "AUTO_RANDOM", "FOR", "LOCK"}

  /** hasMySQLBackslashEscapedString */
  predicate HasEscapedLiteral(t: string)
    requires NoBareQuote(t)
    decreases |t|
  {
    t != "" &&
    var tok := Lead(t, ByBytes);
    (IsLiteral(tok) && '\\' in Inner(tok.text)) || HasEscapedLiteral(t[|tok.text|..])
  }

  /** needsSQLTranslation */
  predicate Needs(t: string)
    requires NoBareQuote(t)
  {
    || Contains(t, "<=>")
    || HasEscapedLiteral(t)
    || (CanContainLike(t) && HasIdentifier(t, "LIKE"))
    || SetTargets(t) != t
    || StripsDdl(t)
    || HasWord(Lex(t, ByWords), TRIGGERS)
  }

  /** translateSQL */
  function TranslateSql(t: string, tables: Tables): Option<string>
    requires NoBareQuote(t)
  {
    if !Needs(t) then Some(t) else SlowPath(t, tables)
  }

  // ---------------------------------------------------------------------------------------------
  // Without a trigger every pass is the identity
  // ---------------------------------------------------------------------------------------------

  lemma {:induction false} ContainsLater(t: string, n: nat)
    requires n <= |t| && !Contains(t, "<=>")
    ensures !Contains(t[n..], "<=>") && !("<=>" <= t)
  {
    if n > 0 {
      ContainsLater(t[1..], n - 1);
      assert t[1..][n - 1..] == t[n..];
    } else {
      assert t[0..] == t;
    }
  }

  lemma {:induction false} OperatorsIdentity(t: string)
    requires !Contains(t, "<=>")
    ensures Operators(t) == t
    decreases |t|
  {
    if t != "" {
      var n := |Lead(t, ByBytes).text|;
      ContainsLater(t, n);
      hide Contains, Lead;
      OperatorsIdentity(t[n..]);
    }
  }

  /** The first token of a text without the given words is none of them, and neither is a later one. */
  lemma QuietHead(t: string, words: set<string>)
    requires t != "" && !HasWord(Lex(t, ByWords), words)
    ensures var tok := Lead(t, ByWords);
            !(tok.kind == Word && Upper(tok.text) in words) && !HasWord(Lex(t[|tok.text|..], ByWords), words)
  {
    hide Lead;
    var tok := Lead(t, ByWords);
    assert Lex(t, ByWords)[0] == tok && Lex(t, ByWords)[1..] == Lex(t[|tok.text|..], ByWords);
  }

  lemma {:induction false} FewerWords(toks: seq<Token>, few: set<string>, many: set<string>)
    requires few <= many && !HasWord(toks, many)
    ensures !HasWord(toks, few)
  {
    if toks != [] {
      FewerWords(toks[1..], few, many);
    }
  }

  /** The call pass copies every word but five. */
  lemma FunctionCallsCopies(t: string, tables: Tables)
    requires t != ""
    ensures var tok := Lead(t, ByWords);
            !(tok.kind == Word && Upper(tok.text) in CALLS) ==>
              FunctionCalls(t, tables) == tok.text + FunctionCalls(t[|tok.text|..], tables)
  {
    hide Lead, CallLen, CallInner, Upper, CALLS;
  }

  lemma {:induction false} FunctionCallsIdentity(t: string, tables: Tables)
    requires !HasWord(Lex(t, ByWords), CALLS)
    ensures FunctionCalls(t, tables) == t
    decreases |t|
  {
    if t == "" {
      assert FunctionCalls(t, tables) == "";
    } else {
      hide Lead, HasWord, Upper, Lex, FunctionCalls, CALLS;
      QuietHead(t, CALLS);
      FunctionCallsCopies(t, tables);
      FunctionCallsIdentity(t[|Lead(t, ByWords).text|..], tables);
    }
  }

  const REPLACED := {"TRUE", "FALSE", "AUTO_INCREMENT", "NOW", "CURRENT_TIMESTAMP"}

  /** The token loop copies every word but five. */
  lemma TokenLoopCopies(t: string)
    requires t != ""
    ensures var tok := Lead(t, ByWords);
            !(tok.kind == Word && Upper(tok.text) in REPLACED) ==>
              TokenLoop(t) == tok.text + TokenLoop(t[|tok.text|..])
  {
    hide Lead, TimestampLen, Upper;
  }

  lemma {:induction false} TokenLoopIdentity(t: string)
    requires !HasWord(Lex(t, ByWords), REPLACED)
    ensures TokenLoop(t) == t
    decreases |t|
  {
    if t == "" {
      assert TokenLoop(t) == "";
    } else {
      hide Lead, HasWord, Upper, Lex, TokenLoop, REPLACED;
      QuietHead(t, REPLACED);
      TokenLoopCopies(t);
      TokenLoopIdentity(t[|Lead(t, ByWords).text|..]);
    }
  }

  /** With no LIKE in the text no predicate is ever pending. */
  lemma {:induction false} NoLikeNoEscape(toks: seq<Token>, st: LikeState)
    requires !HasWord(toks, {Upper("LIKE")}) && !st.pending
    ensures Escaped(toks, st) == toks
  {
    if toks != [] {
      LikeIsUpper();
      hide IsTerminator, Upper;
      NoLikeNoEscape(toks[1..], Next(toks[0], st));
    }
  }

  lemma LikeIsUpper()
    ensures Upper("LIKE") == "LIKE"
  {
  }

  lemma LikePassIdentity(t: string)
    requires !(CanContainLike(t) && HasIdentifier(t, "LIKE"))
    ensures LikePass(t) == t
  {
    hide CanContainLike;
    if CanContainLike(t) {
      NoLikeNoEscape(Lex(t, ByWords), START);
      LexSpells(t, ByWords);
    }
  }

  // ---------------------------------------------------------------------------------------------
  // Stepping over a parenthesis meets no word that walking through it would miss
  // ---------------------------------------------------------------------------------------------

  /** Length of the text up to the parenthesis that closes `depth` open ones, 0 if there is none. */
  function CloseLen(t: string, depth: nat): nat
    requires depth > 0
  {
    var toks := Lex(t, ByBytes);
    if CloseAt(toks, depth) == 0 then 0 else |Flatten(toks[..CloseAt(toks, depth)])|
  }

  lemma CloseLenStep(t: string, depth: nat)
    requires depth > 0 && t != ""
    ensures var tok := Lead(t, ByBytes);
            var depth', later := DepthAfter(tok, depth), t[|tok.text|..];
            CloseLen(t, depth) ==
            if depth' == 0 then |tok.text|
            else if CloseLen(later, depth') == 0 then 0
            else |tok.text| + CloseLen(later, depth')
  {
    hide Lead;
    var tok, toks := Lead(t, ByBytes), Lex(t, ByBytes);
    var later := Lex(t[|tok.text|..], ByBytes);
    assert toks == [tok] + later;
    hide Lex;
    var depth' := DepthAfter(tok, depth);
    if depth' == 0 {
      assert toks[..1] == [tok] && Flatten([tok]) == tok.text + "";
    } else {
      var k := CloseAt(later, depth');
      assert toks[..k + 1] == [tok] + later[..k];
      assert ([tok] + later[..k])[1..] == later[..k];
    }
    CloseLenPositive(later, depth');
  }

  lemma CloseLenPositive(toks: seq<Token>, depth: nat)
    ensures depth > 0 && CloseAt(toks, depth) > 0 && toks[0].text != "" ==>
              |Flatten(toks[..CloseAt(toks, depth)])| > 0
  {
    if depth > 0 && CloseAt(toks, depth) > 0 {
      assert toks[..CloseAt(toks, depth)][0] == toks[0];
    }
  }

  lemma {:induction false} CloseLenOverWord(x: string, y: string, depth: nat)
    requires depth > 0 && forall c :: c in x ==> IsIdentifierPart(c)
    ensures CloseLen(x + y, depth) == if CloseLen(y, depth) == 0 then 0 else |x| + CloseLen(y, depth)
  {
    if x == "" {
      assert x + y == y;
    } else {
      assert x[0] in x;
      assert (x + y)[1..] == x[1..] + y;
      assert Lead(x + y, ByBytes) == Token(Code, (x + y)[..1]);
      CloseLenStep(x + y, depth);
      hide CloseLen, Lead;
      CloseLenOverWord(x[1..], y, depth);
    }
  }

  /** CloseLenStep for the identifier-wise walk. */
  lemma CloseLenWords(t: string, depth: nat)
    requires depth > 0 && t != ""
    ensures var tok := Lead(t, ByWords);
            var depth', later := DepthAfter(tok, depth), t[|tok.text|..];
            CloseLen(t, depth) ==
            if depth' == 0 then |tok.text|
            else if CloseLen(later, depth') == 0 then 0
            else |tok.text| + CloseLen(later, depth')
  {
    var tok := Lead(t, ByWords);
    if tok.kind == Word {
      LeadWordIsParts(t);
      hide Lead, CloseLen;
      assert t == tok.text + t[|tok.text|..];
      CloseLenOverWord(tok.text, t[|tok.text|..], depth);
    } else {
      assert Lead(t, ByBytes) == tok;
      hide Lead, CloseLen;
      CloseLenStep(t, depth);
    }
  }

  lemma {:induction false} QuietAfterClose(t: string, depth: nat, words: set<string>)
    requires depth > 0 && CloseLen(t, depth) > 0 && !HasWord(Lex(t, ByWords), words)
    ensures CloseLen(t, depth) <= |t| && !HasWord(Lex(t[CloseLen(t, depth)..], ByWords), words)
    decreases |t|
  {
    assert t != "" by {
      NothingCloses(depth);
    }
    hide CloseLen, Lead, HasWord, Lex;
    var tok := Lead(t, ByWords);
    var rest, depth' := t[|tok.text|..], DepthAfter(tok, depth);
    QuietHead(t, words);
    CloseLenWords(t, depth);
    if depth' > 0 {
      QuietAfterClose(rest, depth', words);
      assert rest[CloseLen(rest, depth')..] == t[CloseLen(t, depth)..];
    }
  }

  lemma NothingCloses(depth: nat)
    requires depth > 0
    ensures CloseLen("", depth) == 0
  {
  }

  lemma ParenHead(t: string)
    requires ParenLen(t) > 0
    ensures t != "" && |Lead(t, ByWords).text| == 1
    ensures CloseLen(t[1..], 1) > 0 && ParenLen(t) == 1 + CloseLen(t[1..], 1)
  {
    assert Lead(t, ByWords) == Token(Code, t[..1]);
    var toks := Lex(t[1..], ByBytes);
    LexSpells(t[1..], ByBytes);
    hide Lead, Lex;
    CloseLenPositive(toks, 1);
  }

  lemma QuietAfterParen(t: string, words: set<string>)
    requires ParenLen(t) > 0 && !HasWord(Lex(t, ByWords), words)
    ensures ParenLen(t) <= |t| && !HasWord(Lex(t[ParenLen(t)..], ByWords), words)
  {
    hide HasWord, Lex, ParenLen, CloseLen, Lead;
    ParenHead(t);
    QuietHead(t, words);
    QuietAfterClose(t[1..], 1, words);
    assert t[1..][CloseLen(t[1..], 1)..] == t[ParenLen(t)..];
  }

  lemma {:induction false} NoLock(t: string)
    requires !HasWord(Lex(t, ByWords), {Upper("FOR"), Upper("LOCK")})
    ensures LockAt(t).None?
    decreases |t|
  {
    if t != "" {
      var words := {Upper("FOR"), Upper("LOCK")};
      var tok := Lead(t, ByWords);
      QuietHead(t, words);
      ParenInside(t);
      hide Lead, HasWord, Lex, ParenLen, Keyword, Upper;
      if ParenLen(t) > 0 {
        QuietAfterParen(t, words);
        NoLock(t[ParenLen(t)..]);
      }
      NoLock(t[|tok.text|..]);
    }
  }

  // ---------------------------------------------------------------------------------------------
  // The literal pass on text without backslash escapes
  // ---------------------------------------------------------------------------------------------

  /** Every single-quoted span is closed. */
  predicate LiteralsClosed(t: string)
    decreases |t|
  {
    t == "" ||
    var tok := Lead(t, ByBytes);
    (IsLiteral(tok) ==> ClosedQuote(tok.text)) && LiteralsClosed(t[|tok.text|..])
  }

  /** Decoding and encoding a closed literal without backslashes gives it back. */
  lemma {:induction false} DoubleDecode(x: string)
    requires '\\' !in x && ClosedBody(x + "'", '\'')
    ensures DoubleQuotes(Decode(x)) == x
  {
    if x != "" {
      var t := x + "'";
      DecodeHead(x);
      if x[0] == '\'' {
        assert t[2..] == if |x| > 1 then x[2..] + "'" else "";
        assert |x| > 1 && x[1] == '\'';
        DoubleDecode(x[2..]);
        var rest := Decode(x[2..]);
        assert ("'" + rest)[1..] == rest;
        assert x == "''" + x[2..];
      } else {
        assert t[1..] == x[1..] + "'";
        DoubleDecode(x[1..]);
        var rest := Decode(x[1..]);
        assert (x[..1] + rest)[1..] == rest && (x[..1] + rest)[..1] == x[..1];
      }
    }
  }

  lemma {:induction false} DecodeAddsNoBackslash(x: string)
    requires '\\' !in x
    ensures '\\' !in Decode(x)
  {
    if x != "" {
      DecodeHead(x);
      DecodeAddsNoBackslash(x[HeadLen(x)..]);
    }
  }

  lemma {:induction false} DoubledIsClosed(value: string)
    requires '\\' !in value
    ensures ClosedBody(DoubleQuotes(value) + "'", '\'')
  {
    if value != "" {
      var rest := DoubleQuotes(value[1..]);
      DoubledIsClosed(value[1..]);
      if value[0] == '\'' {
        assert ("''" + rest + "'")[2..] == rest + "'";
      } else {
        assert (value[..1] + rest + "'")[1..] == rest + "'";
      }
    }
  }

  /** A literal without backslashes is written as it stands exactly when it is closed. */
  lemma LiteralUnchanged(text: string)
    requires |text| >= 2 && text[0] == '\'' && '\\' !in Inner(text)
    ensures SqliteLiteral(Decode(Inner(text))) == text <==> ClosedQuote(text)
  {
    var inner := Inner(text);
    var out := SqliteLiteral(Decode(inner));
    if ClosedQuote(text) {
      ClosedEnd(text[1..], '\'');
      assert text[1..] == inner + "'";
      DoubleDecode(inner);
      assert text == "'" + inner + "'";
    }
    if out == text {
      DecodeAddsNoBackslash(inner);
      DoubledIsClosed(Decode(inner));
      assert out[1..] == DoubleQuotes(Decode(inner)) + "'";
    }
  }

  /** A literal that something follows is closed. */
  lemma FollowedIsClosed(tok: Token, rest: string)
    requires Sits(tok, rest, ByBytes) && IsLiteral(tok) && rest != ""
    ensures ClosedQuote(tok.text)
  {
    assert (tok.text + rest)[1..] == tok.text[1..] + rest;
    hide ClosedBody;
    ShortSpanIsClosed(tok.text[1..], rest, '\'');
  }

  lemma {:induction false} LiteralPassIdentity(t: string)
    requires NoBareQuote(t) && !HasEscapedLiteral(t)
    ensures TranslateLiterals(t) == t <==> LiteralsClosed(t)
    decreases |t|
  {
    hide Lead, ClosedQuote, Decode, SqliteLiteral;
    if t != "" {
      var tok := Lead(t, ByBytes);
      var rest := t[|tok.text|..];
      assert t == tok.text + rest;
      LiteralPassIdentity(rest);
      SamePrefix(tok.text, TranslateLiterals(rest), rest);
      if IsLiteral(tok) {
        LiteralUnchanged(tok.text);
        if rest != "" {
          FollowedIsClosed(tok, rest);
        } else {
          assert TranslateLiterals(rest) == "" && TranslateLiterals(t) == Rewrite(tok);
        }
      }
    }
  }

  // ---------------------------------------------------------------------------------------------
  // The fast path equals the slow path
  // ---------------------------------------------------------------------------------------------

  lemma {:induction false} TrimRightKeeps(s: string, k: nat)
    requires k < |s| && !IsBlank(s[k])
    ensures |TrimRight(s)| > k
  {
    if IsBlank(s[|s| - 1]) {
      TrimRightKeeps(s[..|s| - 1], k);
    }
  }

  lemma UpperPrefix(prefix: string, s: string)
    requires Upper(prefix) == prefix && prefix <= s
    ensures HasPrefix(Upper(s), prefix)
  {
    assert Upper(s)[..|prefix|] == Upper(prefix);
  }

  /** The index statements the pipeline writes are recognised as DDL, so no fast-path text is one. */
  lemma IndexTextIsDdl(index: IndexStatement, tables: Tables)
    requires index.Index?
    ensures StripsDdl(IndexText(index, tables))
  {
    var head, name := IndexHead(index.unique), tables.indexName(index.table, index.name);
    var tail := " ON " + (index.table + (" " + tables.indexColumns(index.columns)));
    HeadsAreUpper(index.unique);
    hide Upper, TrimSpace, QuoteIdent, Doubled;
    TrimKeepsHead(head, Doubled(name) + "\"" + tail);
    QuotedAfter(head, name, tail);
  }

  lemma HeadsAreUpper(unique: bool)
    ensures var head := IndexHead(unique); head != "" && head[0] == 'C' && Upper(head) == head
  {
  }

  lemma QuotedAfter(head: string, name: string, tail: string)
    ensures head + (QuoteIdent(name) + tail) == head + "\"" + (Doubled(name) + "\"" + tail)
  {
    hide Doubled;
    var quote, x := "\"", Doubled(name);
    assert QuoteIdent(name) + tail == quote + ((x + quote) + tail);
  }

  lemma TrimKeepsHead(head: string, tail: string)
    requires head != "" && head[0] == 'C' && Upper(head) == head
    ensures HasPrefix(Upper(TrimSpace(head + "\"" + tail)), head)
  {
    hide Upper, TrimRight;
    var t := head + "\"" + tail;
    assert TrimLeft(t) == t;
    TrimRightKeeps(t, |head|);
    UpperPrefix(head, TrimRight(t));
  }

  lemma TriggerWords()
    ensures {Upper("FOR"), Upper("LOCK")} <= TRIGGERS
    ensures CALLS <= TRIGGERS && REPLACED <= TRIGGERS
  {
    assert Upper("FOR") == "FOR" && Upper("LOCK") == "LOCK";
  }

  /** Up to the index statements and the literal pass, nothing changes. */
  lemma QuietRewrites(t: string, tables: Tables)
    requires NoBareQuote(t) && !Needs(t)
    ensures FunctionCalls(Operators(LikePass(SetTargets(StripLock(t)))), tables) == t
    ensures TokenLoop(t) == t
  {
    hide Contains, HasEscapedLiteral, CanContainLike, HasWord, Lex, Upper, SetTargets, StripsDdl, LikePass, Operators,
         FunctionCalls, TokenLoop, LockAt, HasIdentifier, TRIGGERS, REPLACED;
    TriggerWords();
    FewerWords(Lex(t, ByWords), {Upper("FOR"), Upper("LOCK")}, TRIGGERS);
    FewerWords(Lex(t, ByWords), CALLS, TRIGGERS);
    FewerWords(Lex(t, ByWords), REPLACED, TRIGGERS);
    NoLock(t);
    LikePassIdentity(t);
    OperatorsIdentity(t);
    FunctionCallsIdentity(t, tables);
    TokenLoopIdentity(t);
  }

  /**
   * When needsSQLTranslation answers no, the whole pipeline would return the text unchanged exactly
   * when its single-quoted spans are closed and it does not read as an index statement (one that
   * the one-blank DDL prefixes of stripsMySQLDDLOptions fail to recognise).
   */
  lemma FastPathExact(t: string, tables: Tables)
    requires NoBareQuote(t) && !Needs(t)
    ensures SlowPath(t, tables) == Some(t) <==> LiteralsClosed(t) && ReadIndex(t).NoIndex?
  {
    QuietRewrites(t, tables);
    LiteralPassIdentity(t);
    var index := ReadIndex(t);
    if index.Index? {
      IndexTextIsDdl(index, tables);
    }
    hide Contains, HasEscapedLiteral, CanContainLike, HasWord, Lex, SetTargets, StripsDdl, LikePass, Operators,
         FunctionCalls, TokenLoop, LockAt, HasIdentifier, IndexText, ReadIndex, LiteralsClosed, NoBareQuote;
  }

  /** For closed literals and a first word other than CREATE and ALTER, skipping the pipeline changes nothing. */
  lemma FastPathSound(t: string, tables: Tables)
    requires NoBareQuote(t) && LiteralsClosed(t)
    requires Keyword(t, "CREATE").None? && Keyword(t, "ALTER").None?
    ensures TranslateSql(t, tables) == SlowPath(t, tables)
  {
    OtherFirstWord(t);
    if !Needs(t) {
      FastPathExact(t, tables);
    }
    hide Needs, SlowPath, Keyword, LiteralsClosed, NoBareQuote, ReadIndex;
  }

  // ---------------------------------------------------------------------------------------------
  // An index statement the fast path lets through
  // ---------------------------------------------------------------------------------------------

  const COLUMNS_TEXT := "ON" + (" " + ("t" + ("(" + ("a" + ")"))))

  /** A CREATE INDEX statement with a tab between its first two words. */
  const TABBED := "CREATE" + ("\t" + ("INDEX" + (" " + ("i" + (" " + COLUMNS_TEXT)))))

  lemma AddWord(word: string, toks: seq<Token>)
    requires word != "" && IsIdentifierStart(word[0]) && forall c :: c in word ==> IsIdentifierPart(c)
    requires Settled(toks, ByWords) && toks != [] && Flatten(toks) != "" && !IsIdentifierPart(Flatten(toks)[0])
    requires Upper(word) !in TRIGGERS && !HasWord(toks, TRIGGERS)
    ensures Settled([Token(Word, word)] + toks, ByWords) && !HasWord([Token(Word, word)] + toks, TRIGGERS)
    ensures Flatten([Token(Word, word)] + toks) == word + Flatten(toks)
  {
    hide Upper, TRIGGERS;
    WordSits(word, Flatten(toks));
    SettledCons(Token(Word, word), toks);
    assert ([Token(Word, word)] + toks)[1..] == toks;
  }

  lemma AddCode(c: char, toks: seq<Token>)
    requires !IsQuote(c) && !IsIdentifierStart(c) && c != '#' && c != '-' && c != '/'
    requires Settled(toks, ByWords) && !HasWord(toks, TRIGGERS)
    ensures Settled([Token(Code, [c])] + toks, ByWords) && !HasWord([Token(Code, [c])] + toks, TRIGGERS)
    ensures Flatten([Token(Code, [c])] + toks) == [c] + Flatten(toks)
  {
    hide Upper, TRIGGERS;
    CodeSits(c, Flatten(toks));
    SettledCons(Token(Code, [c]), toks);
    assert ([Token(Code, [c])] + toks)[1..] == toks;
  }

  lemma ShortWords()
    ensures Upper("a") !in TRIGGERS && Upper("t") !in TRIGGERS && Upper("i") !in TRIGGERS && Upper("ON") !in TRIGGERS
  {
    assert |Upper("a")| == 1 && |Upper("t")| == 1 && |Upper("i")| == 1 && |Upper("ON")| == 2;
    hide Upper;
  }

  lemma LongWords()
    ensures Upper("INDEX") !in TRIGGERS && Upper("CREATE") !in TRIGGERS
  {
    assert Upper("INDEX")[0] == 'I' && |Upper("INDEX")| == 5;
    assert Upper("CREATE")[1] == 'R' && |Upper("CREATE")| == 6;
    hide Upper;
  }

  lemma ColumnsQuiet() returns (toks: seq<Token>)
    ensures Settled(toks, ByWords) && !HasWord(toks, TRIGGERS) && Flatten(toks) == COLUMNS_TEXT
  {
    ShortWords();
    NoTokens();
    hide Settled, HasWord, Flatten, Upper, TRIGGERS;
    AddCode(')', []);
    var t0 := [Token(Code, ")")] + [];
    AddWord("a", t0);
    var t1 := [Token(Word, "a")] + t0;
    AddCode('(', t1);
    var t2 := [Token(Code, "(")] + t1;
    AddWord("t", t2);
    var t3 := [Token(Word, "t")] + t2;
    AddCode(' ', t3);
    var t4 := [Token(Code, " ")] + t3;
    AddWord("ON", t4);
    toks := [Token(Word, "ON")] + t4;
  }

  lemma TabbedQuiet()
    ensures !HasWord(Lex(TABBED, ByWords), TRIGGERS)
    ensures Lex(TABBED, ByWords) != [] && Lex(TABBED, ByWords)[0] == Token(Word, "CREATE")
  {
    ShortWords();
    LongWords();
    hide Settled, HasWord, Flatten, Upper, TRIGGERS, COLUMNS_TEXT;
    var t5 := ColumnsQuiet();
    AddCode(' ', t5);
    var t6 := [Token(Code, " ")] + t5;
    AddWord("i", t6);
    var t7 := [Token(Word, "i")] + t6;
    AddCode(' ', t7);
    var t8 := [Token(Code, " ")] + t7;
    AddWord("INDEX", t8);
    var t9 := [Token(Word, "INDEX")] + t8;
    AddCode('\t', t9);
    var t10 := [Token(Code, "\t")] + t9;
    AddWord("CREATE", t10);
    Relex([Token(Word, "CREATE")] + t10, ByWords);
  }

  lemma NoTokens()
    ensures Settled([], ByWords) && !HasWord([], TRIGGERS) && Flatten([]) == ""
  {
  }

  lemma {:induction false} NoAngleNoOperator(t: string)
    requires '<' !in t
    ensures !Contains(t, "<=>")
  {
    if t != "" {
      assert t[0] in t && "<=>"[0] == '<';
      NoAngleNoOperator(t[1..]);
    }
  }

  lemma {:induction false} NoQuoteNoLiteral(t: string)
    requires '\'' !in t
    ensures NoBareQuote(t) && LiteralsClosed(t) && !HasEscapedLiteral(t)
    decreases |t|
  {
    if t != "" {
      assert t[0] in t;
      NoQuoteNoLiteral(t[|Lead(t, ByBytes).text|..]);
    }
  }

  lemma FieldsHead(u: string)
    requires u != "" && !IsBlank(u[0])
    ensures Join(Fields(u), " ") != "" && Join(Fields(u), " ")[0] == u[0]
  {
    hide FieldLen;
    assert TrimLeft(u) == u;
    assert Fields(u) != [] && Fields(u)[0] == u[..FieldLen(u)];
  }

  lemma OtherHead(upper: string)
    requires upper == "" || upper[0] == 'C'
    ensures !HasPrefix(upper, "SELECT ") && !HasPrefix(upper, "WITH ") && !HasPrefix(upper, "UPDATE ")
    ensures !HasPrefix(upper, "DELETE ") && !HasPrefix(upper, "INSERT ")
  {
  }

  /** Normalising keeps the first byte, so a text starting otherwise opens no LIKE statement. */
  lemma NoLikeStatement(t: string)
    requires t != "" && t[0] == 'C'
    ensures !CanContainLike(t)
  {
    NormalizedHead(t);
    hide NormalizeSql;
    var upper := Upper(NormalizeSql(t));
    assert upper == "" || upper[0] == UpperChar('C');
    OtherHead(upper);
  }

  lemma NormalizedHead(t: string)
    requires t != "" && !IsBlank(t[0])
    ensures NormalizeSql(t) == "" || NormalizeSql(t)[0] == t[0]
  {
    assert TrimLeft(t) == t;
    hide TrimRight, Fields, Join;
    var u := TrimSemicolon(TrimRight(t));
    if u != "" {
      FieldsHead(u);
    } else {
      NoFields();
    }
  }

  lemma NoFields()
    ensures Join(Fields(""), " ") == ""
  {
  }

  lemma LexHead(t: string, tok: Token)
    requires Lex(t, ByWords) != [] && Lex(t, ByWords)[0] == tok && tok.kind == Word
    ensures t != "" && SpaceLen(t) == 0 && IdentifierLen(t) > 0 && tok.text == t[..IdentifierLen(t)]
  {
    hide QuoteTail, CommentLen, PartTail;
  }

  lemma KeywordAt(t: string, other: string)
    requires SkipSpaces(t) == t && IdentifierLen(t) > 0
    ensures Keyword(t, other).Some? <==> Upper(t[..IdentifierLen(t)]) == Upper(other)
  {
    hide Upper, IdentifierLen, SkipSpaces;
  }

  lemma SkipsNothing(t: string)
    requires SpaceLen(t) == 0
    ensures SkipSpaces(t) == t
  {
    hide SpaceLen;
    assert t[0..] == t;
  }

  lemma FirstWord(t: string, word: string, other: string)
    requires Lex(t, ByWords) != [] && Lex(t, ByWords)[0] == Token(Word, word)
    ensures Keyword(t, other).Some? <==> Upper(other) == Upper(word)
  {
    hide Upper, Lex, IdentifierLen, SpaceLen, SkipSpaces, Keyword;
    LexHead(t, Token(Word, word));
    SkipsNothing(t);
    KeywordAt(t, other);
  }

  /**
   * CREATE, a tab and INDEX: needsSQLTranslation says no, but the pipeline would have rewritten the
   * statement, so on this text the fast path changes the answer.
   */
  lemma FastPathMissesTab(tables: Tables)
    ensures NoBareQuote(TABBED) && !Needs(TABBED)
    ensures TranslateSql(TABBED, tables) != SlowPath(TABBED, tables)
  {
    TabbedNeedsNothing();
    TabbedIsIndex();
    hide NoBareQuote, LiteralsClosed, Needs, TABBED, SlowPath, ReadIndex;
    FastPathExact(TABBED, tables);
  }

  /** A word is read up to the first byte that is no part of it, blanks before it skipped. */
  lemma WordAhead(c: char, word: string, rest: string, want: string)
    requires IsSpace(c) && word != "" && IsIdentifierStart(word[0]) && forall d :: d in word ==> IsIdentifierPart(d)
    requires rest == "" || !IsIdentifierPart(rest[0])
    ensures Keyword(word + rest, want) == Keyword([c] + (word + rest), want) == if EqualFold(word, want) then Some(rest) else None
    ensures NameToken([c] + (word + rest)) == Parsed(word, rest)
  {
    hide Upper;
    var u := word + rest;
    var t := [c] + u;
    assert t[1..] == u && SpaceLen(u) == 0;
    assert SkipSpaces(t) == u && SkipSpaces(u) == u;
    hide SkipSpaces, SpaceLen, Keyword, NameToken;
    WordRead(word, rest);
    ReadAt(t, u, word, rest, want);
    ReadAt(u, u, word, rest, want);
  }

  lemma ReadAt(t: string, u: string, word: string, rest: string, want: string)
    requires SkipSpaces(t) == u && u != "" && !IsQuote(u[0]) && word != ""
    requires IdentifierLen(u) == |word| && u[..|word|] == word && u[|word|..] == rest
    ensures Keyword(t, want) == if EqualFold(word, want) then Some(rest) else None
    ensures NameToken(t) == Parsed(word, rest)
  {
    hide Upper, SkipSpaces, IdentifierLen;
  }

  lemma WordRead(word: string, rest: string)
    requires word != "" && IsIdentifierStart(word[0]) && forall d :: d in word ==> IsIdentifierPart(d)
    requires rest == "" || !IsIdentifierPart(rest[0])
    ensures var u := word + rest;
            IdentifierLen(u) == |word| && u[..|word|] == word && u[|word|..] == rest && !IsQuote(u[0])
  {
    var u := word + rest;
    assert u[1..] == word[1..] + rest;
    PartsEnd(word[1..], rest);
  }

  lemma OtherLength(a: string, b: string)
    requires |a| != |b|
    ensures !EqualFold(a, b)
  {
  }

  lemma PlainWord(c: char)
    requires !IsBlank(c) && c != ';'
    ensures UnquoteWord([c]) == [c]
  {
    assert TrimLeft([c]) == [c] && TrimRight([c]) == [c];
  }

  /** `(a)` is a whole parenthesis. */
  lemma SmallParen()
    ensures ParenLen("(a)") == 3
  {
    var t := "(a)";
    assert t[1..] == "a)" && t[1..][1..] == ")" && t[1..][1..][1..] == "";
    var a, close := Token(Code, "a"), Token(Code, ")");
    assert "a)"[..1] == "a" && ")"[..1] == ")";
    assert Lead("a)", ByBytes) == a && Lead(")", ByBytes) == close;
    assert Lex(")", ByBytes) == [close];
    assert Lex("a)", ByBytes) == [a, close];
    assert CloseAt([close], 1) == 1;
    assert [a, close][1..] == [close];
    assert CloseAt([a, close], 1) == 2;
    assert Flatten([close]) == ")" && Flatten([a, close]) == "a)";
    assert [a, close][..2] == [a, close];
  }

  lemma NothingMore()
    ensures AfterIndexOptions("") == "" && Ends("")
  {
    assert SkipSpaces("") == "";
  }

  lemma SmallColumns()
    ensures WithColumns(false, "t", "i", "(a)") == Index(false, "t", "i", "(a)")
  {
    hide WithColumns, ParenLen, UnquoteWord, AfterIndexOptions, Ends, IsSpace;
    SmallParen();
    ShortName();
    NothingMore();
    ColumnsAlone("t", "i", "(a)");
  }

  lemma ShortName()
    ensures UnquoteWord("i") == "i" && !IsSpace("(a)"[0])
  {
    PlainWord('i');
    assert ['i'] == "i";
  }

  lemma ColumnsAlone(table: string, name: string, u: string)
    requires ParenLen(u) == |u| && u != "" && !IsSpace(u[0]) && UnquoteWord(name) == name
    requires AfterIndexOptions("") == "" && Ends("")
    ensures WithColumns(false, table, name, u) == Index(false, table, name, u)
  {
    hide ParenLen, UnquoteWord, AfterIndexOptions, Ends;
    assert SkipSpaces(u) == u && u[..|u|] == u && u[|u|..] == "";
  }

  lemma NoDot(name: string, rest: string)
    requires rest != "" && !IsSpace(rest[0]) && rest[0] != '.'
    ensures QualifiedTail(name, rest) == Parsed(UnquoteWord(name), rest)
  {
    hide UnquoteWord, NameToken;
    assert SkipSpaces(rest) == rest;
  }

  lemma SmallName()
    ensures NameToken(" " + ("t" + "(a)")) == Parsed("t", "(a)")
  {
    hide NameToken, Keyword;
    WordAhead(' ', "t", "(a)", "t");
  }

  lemma SmallTail()
    ensures QualifiedTail("t", "(a)") == Parsed("t", "(a)")
  {
    hide UnquoteWord, QualifiedTail, TrimSpace, SkipSpaces, NameToken;
    var t := "t";
    PlainWord(t[0]);
    assert t == [t[0]];
    NoDot(t, "(a)");
  }

  lemma SmallTable()
    ensures QualifiedName(" " + ("t" + "(a)")) == Parsed("t", "(a)")
  {
    hide NameToken, QualifiedTail, QualifiedName;
    SmallName();
    SmallTail();
    OnePart(" " + ("t" + "(a)"), "t", "(a)");
  }

  lemma OnePart(t: string, name: string, rest: string)
    requires NameToken(t) == Parsed(name, rest)
    ensures QualifiedName(t) == QualifiedTail(name, rest)
  {
    hide NameToken, QualifiedTail;
  }

  /** The steps by which CREATE INDEX without options is read. */
  lemma CreateSteps(t: string, index: string, name: Parsed, on: string, table: Parsed)
    requires Keyword(t, "CREATE").Some? && Keyword(Keyword(t, "CREATE").value, "UNIQUE").None?
    requires Keyword(Keyword(t, "CREATE").value, "INDEX") == Some(index)
    requires NameToken(index) == name && name.Parsed? && Keyword(name.rest, "USING").None?
    requires Keyword(name.rest, "ON") == Some(on) && QualifiedName(on) == table && table.Parsed?
    ensures ReadCreateIndex(t) == WithColumns(false, table.text, name.text, table.rest)
  {
    hide Keyword, NameToken, QualifiedName, WithColumns;
  }

  lemma SmallIndexRead()
    ensures ReadCreateIndex(TABBED) == Index(false, "t", "i", "(a)")
  {
    hide TABBED, COLUMNS_TEXT, SpelledIndex, QualifiedName, WithColumns, ReadCreateIndex, IsIdentifierPart;
    SmallTable();
    SmallColumns();
    TabbedSpelled();
    assert !IsIdentifierPart(' ') by { NoPart(); }
    IndexWordsRead(" " + ("t" + "(a)"), Parsed("t", "(a)"));
  }

  function SpelledIndex(columns: string): string {
    "CREATE" + ("\t" + ("INDEX" + (" " + ("i" + (" " + ("ON" + columns))))))
  }

  lemma NoPart()
    ensures !IsIdentifierPart(' ')
  {
  }

  lemma TabbedSpelled()
    ensures TABBED == SpelledIndex(" " + ("t" + "(a)"))
  {
    assert "(" + ("a" + ")") == "(a)";
  }

  lemma IndexWordsRead(columns: string, table: Parsed)
    requires columns != "" && !IsIdentifierPart(columns[0]) && QualifiedName(columns) == table && table.Parsed?
    ensures ReadCreateIndex(SpelledIndex(columns)) == WithColumns(false, table.text, "i", table.rest)
  {
    hide Keyword, NameToken, EqualFold, QualifiedName, WithColumns;
    var on := " " + ("ON" + columns);
    var name := " " + ("i" + on);
    var index := "\t" + ("INDEX" + name);
    WordAhead(' ', "CREATE", index, "CREATE");
    WordAhead('\t', "INDEX", name, "UNIQUE");
    WordAhead('\t', "INDEX", name, "INDEX");
    WordAhead(' ', "i", on, "i");
    WordAhead(' ', "ON", columns, "USING");
    WordAhead(' ', "ON", columns, "ON");
    SameWords();
    CreateSteps("CREATE" + index, name, Parsed("i", on), columns, table);
  }

  lemma SameWords()
    ensures EqualFold("CREATE", "CREATE") && EqualFold("INDEX", "INDEX") && EqualFold("ON", "ON")
    ensures !EqualFold("INDEX", "UNIQUE") && !EqualFold("ON", "USING")
  {
    OtherLength("INDEX", "UNIQUE");
    OtherLength("ON", "USING");
    hide Upper;
  }

  lemma TabbedIsIndex()
    ensures ReadIndex(TABBED) == Index(false, "t", "i", "(a)")
  {
    TabbedQuiet();
    FirstWord(TABBED, "CREATE", "ALTER");
    assert Upper("CREATE")[0] == 'C' && Upper("ALTER")[0] == 'A';
    hide Lex, Keyword, Upper;
    SmallIndexRead();
    hide TABBED, COLUMNS_TEXT;
  }

  lemma TabbedNeedsNothing()
    ensures NoBareQuote(TABBED) && !Needs(TABBED)
  {
    TabbedQuiet();
    TabbedBytes();
    NotDdl(TABBED);
    FirstWord(TABBED, "CREATE", "UPDATE");
    assert Upper("UPDATE")[0] == 'U' && Upper("CREATE")[0] == 'C';
    hide Lex, NoBareQuote, LiteralsClosed, HasEscapedLiteral, Contains, CanContainLike, HasWord, Keyword, StripsDdl,
         Upper, TABBED;
    NoQuoteNoLiteral(TABBED);
    NoAngleNoOperator(TABBED);
    NoLikeStatement(TABBED);
  }

  lemma TabbedBytes()
    ensures '\'' !in TABBED && '<' !in TABBED
    ensures |TABBED| > 6 && TABBED[0] == 'C' && TABBED[6] == '\t'
  {
  }

  lemma NotPrefix(upper: string, prefix: string)
    requires upper == "" || upper[0] == 'C'
    requires |upper| > 6 ==> upper[6] == '\t'
    requires |prefix| > 6 && (prefix[0] != 'C' || prefix[6] == ' ')
    ensures !HasPrefix(upper, prefix)
  {
  }

  /** The first and the seventh byte survive trimming and upper-casing. */
  lemma TrimmedBytes(t: string)
    requires |t| > 6 && t[0] == 'C' && t[6] == '\t'
    ensures var upper := Upper(TrimSpace(t));
            (upper == "" || upper[0] == 'C') && (|upper| > 6 ==> upper[6] == '\t')
  {
    TrimmedPrefix(t);
    var r := TrimSpace(t);
    hide TrimSpace;
    UpperBytes(r);
  }

  lemma TrimmedPrefix(t: string)
    requires t != "" && !IsBlank(t[0])
    ensures TrimSpace(t) <= t
  {
    assert TrimLeft(t) == t;
    hide TrimRight;
  }

  lemma UpperBytes(r: string)
    ensures r != "" ==> Upper(r)[0] == UpperChar(r[0])
    ensures |r| > 6 ==> Upper(r)[6] == UpperChar(r[6])
  {
  }

  lemma NotDdl(t: string)
    requires |t| > 6 && t[0] == 'C' && t[6] == '\t'
    ensures !StripsDdl(t)
  {
    hide TrimSpace, Upper, HasPrefix;
    TrimmedBytes(t);
    var upper := Upper(TrimSpace(t));
    NotPrefix(upper, "CREATE TABLE ");
    NotPrefix(upper, "CREATE TEMPORARY TABLE ");
    NotPrefix(upper, "CREATE TEMP TABLE ");
    NotPrefix(upper, "ALTER TABLE ");
    NotPrefix(upper, "CREATE INDEX ");
    NotPrefix(upper, "CREATE UNIQUE INDEX ");
  }
}
