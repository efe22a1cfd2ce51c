/**
 * Small parsers over SQL text: keywords, name tokens and top-level assignments
 * (pkg/mysqlmock/sqlscanner.go, topLevelEqualIndex of pkg/mysqlmock/protocol.go).
 *
 * A parser position is modelled by the text that follows it.
 */
module SqlParsing {
  import opened Options
  import opened Text
  import opened SqlScanner
  import opened SqlSplitting

  datatype Parsed = Failed | Parsed(text: string, rest: string)

  function SkipSpaces(t: string): (r: string)
    ensures |r| <= |t| && r == t[|t| - |r|..]
  {
    t[SpaceLen(t)..]
  }

  /** consumeKeyword: the text after the keyword, if it is the next word. */
  function Keyword(t: string, keyword: string): (r: Option<string>)
    ensures r.Some? ==> |r.value| < |t| && r.value == t[|t| - |r.value|..]
  {
    var u := SkipSpaces(t);
    var n := IdentifierLen(u);
    if n > 0 && EqualFold(u[..n], keyword) then Some(u[n..]) else None
  }

  /** readSQLNameToken: a back-quoted or double-quoted name, or an identifier. */
  function NameToken(t: string): (r: Parsed)
    ensures r.Parsed? ==> |r.rest| < |t| && r.rest == t[|t| - |r.rest|..] && r.text != ""
  {
    var u := SkipSpaces(t);
    if u == "" then Failed
    else if u[0] == '`' || u[0] == '"' then
      var n := 1 + QuoteTail(u[1..], u[0]);
      Parsed(u[..n], u[n..])
    else
      var n := IdentifierLen(u);
      if n > 0 then Parsed(u[..n], u[n..]) else Failed
  }

  /** unquoteSQLWord */
  function UnquoteWord(value: string): string {
    var v := TrimSemicolon(TrimSpace(value));
    if |v| >= 2 && IsQuote(v[0]) && v[|v| - 1] == v[0] then v[1..|v| - 1] else v
  }

  /** A name in quotes of any kind is what stands between them. */
  lemma UnquotedName(name: string, q: char)
    requires IsQuote(q)
    ensures UnquoteWord([q] + name + [q]) == name
  {
    var v := [q] + name + [q];
    assert TrimLeft(v) == v && TrimRight(v) == v;
    assert v[1..|v| - 1] == name;
  }

  /** A bare name stands for itself. */
  lemma BareName(name: string)
    requires name != "" && IsIdentifierStart(name[0]) && forall c :: c in name ==> IsIdentifierPart(c)
    ensures UnquoteWord(name) == name
  {
    var last := name[|name| - 1];
    PartsPlain(last);
    PartsPlain(name[0]);
    assert last in name && name[0] in name;
    hide IsIdentifierPart, IsIdentifierStart, IsBlank, IsQuote;
    assert TrimLeft(name) == name && TrimRight(name) == name;
  }

  lemma PartsPlain(c: char)
    ensures IsIdentifierPart(c) ==> !IsBlank(c) && !IsQuote(c) && c != ';'
  {
  }

  /** readSQLQualifiedName: the last part of a dotted name, unquoted. */
  function QualifiedName(t: string): (r: Parsed) {
    var first := NameToken(t);
    if first.Failed? then Failed else QualifiedTail(first.text, first.rest)
  }

  function QualifiedTail(name: string, t: string): (r: Parsed)
    decreases |t|
  {
    var u := SkipSpaces(t);
    if u == "" || u[0] != '.' then Parsed(UnquoteWord(name), t)
    else
      var part := NameToken(u[1..]);
      if part.Failed? then Failed else QualifiedTail(part.text, part.rest)
  }

  function Doubled(name: string): string {
    if name == "" then "" else (if name[0] == '"' then "\"\"" else name[..1]) + Doubled(name[1..])
  }

  /** quoteIdent */
  function QuoteIdent(name: string): string {
    "\"" + Doubled(name) + "\""
  }

  /** consumeEmptyCall and consumeOptionalNumericCall: length of `()` or `(digits)`, 0 if `t` goes on otherwise. */
  function TimestampLen(t: string): (n: nat)
    ensures n <= |t|
  {
    var open := SpaceLen(t);
    if open == |t| || t[open] != '(' then 0
    else
      var digits := open + 1 + SpaceLen(t[open + 1..]);
      var after := digits + DigitsLen(t[digits..]);
      var close := after + SpaceLen(t[after..]);
      if close < |t| && t[close] == ')' then close + 1 else 0
  }

  function DigitsLen(t: string): (n: nat)
    ensures n <= |t|
  {
    if t == "" || !('0' <= t[0] <= '9') then 0 else 1 + DigitsLen(t[1..])
  }

  /** topLevelEqualIndex: length of the text before the first top-level `=`, if there is one. */
  function EqualIndex(t: string): (r: Option<nat>) {
    var pieces := Pieces(Lex(t, ByBytes), 0, '=');
    if |pieces| == 1 then None else Some(|Flatten(pieces[0])|)
  }

  lemma EqualIndexInside(t: string)
    ensures EqualIndex(t).Some? ==> EqualIndex(t).value <= |t|
  {
    LexSpells(t, ByBytes);
    PieceLength(Lex(t, ByBytes), 0, '=', 0);
  }

  /** The words a token list contains, in upper case. */
  predicate HasWord(toks: seq<Token>, words: set<string>) {
    toks != [] && ((toks[0].kind == Word && Upper(toks[0].text) in words) || HasWord(toks[1..], words))
  }

  /** containsSQLIdentifier and hasSQLIdentifier */
  predicate HasIdentifier(t: string, name: string) {
    HasWord(Lex(t, ByWords), {Upper(name)})
  }

  method HasSqlIdentifier(s: string, want: string) returns (found: bool)
    ensures found == HasIdentifier(s, want)
  {
    hide Upper, QuoteTail, CommentLen;
    var i := 0;
    assert s[0..] == s;
    while i < |s|
      invariant 0 <= i <= |s|
      invariant HasIdentifier(s, want) == HasWord(Lex(s[i..], ByWords), {Upper(want)})
    {
      var end, word := WordAt(s, i);
      LexFrom(s, i, end, ByWords);
      if word && EqualFold(s[i..end], want) {
        return true;
      }
      i := end;
    }
    assert s[i..] == "";
    return false;
  }

  /** The next move of an identifier-wise loop; `word` tells whether it is over an identifier. */
  method WordAt(s: string, i: nat) returns (end: nat, word: bool)
    requires i < |s|
    ensures i < end <= |s|
    ensures Lead(s[i..], ByWords).text == s[i..end]
    ensures word <==> Lead(s[i..], ByWords).kind == Word
    ensures Lead(s[i..], ByWords).kind == Code ==> end == i + 1
    ensures Lead(s[i..], ByWords).kind in {Word, Code} ==> Lead(s[i..], ByBytes) == Token(Code, [s[i]])
    ensures Lead(s[i..], ByWords).kind in {Quoted, Comment} ==> Lead(s[i..], ByBytes) == Lead(s[i..], ByWords)
  {
    hide QuoteTail, CommentLen;
    var ok;
    end, ok := SpanAt(s, i);
    word := false;
    if !ok {
      LeadWord(s, i);
      var _, wordEnd, isWord := ReadSqlIdentifier(s, i);
      if isWord {
        end, word := wordEnd, true;
      }
    }
  }
}
