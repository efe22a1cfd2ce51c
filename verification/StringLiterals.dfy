/**
 * String literals on their way from MySQL to SQLite (pkg/mysqlmock/mysql_syntax_compat.go):
 * backslash escapes are decoded and the value is written again with doubled quotes only.
 */
module StringLiterals {
  import opened Text
  import opened SqlScanner

  // ---------------------------------------------------------------------------------------------
  // The rewriting pass
  // ---------------------------------------------------------------------------------------------

  /** What the byte after a backslash stands for. */
  function Unescape(c: char): string {
    match c
    case '0' => [0 as char]
    case 'b' => [8 as char]
    case 'n' => "\n"
    case 'r' => "\r"
    case 't' => "\t"
    case 'Z' => [26 as char]
    case '%' => "\\%"
    case '_' => "\\_"
    case _ => [c]
  }

  /** A doubled quote, or a backslash and the byte it escapes. */
  predicate IsPair(t: string) {
    |t| > 1 && (t[0] == '\\' || (t[0] == '\'' && t[1] == '\''))
  }

  /** What the first byte, or pair of bytes, stands for. */
  function HeadValue(t: string): string
    requires t != ""
  {
    if !IsPair(t) then t[..1] else if t[0] == '\'' then "'" else Unescape(t[1])
  }

  function HeadLen(t: string): nat {
    if IsPair(t) then 2 else 1
  }

  /** decodeMySQLStringLiteral */
  function Decode(inner: string): string {
    if inner == "" then "" else HeadValue(inner) + Decode(inner[HeadLen(inner)..])
  }

  function DoubleQuotes(value: string): string {
    if value == "" then ""
    else (if value[0] == '\'' then "''" else value[..1]) + DoubleQuotes(value[1..])
  }

  /** sqlStringLiteral */
  function SqliteLiteral(value: string): string {
    "'" + DoubleQuotes(value) + "'"
  }

  predicate IsLiteral(tok: Token) {
    tok.kind == Quoted && tok.text != "" && tok.text[0] == '\''
  }

  /** The bytes between the quotes; the source slices out of range when there is only one byte. */
  function Inner(text: string): string
    requires |text| >= 2
  {
    text[1..|text| - 1]
  }

  /** No single quote opens at the very last byte, where the source's slice would panic. */
  predicate NoBareQuote(t: string)
    decreases |t|
  {
    t == "" ||
    var tok := Lead(t, ByBytes);
    (IsLiteral(tok) ==> |tok.text| >= 2) && NoBareQuote(t[|tok.text|..])
  }

  function Rewrite(tok: Token): string
    requires IsLiteral(tok) ==> |tok.text| >= 2
  {
    if IsLiteral(tok) then SqliteLiteral(Decode(Inner(tok.text))) else tok.text
  }

  /** translateMySQLStringLiterals */
  function TranslateLiterals(t: string): string
    requires NoBareQuote(t)
    decreases |t|
  {
    if t == "" then ""
    else
      var tok := Lead(t, ByBytes);
      Rewrite(tok) + TranslateLiterals(t[|tok.text|..])
  }

  lemma DecodeHead(t: string)
    requires t != ""
    ensures Decode(t) == HeadValue(t) + Decode(t[HeadLen(t)..])
  {
    hide Unescape;
  }

  lemma SamePrefix<T>(a: seq<T>, u: seq<T>, v: seq<T>)
    ensures a + u == a + v <==> u == v
  {
    assert (a + u)[|a|..] == u && (a + v)[|a|..] == v;
  }

  // ---------------------------------------------------------------------------------------------
  // The loops
  // ---------------------------------------------------------------------------------------------

  method DecodeMySqlStringLiteral(inner: string) returns (out: string)
    ensures out == Decode(inner)
  {
    hide Decode, Unescape;
    out := "";
    var i := 0;
    assert inner[0..] == inner;
    while i < |inner|
      invariant 0 <= i <= |inner|
      invariant Decode(inner) == out + Decode(inner[i..])
    {
      DecodeStep(inner, i);
      if inner[i] == '\'' && i + 1 < |inner| && inner[i + 1] == '\'' {
        out := out + "'";
        i := i + 2;
        continue;
      }
      if inner[i] != '\\' || i + 1 >= |inner| {
        out := out + [inner[i]];
        i := i + 1;
        continue;
      }
      out := out + Unescape(inner[i + 1]);
      i := i + 2;
    }
    assert inner[i..] == "";
    DecodeNothing();
  }

  lemma DecodeNothing()
    ensures Decode("") == ""
  {
  }

  lemma DecodeStep(s: string, i: nat)
    requires i < |s|
    ensures i + HeadLen(s[i..]) <= |s|
    ensures Decode(s[i..]) == HeadValue(s[i..]) + Decode(s[i + HeadLen(s[i..])..])
    ensures IsPair(s[i..]) <==> i + 1 < |s| && (s[i] == '\\' || (s[i] == '\'' && s[i + 1] == '\''))
    ensures HeadValue(s[i..]) == if !IsPair(s[i..]) then [s[i]] else if s[i] == '\'' then "'" else Unescape(s[i + 1])
  {
    hide Unescape;
    assert s[i..][..1] == [s[i]];
    DecodeHead(s[i..]);
    hide Decode;
    assert s[i..][HeadLen(s[i..])..] == s[i + HeadLen(s[i..])..];
  }

  method TranslateMySqlStringLiterals(s: string) returns (out: string)
    requires NoBareQuote(s)
    ensures out == TranslateLiterals(s)
  {
    hide NoBareQuote, TranslateLiterals, Decode, SqliteLiteral, Inner, Lead;
    out := "";
    var i := 0;
    assert s[0..] == s;
    while i < |s|
      invariant 0 <= i <= |s| && NoBareQuote(s[i..])
      invariant TranslateLiterals(s) == out + TranslateLiterals(s[i..])
    {
      if s[i] == '\'' {
        var end, _ := QuotedSqlSpan(s, i);
        BareStep(s, i, end);
        TranslateStep(s, i, end);
        LiteralInside(s, i, end);
        var value := DecodeMySqlStringLiteral(s[i + 1..end - 1]);
        out := out + SqliteLiteral(value);
        i := end;
        continue;
      }
      var end, _ := SpanAt(s, i);
      BareStep(s, i, end);
      TranslateStep(s, i, end);
      out := out + s[i..end];
      i := end;
    }
    assert s[i..] == "";
    TranslateNothing();
  }

  /** A literal by position: what is between its quotes. */
  lemma LiteralInside(s: string, i: nat, end: nat)
    requires i + 2 <= end <= |s|
    ensures Inner(s[i..end]) == s[i + 1..end - 1]
  {
    var literal := s[i..end];
    var a, b := literal[1..|literal| - 1], s[i + 1..end - 1];
    assert forall k :: 0 <= k < |a| ==> a[k] == b[k];
    assert a == b;
  }

  lemma TranslateNothing()
    ensures NoBareQuote("") && TranslateLiterals("") == ""
  {
  }

  lemma LiteralStarts(s: string, i: nat)
    requires i < |s|
    ensures IsLiteral(Lead(s[i..], ByBytes)) <==> s[i] == '\''
  {
    hide QuoteTail, CommentLen;
  }

  lemma BareStep(s: string, i: nat, end: nat)
    requires i < end <= |s| && NoBareQuote(s[i..]) && Lead(s[i..], ByBytes).text == s[i..end]
    ensures NoBareQuote(s[end..]) && (s[i] == '\'' ==> end >= i + 2)
  {
    hide Lead, IsLiteral;
    LiteralStarts(s, i);
    Suffix(s, i, end - i);
  }

  lemma TranslateStep(s: string, i: nat, end: nat)
    requires i < end <= |s| && Lead(s[i..], ByBytes).text == s[i..end]
    requires NoBareQuote(s[i..]) && NoBareQuote(s[end..]) && (s[i] == '\'' ==> end >= i + 2)
    ensures TranslateLiterals(s[i..]) ==
              (if s[i] == '\'' then SqliteLiteral(Decode(Inner(s[i..end]))) else s[i..end]) + TranslateLiterals(s[end..])
  {
    hide Lead, IsLiteral, Inner, NoBareQuote, SqliteLiteral, Decode, TranslateLiterals, Rewrite;
    LiteralStarts(s, i);
    Suffix(s, i, end - i);
    assert s[i..] != "" && |s[i..end]| == end - i;
    TranslateFirst(s[i..], s[i..end], s[end..], s[i] == '\'');
  }

  lemma TranslateFirst(t: string, text: string, rest: string, literal: bool)
    requires t != "" && NoBareQuote(t) && Lead(t, ByBytes).text == text && t[|text|..] == rest
    requires literal <==> IsLiteral(Lead(t, ByBytes))
    ensures NoBareQuote(rest) && (literal ==> |text| >= 2)
    ensures TranslateLiterals(t) == (if literal then SqliteLiteral(Decode(Inner(text))) else text) + TranslateLiterals(rest)
  {
    hide Lead, IsLiteral, Inner, SqliteLiteral, Decode;
  }
}
