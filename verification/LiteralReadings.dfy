/**
 * What MySQL reads in a text, what SQLite reads in the rewritten text, and when the two agree.
 *
 * Both readings are lists of units: the value of each literal and of each double-quoted span, a span
 * left open at the end, and every other byte with the part of the text it is in.
 */
module LiteralReadings {
  import opened Text
  import opened SqlScanner
  import opened StringLiterals

  const NUL := 0 as char

  datatype Part = InCode | InComment | InBacktick | InBrackets

  datatype Unit = Literal(value: string) | Double(value: string) | Open(text: string) | Byte(c: char, part: Part)

  function BytesIn(s: string, part: Part): (r: seq<Unit>)
    ensures |r| == |s|
  {
    seq(|s|, i requires 0 <= i < |s| => Byte(s[i], part))
  }

  // ---------------------------------------------------------------------------------------------
  // The reading of MySQL
  // ---------------------------------------------------------------------------------------------

  /** `--` starts a comment only before white space, a control byte or the end of the text. */
  predicate IsDashed(t: string) {
    |t| > 2 && t[0] == '-' && t[1] == '-' && t[2] > ' ' && t[2] != 127 as char
  }

  /** The text of a version comment is executed. */
  predicate IsExecuted(t: string) {
    |t| > 2 && t[0] == '/' && t[1] == '*' && t[2] == '!'
  }

  function MySqlCommentLen(t: string): (n: nat)
    ensures n <= |t|
  {
    if IsDashed(t) || IsExecuted(t) then 0 else CommentLen(t, false)
  }

  function MySqlLead(t: string): (tok: Token)
    requires t != ""
    ensures tok.text != "" && tok.text <= t
  {
    if IsQuote(t[0]) then Token(Quoted, t[..1 + QuoteTail(t[1..], t[0])])
    else if MySqlCommentLen(t) > 0 then Token(Comment, t[..MySqlCommentLen(t)])
    else Token(Code, t[..1])
  }

  /**
   * The escape sequences of section "String Literals" of the MySQL manual, by byte codes: \0, \b (8),
   * \t (9), \n (10), \r (13) and \Z (26); \% and \_ keep their backslash; any other byte, the
   * quotes and the backslash among them, stands for itself.
   */
  function MySqlEscape(c: char): string {
    if c == '%' || c == '_' then ['\\', c]
    else if c == 'Z' then [26 as char]
    else if c == 'r' then [13 as char]
    else if c == 'n' then [10 as char]
    else if c == 't' then [9 as char]
    else if c == 'b' then [8 as char]
    else if c == '0' then [0 as char]
    else [c]
  }

  /** The value of the span whose opening quote `q` precedes `b`: a doubled quote is one, a single one ends it. */
  function MySqlValue(b: string, q: char): string {
    if b == "" then ""
    else if b[0] == '\\' && |b| > 1 then MySqlEscape(b[1]) + MySqlValue(b[2..], q)
    else if b[0] == q then if |b| > 1 && b[1] == q then [q] + MySqlValue(b[2..], q) else ""
    else b[..1] + MySqlValue(b[1..], q)
  }

  function MySqlTokenUnits(tok: Token): seq<Unit>
    requires tok.text != ""
  {
    match tok.kind
    case Comment => BytesIn(tok.text, InComment)
    case Quoted =>
      if tok.text[0] == '`' then BytesIn(tok.text, InBacktick)
      else if !ClosedQuote(tok.text) then [Open(tok.text)]
      else if tok.text[0] == '\'' then [Literal(MySqlValue(tok.text[1..], '\''))]
      else [Double(MySqlValue(tok.text[1..], '"'))]
    case _ => BytesIn(tok.text, InCode)
  }

  function MySqlUnits(t: string): seq<Unit>
    decreases |t|
  {
    if t == "" then []
    else
      var tok := MySqlLead(t);
      MySqlTokenUnits(tok) + MySqlUnits(t[|tok.text|..])
  }

  // ---------------------------------------------------------------------------------------------
  // The reading of SQLite
  // ---------------------------------------------------------------------------------------------

  /** SQLite knows no backslash escapes; every kind of quote is escaped by doubling it. */
  function SqliteQuoteTail(t: string, q: char): (n: nat)
    ensures n <= |t|
  {
    if t == "" then 0
    else if t[0] == q then if |t| > 1 && t[1] == q then 2 + SqliteQuoteTail(t[2..], q) else 1
    else 1 + SqliteQuoteTail(t[1..], q)
  }

  /** A body that runs up to its closing quote, which is not itself half of a doubled one. */
  predicate SqliteClosed(x: string, q: char) {
    if x == "" then false
    else if x[0] == q then if |x| > 1 && x[1] == q then SqliteClosed(x[2..], q) else |x| == 1
    else SqliteClosed(x[1..], q)
  }

  /** The value of the span whose opening `q` precedes `b`. */
  function SqliteValue(b: string, q: char): string {
    if b == "" then ""
    else if b[0] == q then if |b| > 1 && b[1] == q then [q] + SqliteValue(b[2..], q) else ""
    else b[..1] + SqliteValue(b[1..], q)
  }

  /** There are no `#` comments, and a comment that is opened by the last two bytes is none. */
  function SqliteCommentLen(t: string): (n: nat)
    ensures n <= |t|
  {
    if t != "" && t[0] == '#' then 0 else if t == "/*" then 0 else CommentLen(t, false)
  }

  /** A name in square brackets runs up to the first closing one. */
  function BracketTail(t: string): (n: nat)
    ensures n <= |t|
  {
    if t == "" then 0 else if t[0] == ']' then 1 else 1 + BracketTail(t[1..])
  }

  function SqliteLead(t: string): (tok: Token)
    requires t != ""
    ensures tok.text != "" && tok.text <= t
  {
    if IsQuote(t[0]) then Token(Quoted, t[..1 + SqliteQuoteTail(t[1..], t[0])])
    else if t[0] == '[' then Token(Quoted, t[..1 + BracketTail(t[1..])])
    else if SqliteCommentLen(t) > 0 then Token(Comment, t[..SqliteCommentLen(t)])
    else Token(Code, t[..1])
  }

  function SqliteTokenUnits(tok: Token): seq<Unit>
    requires tok.text != ""
  {
    match tok.kind
    case Comment => BytesIn(tok.text, InComment)
    case Quoted =>
      var q := tok.text[0];
      if q == '`' then BytesIn(tok.text, InBacktick)
      else if q == '[' then BytesIn(tok.text, InBrackets)
      else if !SqliteClosed(tok.text[1..], q) then [Open(tok.text)]
      else if q == '\'' then [Literal(SqliteValue(tok.text[1..], q))]
      else [Double(SqliteValue(tok.text[1..], q))]
    case _ => BytesIn(tok.text, InCode)
  }

  function SqliteRead(t: string): seq<Unit>
    decreases |t|
  {
    if t == "" then []
    else
      var tok := SqliteLead(t);
      SqliteTokenUnits(tok) + SqliteRead(t[|tok.text|..])
  }

  function UpToNul(t: string): (r: string)
    ensures r <= t && NUL !in r
  {
    if t == "" || t[0] == NUL then "" else t[..1] + UpToNul(t[1..])
  }

  /** The text is handed over as a C string, which a zero byte ends. */
  function SqliteUnits(t: string): seq<Unit> {
    SqliteRead(UpToNul(t))
  }

  // ---------------------------------------------------------------------------------------------
  // What the law asks of the text
  // ---------------------------------------------------------------------------------------------

  /** In a closed double-quoted span: no backslash but before `%` and `_`, where it stands for itself. */
  predicate EscapesStand(b: string) {
    if b == "" then true
    else if b[0] == '\\' && |b| > 1 then (b[1] == '%' || b[1] == '_') && EscapesStand(b[2..])
    else EscapesStand(b[1..])
  }

  /** In a double-quoted span that is left open: no escaped quote, at which SQLite would close it. */
  predicate NoEscapedQuote(b: string) {
    if b == "" then true
    else if b[0] == '\\' && |b| > 1 then b[1] != '"' && NoEscapedQuote(b[2..])
    else NoEscapedQuote(b[1..])
  }

  /** A comment to both. */
  predicate SharedComment(text: string) {
    text != "" && text[0] != '#' && !IsDashed(text) && !IsExecuted(text) && text != "/*"
  }

  predicate Kept(tok: Token)
    requires tok.text != ""
  {
    match tok.kind
    case Quoted =>
      if tok.text[0] == '\'' then ClosedQuote(tok.text) && NUL !in MySqlValue(tok.text[1..], '\'')
      else
        && NUL !in tok.text
        && (tok.text[0] == '"' ==> if ClosedQuote(tok.text) then EscapesStand(tok.text[1..]) else NoEscapedQuote(tok.text[1..]))
    case Comment => NUL !in tok.text && SharedComment(tok.text)
    case _ => NUL !in tok.text && tok.text != "["
  }

  /**
   * Literals are closed and decode to no zero byte, nothing else holds one, comments are comments to
   * both, no bracket stands in code, and backslashes in double quotes change nothing.
   */
  predicate AllKept(t: string)
    decreases |t|
  {
    t == "" || (Kept(Lead(t, ByBytes)) && AllKept(t[|Lead(t, ByBytes).text|..]))
  }

  // ---------------------------------------------------------------------------------------------
  // Spans under the two sets of rules
  // ---------------------------------------------------------------------------------------------

  lemma {:induction false} UndoubleDouble(value: string)
    ensures SqliteValue(DoubleQuotes(value) + "'", '\'') == value
    ensures SqliteClosed(DoubleQuotes(value) + "'", '\'')
  {
    if value != "" {
      var rest := DoubleQuotes(value[1..]);
      UndoubleDouble(value[1..]);
      if value[0] == '\'' {
        var d := "''" + rest;
        assert d[2..] == rest && (d + "'")[2..] == rest + "'";
      } else {
        var d := value[..1] + rest;
        assert d[1..] == rest && (d + "'")[1..] == rest + "'";
      }
    }
  }

  lemma {:induction false} SqliteClosedEnds(x: string, y: string, q: char)
    requires SqliteClosed(x, q) && (y == "" || y[0] != q)
    ensures SqliteQuoteTail(x + y, q) == |x|
  {
    var t := x + y;
    if x[0] == q {
      if |x| > 1 && x[1] == q {
        assert t[2..] == x[2..] + y;
        SqliteClosedEnds(x[2..], y, q);
      }
    } else {
      assert t[1..] == x[1..] + y;
      SqliteClosedEnds(x[1..], y, q);
    }
  }

  /** Two back-quoted names side by side are one SQLite token, but its bytes are the same ones. */
  lemma {:induction false} BacktickTail(x: string, y: string)
    requires ClosedBody(x, '`')
    ensures SqliteQuoteTail(x + y, '`') ==
            |x| + if y != "" && y[0] == '`' then 1 + SqliteQuoteTail(y[1..], '`') else 0
  {
    var t := x + y;
    if x[0] == '`' {
      if y != "" && y[0] == '`' {
        assert t[2..] == y[1..];
      }
    } else {
      assert t[1..] == x[1..] + y;
      BacktickTail(x[1..], y);
    }
  }

  /** The value ends where the span does. */
  lemma {:induction false} SqliteValueEnds(u: string, q: char)
    requires SqliteClosed(u[..SqliteQuoteTail(u, q)], q)
    ensures SqliteValue(u[..SqliteQuoteTail(u, q)], q) == SqliteValue(u, q)
  {
    var n := SqliteQuoteTail(u, q);
    var x := u[..n];
    if u[0] == q {
      if |u| > 1 && u[1] == q {
        assert x[2..] == u[2..][..n - 2];
        SqliteValueEnds(u[2..], q);
      }
    } else {
      assert x[1..] == u[1..][..n - 1];
      SqliteValueEnds(u[1..], q);
    }
  }

  /** An open span is open to SQLite as well, if it hides no quote behind a backslash. */
  lemma {:induction false} OpenAgrees(b: string, q: char)
    requires QuoteTail(b, q) == |b| && !ClosedBody(b, q) && (q == '`' || (q == '"' && NoEscapedQuote(b)))
    ensures SqliteQuoteTail(b, q) == |b| && (q == '"' ==> !SqliteClosed(b, q))
  {
    if b != "" {
      if b[0] == '\\' && q != '`' && |b| > 1 {
        assert b[1..][1..] == b[2..];
        OpenAgrees(b[2..], q);
      } else if b[0] == q {
        if q != '`' && |b| > 1 && b[1] == q {
          assert b[1..][1..] == b[2..];
          OpenAgrees(b[2..], q);
        }
      } else {
        OpenAgrees(b[1..], q);
      }
    }
  }

  /** SQLite finds a closing quote in `u`. */
  predicate SqliteCloses(u: string) {
    SqliteClosed(u[..SqliteQuoteTail(u, '"')], '"')
  }

  lemma ClosesPast(u: string)
    requires u != ""
    ensures u[0] != '"' ==> SqliteCloses(u) == SqliteCloses(u[1..])
    ensures |u| > 1 && u[0] == '"' && u[1] == '"' ==> SqliteCloses(u) == SqliteCloses(u[2..])
  {
    var n := SqliteQuoteTail(u, '"');
    if u[0] != '"' {
      assert u[..n][1..] == u[1..][..n - 1];
    } else if |u| > 1 && u[1] == '"' {
      assert u[..n][2..] == u[2..][..n - 2];
    }
  }

  lemma ClosesHere(r: string)
    requires r == "" || r[0] != '"'
    ensures SqliteCloses("\"" + r)
  {
    var u := "\"" + r;
    assert u[..1] == "\"";
  }

  /** After an escaped quote SQLite closes the span, which MySQL leaves open. */
  lemma {:induction false} QuoteCloses(r: string)
    requires QuoteTail(r, '"') == |r| && !ClosedBody(r, '"')
    ensures SqliteCloses("\"" + r)
  {
    hide SqliteCloses;
    if r != "" && r[0] == '"' {
      var u := "\"" + r;
      QuoteCloses(r[2..]);
      ClosesPast(u);
      assert u[2..] == "\"" + r[2..];
    } else {
      ClosesHere(r);
    }
  }

  lemma {:induction false} EscapedQuoteCloses(b: string)
    requires QuoteTail(b, '"') == |b| && !ClosedBody(b, '"') && !NoEscapedQuote(b)
    ensures SqliteCloses(b)
  {
    hide SqliteCloses;
    ClosesPast(b);
    if b[0] == '\\' && |b| > 1 {
      assert b[1..][1..] == b[2..];
      if b[1] == '"' {
        QuoteCloses(b[2..]);
        assert b[1..] == "\"" + b[2..];
      } else {
        EscapedQuoteCloses(b[2..]);
        ClosesPast(b[1..]);
      }
    } else if b[0] == '"' {
      assert b[1..][1..] == b[2..];
      EscapedQuoteCloses(b[2..]);
    } else {
      EscapedQuoteCloses(b[1..]);
    }
  }

  // ---------------------------------------------------------------------------------------------
  // A backslash that counts changes the value
  // ---------------------------------------------------------------------------------------------

  function Backslashes(k: nat): string {
    if k == 0 then "" else "\\" + Backslashes(k - 1)
  }

  lemma {:induction false} BackslashesSnoc(k: nat, s: string)
    ensures Backslashes(k) + ("\\" + s) == Backslashes(k + 1) + s
  {
    if k > 0 {
      BackslashesSnoc(k - 1, s);
      assert "\\" + Backslashes(k - 1) + ("\\" + s) == "\\" + (Backslashes(k - 1) + ("\\" + s));
      assert "\\" + (Backslashes(k) + s) == Backslashes(k + 1) + s;
    }
  }

  /** A backslash and the byte behind it, under both rules. */
  lemma PairRead(b: string, y: string)
    requires |b| > 1 && b[0] == '\\'
    ensures MySqlValue(b, '"') == MySqlEscape(b[1]) + MySqlValue(b[2..], '"')
    ensures SqliteValue(b + y, '"') == "\\" + SqliteValue(b[1..] + y, '"')
    ensures b[1] != '"' ==> SqliteValue(b[1..] + y, '"') == [b[1]] + SqliteValue(b[2..] + y, '"')
  {
    hide MySqlEscape;
    assert (b + y)[1..] == b[1..] + y && (b[1..] + y)[1..] == b[2..] + y;
    assert (b + y)[..1] == "\\" && (b[1..] + y)[..1] == [b[1]];
  }

  /** Any other byte. */
  lemma ByteRead(b: string, y: string)
    requires b != "" && b[0] != '"' && !(|b| > 1 && b[0] == '\\')
    ensures MySqlValue(b, '"') == b[..1] + MySqlValue(b[1..], '"') && SqliteValue(b + y, '"') == b[..1] + SqliteValue(b[1..] + y, '"')
  {
    assert (b + y)[1..] == b[1..] + y && (b + y)[..1] == b[..1];
  }

  lemma QuotesRead(b: string, y: string)
    requires |b| > 1 && b[0] == '"' && b[1] == '"'
    ensures MySqlValue(b, '"') == "\"" + MySqlValue(b[2..], '"') && SqliteValue(b + y, '"') == "\"" + SqliteValue(b[2..] + y, '"')
  {
    assert (b + y)[2..] == b[2..] + y && (b + y)[1] == '"' && ['"'] == "\"";
  }

  lemma EscapeFirst(c: char)
    ensures MySqlEscape(c) != "" && (MySqlEscape(c)[0] == '\\' ==> c == '\\' || c == '%' || c == '_')
    ensures c == '\\' ==> MySqlEscape(c) == "\\"
    ensures c == '%' || c == '_' ==> MySqlEscape(c) == "\\" + [c]
  {
  }

  lemma BackslashesFront(k: nat, s: string)
    requires k > 0
    ensures var u := Backslashes(k) + ("\\" + s); |u| > 1 && u[0] == '\\' && u[1] == '\\'
    ensures var u := Backslashes(k) + s; |u| > 0 && u[0] == '\\'
  {
    assert k > 1 ==> Backslashes(k - 1)[0] == '\\';
  }

  lemma FurtherBehind(m: string, k: nat, s: string)
    requires m != Backslashes(k + 1) + s
    ensures "\\" + m != Backslashes(k) + ("\\" + ("\\" + s))
  {
    BackslashesSnoc(k, "\\" + s);
    BackslashesSnoc(k + 1, s);
    assert Backslashes(k + 2) + s == "\\" + (Backslashes(k + 1) + s);
    SamePrefix("\\", m, Backslashes(k + 1) + s);
  }

  /** SQLite's value, once longer by some backslashes, never becomes MySQL's again. */
  lemma {:induction false} ValueStaysBehind(b: string, y: string, k: nat)
    requires ClosedBody(b, '"') && k > 0
    ensures MySqlValue(b, '"') != Backslashes(k) + SqliteValue(b + y, '"')
  {
    hide MySqlValue, SqliteValue, MySqlEscape, Backslashes;
    BackslashesFront(k, SqliteValue(b + y, '"'));
    if b[0] == '\\' && |b| > 1 {
      PairRead(b, y);
      EscapeFirst(b[1]);
      BackslashesFront(k, SqliteValue(b[1..] + y, '"'));
      if b[1] == '\\' {
        ValueStaysBehind(b[2..], y, k + 1);
        FurtherBehind(MySqlValue(b[2..], '"'), k, SqliteValue(b[2..] + y, '"'));
      }
    } else if b[0] == '"' {
      if |b| > 1 {
        QuotesRead(b, y);
      } else {
        QuoteEndsValue(b);
      }
    } else {
      ByteRead(b, y);
    }
  }

  lemma QuoteEndsValue(b: string)
    requires b == "\""
    ensures MySqlValue(b, '"') == ""
  {
  }

  /** Where no backslash counts, a double-quoted span is closed at the same place and has the same value. */
  lemma {:induction false} DoubleAgrees(b: string)
    requires ClosedBody(b, '"') && EscapesStand(b)
    ensures SqliteClosed(b, '"') && SqliteValue(b, '"') == MySqlValue(b, '"')
  {
    assert b + "" == b && b[1..] + "" == b[1..];
    if b[0] == '\\' && |b| > 1 {
      DoubleAgrees(b[2..]);
      ClosedPast(b);
      hide SqliteClosed, SqliteValue, MySqlValue, MySqlEscape, ClosedBody;
      PairRead(b, "");
      EscapeFirst(b[1]);
      assert b[2..] + "" == b[2..];
      assert ("\\" + [b[1]]) + SqliteValue(b[2..], '"') == "\\" + ([b[1]] + SqliteValue(b[2..], '"'));
    } else if b[0] == '"' {
      if |b| > 1 {
        assert b[1..][1..] == b[2..];
        DoubleAgrees(b[2..]);
        hide SqliteClosed, ClosedBody;
      }
    } else {
      DoubleAgrees(b[1..]);
      assert SqliteClosed(b, '"') == SqliteClosed(b[1..], '"');
      hide SqliteClosed, SqliteValue, MySqlValue, MySqlEscape, ClosedBody;
      ByteRead(b, "");
    }
  }

  lemma ClosedPast(b: string)
    requires |b| > 1 && b[0] != '"' && b[1] != '"'
    ensures SqliteClosed(b, '"') <==> SqliteClosed(b[2..], '"')
  {
    assert b[1..][1..] == b[2..];
  }

  lemma {:induction false} EscapeChangesValue(b: string, y: string)
    requires ClosedBody(b, '"') && !EscapesStand(b)
    ensures MySqlValue(b, '"') != SqliteValue(b + y, '"')
  {
    hide MySqlValue, SqliteValue, MySqlEscape;
    if b[0] == '\\' && |b| > 1 {
      var m, s := MySqlValue(b[2..], '"'), SqliteValue(b[2..] + y, '"');
      PairRead(b, y);
      EscapeFirst(b[1]);
      if b[1] == '\\' {
        ValueStaysBehind(b[2..], y, 1);
        assert Backslashes(1) == "\\";
        SamePrefix("\\", m, "\\" + s);
      } else if b[1] == '%' || b[1] == '_' {
        EscapeChangesValue(b[2..], y);
        SamePrefix(MySqlEscape(b[1]), m, s);
        assert ("\\" + [b[1]]) + s == "\\" + ([b[1]] + s);
      } else {
        assert MySqlValue(b, '"')[0] == MySqlEscape(b[1])[0] && SqliteValue(b + y, '"')[0] == '\\';
      }
    } else if b[0] == '"' {
      assert |b| > 1 && b[1] == '"' && b[1..][1..] == b[2..];
      QuotesRead(b, y);
      EscapeChangesValue(b[2..], y);
      SamePrefix("\"", MySqlValue(b[2..], '"'), SqliteValue(b[2..] + y, '"'));
    } else {
      ByteRead(b, y);
      EscapeChangesValue(b[1..], y);
      SamePrefix(b[..1], MySqlValue(b[1..], '"'), SqliteValue(b[1..] + y, '"'));
    }
  }

  // ---------------------------------------------------------------------------------------------
  // Kept tokens
  // ---------------------------------------------------------------------------------------------

  lemma SqliteReadFrom(x: string, y: string, tok: Token)
    requires x != "" && SqliteLead(x + y) == tok && tok.text == x
    ensures SqliteRead(x + y) == SqliteTokenUnits(tok) + SqliteRead(y)
  {
    assert (x + y)[|x|..] == y;
  }

  lemma SqliteQuoteFrom(x: string, y: string)
    requires x != "" && IsQuote(x[0]) && SqliteQuoteTail(x[1..] + y, x[0]) == |x| - 1
    ensures SqliteRead(x + y) == SqliteTokenUnits(Token(Quoted, x)) + SqliteRead(y)
  {
    hide SqliteQuoteTail, SqliteTokenUnits;
    assert (x + y)[1..] == x[1..] + y && (x + y)[..|x|] == x;
    SqliteReadFrom(x, y, Token(Quoted, x));
  }

  lemma BacktickStep(x: string, y: string)
    requires ClosedQuote(x) && x[0] == '`'
    ensures SqliteRead(x + y) == BytesIn(x, InBacktick) + SqliteRead(y)
  {
    hide SqliteRead, SqliteQuoteTail, ClosedBody;
    BacktickTail(x[1..], y);
    if y != "" && y[0] == '`' {
      BacktickMerge(x, y);
    } else {
      SqliteQuoteFrom(x, y);
    }
  }

  lemma BacktickMerge(x: string, y: string)
    requires x != "" && x[0] == '`' && y != "" && y[0] == '`'
    requires SqliteQuoteTail(x[1..] + y, '`') == |x| + SqliteQuoteTail(y[1..], '`')
    ensures SqliteRead(x + y) == BytesIn(x, InBacktick) + SqliteRead(y)
  {
    hide SqliteRead, SqliteQuoteTail, SqliteTokenUnits, BytesIn;
    var n := 1 + SqliteQuoteTail(y[1..], '`');
    var z, rest := y[..n], y[n..];
    BacktickCut(x, y, n);
    SqliteQuoteFrom(z, rest);
    SqliteQuoteFrom(x + z, rest);
    BytesInAppend(x, z, InBacktick);
    BacktickUnits(z);
    BacktickUnits(x + z);
    UnitsJoin(BytesIn(x, InBacktick), BytesIn(z, InBacktick), SqliteRead(rest));
  }

  lemma BacktickCut(x: string, y: string, n: nat)
    requires x != "" && x[0] == '`' && y != "" && y[0] == '`' && 0 < n <= |y|
    ensures y == y[..n] + y[n..] && y[..n][1..] + y[n..] == y[1..] && y[..n][0] == '`' && (x + y[..n])[0] == '`'
    ensures x + y == (x + y[..n]) + y[n..] && (x + y[..n])[1..] + y[n..] == x[1..] + y
  {
  }

  lemma UnitsJoin(a: seq<Unit>, b: seq<Unit>, c: seq<Unit>)
    ensures (a + b) + c == a + (b + c)
  {
  }

  lemma BacktickUnits(x: string)
    requires x != "" && x[0] == '`'
    ensures SqliteTokenUnits(Token(Quoted, x)) == BytesIn(x, InBacktick)
  {
  }

  lemma BytesInAppend(x: string, z: string, part: Part)
    ensures BytesIn(x + z, part) == BytesIn(x, part) + BytesIn(z, part)
  {
  }

  /** A literal as it is written for SQLite. */
  lemma LiteralStep(value: string, y: string)
    requires y == "" || y[0] != '\''
    ensures SqliteRead(SqliteLiteral(value) + y) == [Literal(value)] + SqliteRead(y)
  {
    hide SqliteRead, SqliteQuoteTail, DoubleQuotes, SqliteValue, SqliteClosed;
    var x := SqliteLiteral(value);
    var body := DoubleQuotes(value) + "'";
    assert x == "'" + body && x[1..] == body;
    UndoubleDouble(value);
    SqliteClosedEnds(body, y, '\'');
    SqliteQuoteFrom(x, y);
  }

  lemma DoubleStep(x: string, y: string)
    requires ClosedQuote(x) && x[0] == '"' && EscapesStand(x[1..])
    requires y == "" || y[0] != '"'
    ensures SqliteRead(x + y) == [Double(MySqlValue(x[1..], '"'))] + SqliteRead(y)
  {
    hide SqliteRead, SqliteQuoteTail, SqliteClosed, ClosedBody, SqliteValue, MySqlValue, EscapesStand;
    DoubleAgrees(x[1..]);
    SqliteClosedEnds(x[1..], y, '"');
    SqliteQuoteFrom(x, y);
  }

  /** A back-quoted or double-quoted span that is left open. */
  lemma OpenStep(x: string)
    requires x != "" && (x[0] == '`' || (x[0] == '"' && NoEscapedQuote(x[1..])))
    requires QuoteTail(x[1..], x[0]) == |x| - 1 && !ClosedQuote(x)
    ensures SqliteRead(x) == if x[0] == '`' then BytesIn(x, InBacktick) else [Open(x)]
  {
    hide SqliteRead, SqliteQuoteTail, SqliteClosed, QuoteTail, ClosedBody, SqliteValue, NoEscapedQuote;
    OpenAgrees(x[1..], x[0]);
    assert x + "" == x && x[1..] + "" == x[1..];
    SqliteQuoteFrom(x, "");
    NothingToRead();
  }

  lemma NothingToRead()
    ensures SqliteRead("") == [] && MySqlUnits("") == []
  {
  }

  lemma CommentStep(tok: Token, rest: string, y: string)
    requires Sits(tok, rest, ByBytes) && tok.kind == Comment && SharedComment(tok.text)
    requires rest == "" ==> y == ""
    ensures SqliteRead(tok.text + y) == BytesIn(tok.text, InComment) + SqliteRead(y)
  {
    var x := tok.text;
    if rest != "" {
      CommentLocal(x, rest, y, false);
    }
    assert x + "" == x && (x + y)[..|x|] == x;
    SqliteReadFrom(x, y, Token(Comment, x));
  }

  lemma CodeStep(tok: Token, rest: string, y: string)
    requires Sits(tok, rest, ByBytes) && tok.kind == Code && tok.text != "["
    requires y != "" ==> rest != "" && y[0] == rest[0]
    ensures SqliteRead(tok.text + y) == BytesIn(tok.text, InCode) + SqliteRead(y)
  {
    var x := tok.text;
    if y == "" {
      SitsAtEnd(tok, rest, ByBytes);
      assert x + "" == x;
    } else {
      NoComment(x, rest, y, false);
    }
    assert (x + y)[..1] == x;
    SqliteReadFrom(x, y, Token(Code, x));
  }

  /** What follows a span that something follows does not double its closing quote. */
  lemma SpanEnds(tok: Token, rest: string)
    requires Sits(tok, rest, ByBytes) && tok.kind == Quoted
    ensures rest != "" ==> ClosedQuote(tok.text) && (tok.text[0] == '`' || rest[0] != tok.text[0])
    ensures rest == "" ==> QuoteTail(tok.text[1..], tok.text[0]) == |tok.text| - 1
    ensures IsQuote(tok.text[0])
  {
    var x := tok.text;
    assert (x + rest)[1..] == x[1..] + rest && (x + rest)[0] == x[0] && x + "" == x;
    if rest != "" {
      ShortSpanIsClosed(x[1..], rest, x[0]);
    }
  }

  /** SQLite reads a kept token as MySQL reads the original, whatever of the rest is left. */
  lemma TokenKept(tok: Token, rest: string, y: string)
    requires Sits(tok, rest, ByBytes) && Kept(tok)
    requires y != "" ==> rest != "" && y[0] == rest[0]
    ensures IsLiteral(tok) ==> |tok.text| >= 2
    ensures SqliteRead(Rewrite(tok) + y) == MySqlTokenUnits(tok) + SqliteRead(y)
  {
    hide SqliteRead, Decode, SqliteLiteral, MySqlValue, EscapesStand, NoEscapedQuote, QuoteTail, ClosedBody;
    match tok.kind
    case Quoted =>
      SpanEnds(tok, rest);
      ClosedLong(tok.text);
      if IsLiteral(tok) {
        LiteralMeans(tok.text);
        LiteralStep(Decode(Inner(tok.text)), y);
      } else {
        NamesKept(tok.text, y);
      }
    case Comment => CommentStep(tok, rest, y);
    case Code => CodeStep(tok, rest, y);
  }

  lemma EscapesAgree(c: char)
    ensures Unescape(c) == MySqlEscape(c)
  {
    assert 10 as char == '\n' && 13 as char == '\r' && 9 as char == '\t';
  }

  /** The pass decodes a closed literal as the manual says. */
  lemma {:induction false} DecodeMeans(b: string)
    requires ClosedBody(b, '\'')
    ensures Decode(b[..|b| - 1]) == MySqlValue(b, '\'')
  {
    var x := b[..|b| - 1];
    SmallDecodes();
    if |b| > 1 {
      DecodeHead(x);
      hide Decode;
      if b[0] == '\\' || b[0] == '\'' {
        ClosedRest(b);
        FrontRest(b, 2);
        DecodeMeans(b[2..]);
        EscapesAgree(b[1]);
        hide MySqlEscape, Unescape;
        assert ['\''] == "'";
      } else {
        FrontRest(b, 1);
        DecodeMeans(b[1..]);
      }
    }
  }

  lemma FrontRest(b: string, n: nat)
    requires n < |b|
    ensures b[..|b| - 1][n..] == b[n..][..|b| - n - 1]
  {
  }

  lemma ClosedRest(b: string)
    requires ClosedBody(b, '\'') && |b| > 1 && (b[0] == '\\' || b[0] == '\'')
    ensures |b| > 2 && (b[0] == '\'' ==> b[1] == '\'')
  {
  }

  lemma LiteralMeans(x: string)
    ensures ClosedQuote(x) && x[0] == '\'' ==> Decode(Inner(x)) == MySqlValue(x[1..], '\'')
  {
    if ClosedQuote(x) && x[0] == '\'' {
      DecodeMeans(x[1..]);
      assert x[1..][..|x| - 2] == Inner(x);
    }
  }

  lemma ClosedLong(x: string)
    ensures ClosedQuote(x) ==> |x| >= 2
  {
  }

  lemma NamesKept(x: string, y: string)
    requires x != "" && (x[0] == '`' || x[0] == '"') && Kept(Token(Quoted, x))
    requires y != "" ==> ClosedQuote(x) && (x[0] == '`' || y[0] != x[0])
    requires !ClosedQuote(x) ==> QuoteTail(x[1..], x[0]) == |x| - 1
    ensures SqliteRead(x + y) == MySqlTokenUnits(Token(Quoted, x)) + SqliteRead(y)
  {
    hide SqliteRead, MySqlValue, EscapesStand, NoEscapedQuote, QuoteTail, ClosedBody;
    if !ClosedQuote(x) {
      OpenStep(x);
      NothingToRead();
      assert x + "" == x;
    } else if x[0] == '"' {
      DoubleStep(x, y);
    } else {
      BacktickStep(x, y);
    }
  }

  // ---------------------------------------------------------------------------------------------
  // Zero bytes
  // ---------------------------------------------------------------------------------------------

  lemma {:induction false} UpToNulAppend(x: string, y: string)
    ensures UpToNul(x + y) == if NUL in x then UpToNul(x) else x + UpToNul(y)
  {
    if x == "" {
      assert x + y == y;
    } else {
      assert (x + y)[1..] == x[1..] + y;
      if x[0] != NUL {
        UpToNulAppend(x[1..], y);
        assert NUL in x <==> NUL in x[1..];
      }
    }
  }

  /** A unit that has a zero byte. */
  predicate HasNul(u: Unit) {
    match u
    case Byte(c, _) => c == NUL
    case Literal(value) => NUL in value
    case Double(value) => NUL in value
    case Open(text) => NUL in text
  }

  lemma {:induction false} ValueFrom(b: string, q: char)
    requires q != NUL
    ensures NUL in SqliteValue(b, q) ==> NUL in b
  {
    if b != "" {
      if b[0] == q {
        if |b| > 1 && b[1] == q {
          ValueFrom(b[2..], q);
        }
      } else {
        ValueFrom(b[1..], q);
      }
    }
  }

  /** SQLite never sees a zero byte. */
  lemma {:induction false} SqliteReadsNoNul(t: string)
    requires NUL !in t
    ensures forall u :: u in SqliteRead(t) ==> !HasNul(u)
    decreases |t|
  {
    if t != "" {
      var tok := SqliteLead(t);
      SqliteReadsNoNul(t[|tok.text|..]);
      assert forall c :: c in tok.text ==> c in t;
      TokenReadsNoNul(tok);
      hide SqliteLead, SqliteTokenUnits, HasNul;
    }
  }

  lemma TokenReadsNoNul(tok: Token)
    requires tok.text != "" && NUL !in tok.text
    ensures forall u :: u in SqliteTokenUnits(tok) ==> !HasNul(u)
  {
    ValueFrom(tok.text[1..], tok.text[0]);
    hide SqliteValue, SqliteClosed;
  }

  lemma {:induction false} DoubleKeepsNul(b: string)
    requires ClosedBody(b, '"') && NUL in b
    ensures NUL in MySqlValue(b, '"')
  {
    if b[0] == '\\' && |b| > 1 {
      if NUL in b[2..] {
        DoubleKeepsNul(b[2..]);
      } else {
        assert b[1] == NUL && MySqlEscape(b[1])[0] == NUL;
      }
    } else if b[0] == '"' {
      if |b| > 1 {
        DoubleKeepsNul(b[2..]);
      }
    } else if b[0] != NUL {
      DoubleKeepsNul(b[1..]);
    }
  }

  /** A zero byte that MySQL reads and SQLite does not. */
  lemma NulDiffers(t: string, out: string)
    requires t != "" && exists u :: u in MySqlTokenUnits(MySqlLead(t)) && HasNul(u)
    ensures SqliteUnits(out) != MySqlUnits(t)
  {
    SqliteReadsNoNul(UpToNul(out));
    var u :| u in MySqlTokenUnits(MySqlLead(t)) && HasNul(u);
    assert u in MySqlUnits(t);
  }

  // ---------------------------------------------------------------------------------------------
  // Tokens that are not kept
  // ---------------------------------------------------------------------------------------------

  lemma HeadKept(t: string)
    requires NoBareQuote(t)
    ensures TranslateLiterals(t) == "" <==> t == ""
    ensures t != "" ==> TranslateLiterals(t)[0] == t[0]
  {
    hide Decode, DoubleQuotes;
  }

  lemma {:induction false} DoubleQuotesAppend(a: string, b: string)
    ensures DoubleQuotes(a + b) == DoubleQuotes(a) + DoubleQuotes(b)
  {
    if a == "" {
      assert a + b == b;
    } else {
      assert (a + b)[1..] == a[1..] + b;
      DoubleQuotesAppend(a[1..], b);
    }
  }

  lemma DoubledHead(t: string)
    requires t != "" && (t[0] == '\'' ==> |t| > 1 && t[1] == '\'')
    ensures var h := HeadValue(t); |DoubleQuotes(h)| <= HeadLen(t) && (NUL in h ==> h == [NUL])
  {
    var h := HeadValue(t);
    if |h| == 1 {
      assert h[1..] == "" && DoubleQuotes("") == "";
    } else {
      assert h[1..][1..] == "" && DoubleQuotes("") == "";
    }
  }

  /** Before its first zero byte an open literal is written no longer than it was. */
  lemma {:induction false} OpenLiteralShrinks(b: string)
    requires LeftOpen(b) && b != ""
    requires NUL in Decode(b[..|b| - 1])
    ensures |DoubleQuotes(UpToNul(Decode(b[..|b| - 1])))| < |b|
  {
    var x := b[..|b| - 1];
    SmallDecodes();
    assert x != "" && x != "'" && x != "\\";
    OpenHead(b, x);
    var n := HeadLen(x);
    var h, r := HeadValue(x), Decode(x[n..]);
    DecodeHead(x);
    DoubledHead(x);
    UpToNulAppend(h, r);
    hide Decode, DoubleQuotes, UpToNul, LeftOpen, HeadValue, HeadLen;
    if NUL in h {
      NulAlone();
    } else {
      DoubleQuotesAppend(h, UpToNul(r));
      OpenLiteralShrinks(b[n..]);
    }
  }

  lemma NulAlone()
    ensures UpToNul([NUL]) == "" && DoubleQuotes("") == ""
  {
  }

  /** `b` follows a single quote that nothing closes. */
  predicate LeftOpen(b: string) {
    QuoteTail(b, '\'') == |b| && !ClosedBody(b, '\'')
  }

  lemma OpenHead(b: string, x: string)
    requires LeftOpen(b) && |b| > 1 && x == b[..|b| - 1] && x != "'" && x != "\\"
    ensures var n := HeadLen(x);
            && (x[0] == '\'' ==> |x| > 1 && x[1] == '\'')
            && n < |b| && LeftOpen(b[n..]) && x[n..] == b[n..][..|b[n..]| - 1]
  {
    OpenNext(b);
    hide LeftOpen;
    var n := HeadLen(x);
    HeadAt(b, x);
    hide HeadLen;
    assert x[n..] == b[n..][..|b| - n - 1];
  }

  lemma HeadAt(b: string, x: string)
    requires |b| > 1 && x == b[..|b| - 1] && x != "'" && x != "\\" && (b[0] == '\'' ==> b[1] == '\'')
    ensures HeadLen(x) <= |x| && HeadLen(x) == if b[0] == '\\' || b[0] == '\'' then 2 else 1
    ensures x[0] == b[0] && (x[0] == '\'' ==> |x| > 1 && x[1] == '\'')
  {
    assert x[0] == b[0] && (|x| > 1 ==> x[1] == b[1]);
    assert |x| == 1 ==> x == [b[0]];
  }

  lemma OpenNext(b: string)
    requires |b| > 1 && LeftOpen(b)
    ensures LeftOpen(b[if b[0] == '\\' || b[0] == '\'' then 2 else 1..]) && (b[0] == '\'' ==> b[1] == '\'')
  {
  }

  lemma SmallDecodes()
    ensures Decode("") == "" && Decode("'") == "'" && Decode("\\") == "\\"
  {
    assert "'"[1..] == "" && "\\"[1..] == "";
  }

  lemma {:induction false} DoubledUpToNul(v: string)
    ensures UpToNul(DoubleQuotes(v)) == DoubleQuotes(UpToNul(v)) && (NUL in DoubleQuotes(v) <==> NUL in v)
  {
    if v != "" {
      DoubledUpToNul(v[1..]);
      var h := if v[0] == '\'' then "''" else v[..1];
      UpToNulAppend(h, DoubleQuotes(v[1..]));
      if v[0] != NUL {
        var u := v[..1] + UpToNul(v[1..]);
        assert u[1..] == UpToNul(v[1..]) && UpToNul(v) == u;
      }
    }
  }

  lemma CutLiteral(v: string)
    ensures UpToNul(SqliteLiteral(v)) == if NUL in v then "'" + DoubleQuotes(UpToNul(v)) else SqliteLiteral(v)
  {
    hide DoubleQuotes, UpToNul;
    var d := DoubleQuotes(v);
    DoubledUpToNul(v);
    UpToNulAppend("'", d + "'");
    UpToNulAppend(d, "'");
    NoNulQuote();
    assert "'" + d + "'" == "'" + (d + "'");
  }

  lemma NoNulQuote()
    ensures UpToNul("'") == "'" && NUL !in "'"
  {
    assert "'"[1..] == "";
  }

  lemma FirstUnit(t: string)
    requires t != ""
    ensures MySqlTokenUnits(MySqlLead(t)) != [] && MySqlUnits(t)[0] == MySqlTokenUnits(MySqlLead(t))[0]
    ensures SqliteTokenUnits(SqliteLead(t)) != [] && SqliteRead(t)[0] == SqliteTokenUnits(SqliteLead(t))[0]
  {
    hide MySqlLead, SqliteLead, MySqlValue, SqliteValue, SqliteClosed, ClosedQuote, Decode;
  }

  /** A single quote that is left open: what is written is closed, or cut short at a zero byte. */
  lemma OpenLiteralDiffers(t: string)
    requires |t| >= 2 && t[0] == '\'' && LeftOpen(t[1..])
    ensures SqliteUnits(SqliteLiteral(Decode(Inner(t)))) != MySqlUnits(t)
  {
    hide Decode, DoubleQuotes, SqliteRead, MySqlUnits, UpToNul;
    var v := Decode(Inner(t));
    var z := UpToNul(SqliteLiteral(v));
    CutLiteral(v);
    OpenFirst(t);
    if NUL in v {
      assert t[1..][..|t| - 2] == Inner(t);
      OpenLiteralShrinks(t[1..]);
      ShorterFirst(z, t);
    } else {
      NothingToRead();
      assert z + "" == z;
      LiteralStep(v, "");
    }
  }

  lemma OpenFirst(t: string)
    requires t != "" && t[0] == '\'' && LeftOpen(t[1..])
    ensures MySqlUnits(t) != [] && MySqlUnits(t)[0] == Open(t)
  {
    FirstUnit(t);
    hide QuoteTail, ClosedBody, MySqlUnits, Decode;
    assert t[..|t|] == t;
  }

  lemma ShorterFirst(z: string, t: string)
    requires z != "" && |z| < |t|
    ensures SqliteRead(z) != [] && SqliteRead(z)[0] != Open(t)
  {
    FirstUnit(z);
    hide SqliteRead, SqliteLead;
    var tok := SqliteLead(z);
    assert |tok.text| <= |z|;
    NotThatOpen(tok, t);
  }

  lemma NotThatOpen(tok: Token, t: string)
    requires tok.text != "" && tok.text != t
    ensures SqliteTokenUnits(tok) != [] && SqliteTokenUnits(tok)[0] != Open(t)
  {
    hide SqliteValue, SqliteClosed;
  }

  /** A double-quoted span in which a backslash counts. */
  lemma DoubleDiffers(t: string, tok: Token, y: string)
    requires t != "" && MySqlLead(t) == tok && tok.kind == Quoted && tok.text[0] == '"'
    requires if ClosedQuote(tok.text) then !EscapesStand(tok.text[1..])
             else QuoteTail(tok.text[1..], '"') == |tok.text| - 1 && !NoEscapedQuote(tok.text[1..]) && y == ""
    ensures SqliteRead(tok.text + y) != MySqlUnits(t)
  {
    hide QuoteTail, ClosedBody, SqliteClosed, SqliteQuoteTail, SqliteValue, MySqlValue, EscapesStand, NoEscapedQuote, MySqlUnits, SqliteRead;
    var x := tok.text;
    var u := x + y;
    FirstUnit(t);
    FirstUnit(u);
    assert u[1..] == x[1..] + y && u[0] == '"';
    var n := SqliteQuoteTail(u[1..], '"');
    assert u[..1 + n][1..] == u[1..][..n];
    if ClosedQuote(x) {
      EscapeChangesValue(x[1..], y);
      if SqliteClosed(u[1..][..n], '"') {
        SqliteValueEnds(u[1..], '"');
      }
    } else {
      assert x[1..] + "" == x[1..];
      EscapedQuoteCloses(x[1..]);
    }
  }

  lemma NotShared(t: string)
    requires t != "" && CommentLen(t, false) > 0 && !SharedComment(t[..CommentLen(t, false)])
    ensures t[0] == '#' || IsDashed(t) || IsExecuted(t) || t == "/*"
  {
    hide LineTail;
    if t[0] == '-' && |t| > 2 {
      assert LineTail(t[2..], false) > 0 by {
        LineTailSome(t[2..]);
      }
    }
  }

  lemma LineTailSome(t: string)
    requires t != ""
    ensures LineTail(t, false) > 0
  {
  }

  /** A comment to the scanner that is none to MySQL, or none to SQLite. */
  lemma CommentDiffers(t: string, u: string)
    requires t != "" && !IsQuote(t[0]) && u != "" && u[0] == t[0] && CommentLen(t, false) > 0
    requires t[0] == '#' || IsDashed(t) || IsExecuted(t) || t == "/*"
    requires IsDashed(t) || IsExecuted(t) ==> |u| > 2 && u[1] == t[1] && u[2] == t[2]
    requires t == "/*" ==> u == t
    ensures SqliteRead(u) != MySqlUnits(t)
  {
    FirstUnit(t);
    FirstUnit(u);
    CommentKinds(t, u);
    hide MySqlUnits, SqliteRead, MySqlLead, SqliteLead;
  }

  lemma CommentKinds(t: string, u: string)
    requires t != "" && !IsQuote(t[0]) && u != "" && u[0] == t[0] && CommentLen(t, false) > 0
    requires t[0] == '#' || IsDashed(t) || IsExecuted(t) || t == "/*"
    requires IsDashed(t) || IsExecuted(t) ==> |u| > 2 && u[1] == t[1] && u[2] == t[2]
    requires t == "/*" ==> u == t
    ensures MySqlLead(t).kind in {Comment, Code} && SqliteLead(u).kind in {Comment, Code}
    ensures MySqlLead(t).kind != SqliteLead(u).kind
  {
    hide LineTail, BlockTail;
  }

  lemma UpToNulPrefix(t: string, k: nat)
    requires k <= |t| && NUL !in t[..k]
    ensures k <= |UpToNul(t)| && UpToNul(t)[..k] == t[..k]
  {
    UpToNulAppend(t[..k], t[k..]);
    assert t[..k] + t[k..] == t;
  }

  /** A token that is not kept is read differently. */
  lemma NotKeptDiffers(t: string, tok: Token, rest: string, y: string)
    requires t != "" && Lead(t, ByBytes) == tok && t == tok.text + rest && !Kept(tok)
    requires IsLiteral(tok) ==> |tok.text| >= 2
    requires rest == "" ==> y == ""
    ensures SqliteUnits(Rewrite(tok) + y) != MySqlUnits(t)
  {
    match tok.kind
    case Quoted => QuotedDiffers(t, tok, rest, y);
    case Comment => ScannedCommentDiffers(t, tok, rest, y);
    case Code => CodeDiffers(t, tok, rest, y);
  }

  lemma TokenNulDiffers(t: string, text: string, part: Part, out: string)
    requires t != "" && MySqlTokenUnits(MySqlLead(t)) == BytesIn(text, part) && NUL in text
    ensures SqliteUnits(out) != MySqlUnits(t)
  {
    var i :| 0 <= i < |text| && text[i] == NUL;
    assert HasNul(BytesIn(text, part)[i]);
    NulDiffers(t, out);
  }

  lemma CodeDiffers(t: string, tok: Token, rest: string, y: string)
    requires t != "" && Lead(t, ByBytes) == tok && tok.kind == Code && t == tok.text + rest && !Kept(tok)
    ensures SqliteUnits(tok.text + y) != MySqlUnits(t)
  {
    if NUL in tok.text {
      TokenNulDiffers(t, tok.text, InCode, tok.text + y);
    } else {
      UpToNulPrefix(tok.text + y, 1);
      FirstUnit(t);
      FirstUnit(UpToNul(tok.text + y));
    }
  }

  lemma ScannedCommentDiffers(t: string, tok: Token, rest: string, y: string)
    requires t != "" && Lead(t, ByBytes) == tok && tok.kind == Comment && t == tok.text + rest && !Kept(tok)
    requires rest == "" ==> y == ""
    ensures SqliteUnits(tok.text + y) != MySqlUnits(t)
  {
    var x := tok.text;
    if SharedComment(x) {
      TokenNulDiffers(t, x, InComment, x + y);
    } else {
      NotShared(t);
      var k := if IsDashed(t) || IsExecuted(t) then 3 else if t == "/*" then 2 else 1;
      CommentLong(t);
      assert (x + y)[..k] == t[..k];
      UpToNulPrefix(x + y, k);
      var u := UpToNul(x + y);
      assert t == "/*" ==> x + y == t;
      CommentDiffers(t, u);
    }
  }

  lemma CommentLong(t: string)
    requires t != "" && CommentLen(t, false) > 0
    ensures (IsDashed(t) || IsExecuted(t) ==> CommentLen(t, false) >= 3) && (t == "/*" ==> CommentLen(t, false) == 2)
  {
  }

  lemma QuotedDiffers(t: string, tok: Token, rest: string, y: string)
    requires t != "" && Lead(t, ByBytes) == tok && tok.kind == Quoted && t == tok.text + rest && !Kept(tok)
    requires IsLiteral(tok) ==> |tok.text| >= 2
    requires rest == "" ==> y == ""
    ensures SqliteUnits(Rewrite(tok) + y) != MySqlUnits(t)
  {
    hide Decode, SqliteLiteral, EscapesStand, NoEscapedQuote, QuoteTail, ClosedBody, MySqlValue, MySqlUnits, SqliteRead, UpToNul;
    var x := tok.text;
    var out := Rewrite(tok) + y;
    SpanEnds(tok, rest);
    if IsLiteral(tok) {
      if ClosedQuote(x) {
        assert HasNul(MySqlTokenUnits(MySqlLead(t))[0]);
        NulDiffers(t, out);
      } else {
        assert out == SqliteLiteral(Decode(Inner(x))) && x + "" == x;
        OpenLiteralDiffers(t);
      }
    } else if x[0] == '`' {
      TokenNulDiffers(t, x, InBacktick, out);
    } else if NUL in x {
      if ClosedQuote(x) {
        DoubleKeepsNul(x[1..]);
      }
      assert HasNul(MySqlTokenUnits(MySqlLead(t))[0]);
      NulDiffers(t, out);
    } else {
      UpToNulAppend(x, y);
      assert UpToNul("") == "" by { UpToNulNone(); }
      DoubleDiffers(t, tok, UpToNul(y));
    }
  }

  lemma UpToNulNone()
    ensures UpToNul("") == ""
  {
  }

  /** MySQL reads a kept token as the scanner does. */
  lemma KeptIsRead(t: string, tok: Token, rest: string)
    requires t != "" && Lead(t, ByBytes) == tok && t == tok.text + rest && Kept(tok)
    ensures MySqlUnits(t) == MySqlTokenUnits(tok) + MySqlUnits(rest)
  {
    hide QuoteTail, MySqlTokenUnits, EscapesStand, NoEscapedQuote, Decode, ClosedQuote;
    assert t[|tok.text|..] == rest;
    if CommentLen(t, false) > 0 {
      CommentLong(t);
    }
    hide CommentLen;
    assert MySqlLead(t) == tok;
  }

  lemma RewrittenNoNul(tok: Token)
    requires tok.text != "" && Kept(tok) && (IsLiteral(tok) ==> |tok.text| >= 2)
    ensures NUL !in Rewrite(tok)
  {
    if IsLiteral(tok) {
      LiteralMeans(tok.text);
      var v := Decode(Inner(tok.text));
      DoubledUpToNul(v);
      hide Decode, DoubleQuotes, UpToNul;
      assert NUL !in "'" + DoubleQuotes(v) + "'";
    }
  }

  /**
   * SQLite reads the rewritten text as MySQL reads the original exactly when every token is kept: all
   * literals, names, comments and code, for every text the pass accepts.
   */
  lemma {:induction false} LiteralsKeepMeaning(t: string)
    requires NoBareQuote(t)
    ensures SqliteUnits(TranslateLiterals(t)) == MySqlUnits(t) <==> AllKept(t)
    decreases |t|
  {
    hide SqliteRead, MySqlUnits, MySqlTokenUnits, Rewrite, Kept, Lead;
    if t == "" {
      NothingToRead();
      UpToNulNone();
    } else {
      var tok := Lead(t, ByBytes);
      var rest := t[|tok.text|..];
      assert t == tok.text + rest;
      var out := TranslateLiterals(rest);
      assert TranslateLiterals(t) == Rewrite(tok) + out;
      HeadKept(rest);
      if Kept(tok) {
        LiteralsKeepMeaning(rest);
        KeptIsRead(t, tok, rest);
        RewrittenNoNul(tok);
        hide UpToNul, TranslateLiterals, NoBareQuote;
        UpToNulAppend(Rewrite(tok), out);
        UpToNulHead(out);
        TokenKept(tok, rest, UpToNul(out));
        SamePrefix(MySqlTokenUnits(tok), SqliteUnits(out), MySqlUnits(rest));
      } else {
        NotKeptDiffers(t, tok, rest, out);
      }
    }
  }

  lemma UpToNulHead(t: string)
    ensures UpToNul(t) != "" ==> t != "" && UpToNul(t)[0] == t[0]
  {
  }

  // ---------------------------------------------------------------------------------------------
  // Literals written by a client driver
  // ---------------------------------------------------------------------------------------------

  /** How a MySQL client driver that interpolates parameters escapes a byte inside single quotes. */
  function ClientEscape(c: char): string {
    if c == 0 as char then "\\0"
    else if c == '\n' then "\\n"
    else if c == '\r' then "\\r"
    else if c == 26 as char then "\\Z"
    else if c == '\'' then "\\'"
    else if c == '"' then "\\\""
    else if c == '\\' then "\\\\"
    else [c]
  }

  function ClientBody(value: string): string {
    if value == "" then "" else ClientEscape(value[0]) + ClientBody(value[1..])
  }

  lemma ClientEscapeDecodes(c: char, rest: string)
    requires rest == "" || rest[0] != '\''
    ensures Decode(ClientEscape(c) + rest) == [c] + Decode(rest)
    ensures ClosedBody(rest + "'", '\'') ==> ClosedBody(ClientEscape(c) + rest + "'", '\'')
  {
    var e := ClientEscape(c);
    var t := e + rest;
    hide Decode, ClosedBody, Unescape;
    assert Decode(t) == HeadValue(t) + Decode(t[HeadLen(t)..]) by {
      DecodeHead(t);
    }
    Behind(e, rest, "'");
    if |e| == 2 {
      EscapedValue(c);
    }
    ClosedHead(t + "'");
  }

  lemma Behind(e: string, rest: string, end: string)
    ensures (e + rest)[|e|..] == rest && (e + rest + end)[|e|..] == rest + end
  {
  }

  lemma EscapedValue(c: char)
    requires |ClientEscape(c)| == 2
    ensures Unescape(ClientEscape(c)[1]) == [c]
  {
  }

  lemma ClosedHead(t: string)
    requires |t| > 1
    ensures t[0] == '\\' ==> ClosedBody(t, '\'') == ClosedBody(t[2..], '\'')
    ensures t[0] != '\\' && t[0] != '\'' ==> ClosedBody(t, '\'') == ClosedBody(t[1..], '\'')
  {
  }

  lemma {:induction false} DecodeClientBody(value: string)
    ensures Decode(ClientBody(value)) == value
    ensures ClosedBody(ClientBody(value) + "'", '\'')
    ensures ClientBody(value) == "" || ClientBody(value)[0] != '\''
  {
    if value != "" {
      DecodeClientBody(value[1..]);
      hide ClosedBody, Decode;
      ClientEscapeDecodes(value[0], ClientBody(value[1..]));
      assert value == [value[0]] + value[1..];
    }
  }

  /** Any value a driver writes as an escaped literal is that value to MySQL, and reaches SQLite so unless it has a zero byte. */
  lemma ClientLiteralRoundTrip(value: string)
    ensures var text := "'" + ClientBody(value) + "'";
            && NoBareQuote(text) && MySqlUnits(text) == [Literal(value)]
            && (SqliteUnits(TranslateLiterals(text)) == [Literal(value)] <==> NUL !in value)
  {
    var text := "'" + ClientBody(value) + "'";
    ClientLiteral(value);
    DecodeClientBody(value);
    OneLiteral(text, value);
    LiteralsKeepMeaning(text);
  }

  /** A text that is one closed literal. */
  lemma OneLiteral(text: string, value: string)
    requires text != "" && Lead(text, ByBytes) == Token(Quoted, text) && text[0] == '\'' && ClosedQuote(text) && Decode(Inner(text)) == value
    ensures NoBareQuote(text) && MySqlUnits(text) == [Literal(value)] && (AllKept(text) <==> NUL !in value)
  {
    hide QuoteTail, ClosedBody, Decode;
    assert text[|text|..] == "";
    LiteralMeans(text);
    hide MySqlValue;
    assert MySqlLead(text) == Lead(text, ByBytes);
    assert MySqlUnits(text) == MySqlTokenUnits(Token(Quoted, text)) + MySqlUnits("");
    assert AllKept(text) <==> Kept(Token(Quoted, text)) && AllKept("");
    NothingToRead();
    TranslateNothing();
    assert [Literal(value)] + [] == [Literal(value)];
    assert ClosedQuote(text) ==> |text| >= 2 by { ClosedLong(text); }
  }

  /** The client's literal is one closed token. */
  lemma ClientLiteral(value: string)
    ensures var text := "'" + ClientBody(value) + "'";
            Lead(text, ByBytes) == Token(Quoted, text) && Inner(text) == ClientBody(value) && ClosedQuote(text)
  {
    var body := ClientBody(value) + "'";
    var text := "'" + ClientBody(value) + "'";
    DecodeClientBody(value);
    hide ClientBody, QuoteTail, ClosedBody, CommentLen;
    assert text == "'" + body && text[1..] == body;
    ClosedBodyEnds(body, "", '\'');
    assert body + "" == body;
    assert text[..|text|] == text;
  }

  // ---------------------------------------------------------------------------------------------
  // Texts that are read differently
  // ---------------------------------------------------------------------------------------------

  /** The literal `'\0'`: SQLite sees an open quote. */
  lemma ZeroByteOpensLiteral()
    ensures var text := "'\\0'";
            NoBareQuote(text) && MySqlUnits(text) == [Literal([NUL])] && SqliteUnits(TranslateLiterals(text)) == [Open("'")]
  {
    var text := "'\\0'";
    var value := [NUL];
    assert value[1..] == "" && ClientBody(value) == "\\0" + ClientBody("");
    assert text == "'" + ClientBody(value) + "'";
    ClientLiteral(value);
    DecodeClientBody(value);
    OneLiteral(text, value);
    hide ClientBody, Decode, SqliteLiteral;
    assert TranslateLiterals(text) == SqliteLiteral(value) by {
      OneRewritten(text);
    }
    CutLiteral(value);
    NulAlone();
    QuoteAlone();
  }

  lemma OneRewritten(text: string)
    requires text != "" && Lead(text, ByBytes) == Token(Quoted, text) && text[0] == '\'' && |text| >= 2
    ensures NoBareQuote(text) && TranslateLiterals(text) == SqliteLiteral(Decode(Inner(text)))
  {
    hide Decode, SqliteLiteral, Inner;
    assert text[|text|..] == "";
    TranslateNothing();
    var out := SqliteLiteral(Decode(Inner(text)));
    assert out + "" == out;
  }

  lemma QuoteAlone()
    ensures SqliteRead("'") == [Open("'")]
  {
    NothingToRead();
    assert "'"[1..] == "" && "'"[..1] == "'";
    assert SqliteLead("'") == Token(Quoted, "'");
    assert [Open("'")] + [] == [Open("'")];
  }

  /** One byte of code, to the scanner, to MySQL and to SQLite. */
  lemma CodeByte(c: char, rest: string)
    requires !IsQuote(c) && c != '[' && c != NUL && c != '#' && c != '-' && c != '/' && NoBareQuote(rest)
    ensures var t := [c] + rest;
            && NoBareQuote(t) && TranslateLiterals(t) == [c] + TranslateLiterals(rest)
            && MySqlUnits(t) == BytesIn([c], InCode) + MySqlUnits(rest)
            && SqliteUnits([c] + TranslateLiterals(rest)) == BytesIn([c], InCode) + SqliteUnits(TranslateLiterals(rest))
  {
    var t := [c] + rest;
    var tok := Token(Code, [c]);
    assert t[..1] == [c] && t[1..] == rest && CommentLen(t, false) == 0;
    assert Lead(t, ByBytes) == tok;
    hide QuoteTail, Decode, SqliteRead, TranslateLiterals;
    KeptIsRead(t, tok, rest);
    HeadKept(rest);
    var out := TranslateLiterals(rest);
    UpToNulAppend([c], out);
    UpToNulHead(out);
    TokenKept(tok, rest, UpToNul(out));
  }

  lemma MySqlByte(c: char, rest: string)
    requires !IsQuote(c) && MySqlCommentLen([c] + rest) == 0
    ensures MySqlUnits([c] + rest) == [Byte(c, InCode)] + MySqlUnits(rest)
  {
    var t := [c] + rest;
    hide MySqlCommentLen;
    assert t[..1] == [c] && t[1..] == rest && MySqlLead(t) == Token(Code, [c]);
    assert BytesIn([c], InCode) == [Byte(c, InCode)];
  }

  lemma NoNulIsWhole(t: string)
    requires NUL !in t
    ensures UpToNul(t) == t
  {
    UpToNulAppend(t, "");
    UpToNulNone();
    assert t + "" == t;
  }

  /** `5--1` is 5 minus -1 to MySQL, and 5 before a comment to SQLite. */
  lemma DashesAreCode()
    ensures NoBareQuote("5--1") && MySqlUnits("5--1") == BytesIn("5", InCode) + BytesIn("--1", InCode)
    ensures SqliteUnits(TranslateLiterals("5--1")) == BytesIn("5", InCode) + BytesIn("--1", InComment)
  {
    hide MySqlUnits, SqliteUnits, TranslateLiterals, NoBareQuote, BytesIn;
    DashesRead();
    CodeByte('5', "--1");
    assert ['5'] + "--1" == "5--1";
  }

  lemma DashesRead()
    ensures NoBareQuote("--1") && TranslateLiterals("--1") == "--1"
    ensures MySqlUnits("--1") == BytesIn("--1", InCode) && SqliteUnits("--1") == BytesIn("--1", InComment)
  {
    DashesCopied();
    DashesToSqlite();
    hide MySqlUnits, SqliteUnits, TranslateLiterals, NoBareQuote;
    var one, two, three := ['1'] + "", ['-'] + "1", ['-'] + "-1";
    assert one == "1" && two == "-1" && three == "--1";
    MySqlByte('1', "");
    MySqlByte('-', "1");
    MySqlByte('-', "-1");
    NothingToRead();
  }

  lemma DashesComment()
    ensures CommentLen("--1", false) == 3
  {
    assert "--1"[2..] == "1" && "1"[1..] == "";
  }

  lemma DashesCopied()
    ensures NoBareQuote("--1") && TranslateLiterals("--1") == "--1"
  {
    DashesComment();
    hide CommentLen;
    var t := "--1";
    assert t[..3] == t && t[3..] == "";
    assert Lead(t, ByBytes) == Token(Comment, t);
    TranslateNothing();
    assert t + "" == t;
  }

  lemma DashesToSqlite()
    ensures SqliteUnits("--1") == BytesIn("--1", InComment)
  {
    DashesComment();
    hide CommentLen;
    var t := "--1";
    NoNulIsWhole(t);
    assert t[..3] == t && t + "" == t;
    NothingToRead();
    SqliteReadFrom(t, "", Token(Comment, t));
  }

  /** A quote in a `#` comment opens a literal to SQLite. */
  lemma HashCommentOpensLiteral()
    ensures NoBareQuote("#'") && MySqlUnits("#'") == BytesIn("#'", InComment)
    ensures SqliteUnits(TranslateLiterals("#'")) == BytesIn("#", InCode) + [Open("'")]
  {
    var t := "#'";
    HashLen();
    hide CommentLen;
    assert t[..2] == t && t[2..] == "" && t[..1] == "#" && t[1..] == "'";
    assert Lead(t, ByBytes) == Token(Comment, t) && MySqlLead(t) == Token(Comment, t) && SqliteLead(t) == Token(Code, "#");
    TranslateNothing();
    NothingToRead();
    NoNulIsWhole(t);
    assert t + "" == t && BytesIn(t, InComment) + [] == BytesIn(t, InComment);
    QuoteAlone();
  }

  lemma HashLen()
    ensures CommentLen("#'", false) == 2
  {
    assert "#'"[1..] == "'" && "'"[1..] == "";
  }
}
