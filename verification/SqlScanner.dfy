/**
 * The SQL scanner (pkg/mysqlmock/sqlscanner.go): every rewriting pass walks the text with the same
 * three moves - skip a quoted span, skip a comment, or take one code byte or identifier.
 *
 * `Lex` lists those moves as tokens.  The laws say that the tokens spell the text, that a token
 * depends on nothing but itself and the byte that follows it, and that the byte-wise and the
 * identifier-wise walks stay in step.
 */
module SqlScanner {
  import opened Text

  datatype Kind = Quoted | Comment | Word | Code

  datatype Token = Token(kind: Kind, text: string)

  /**
   * The walks taken over SQL text: byte by byte, identifier by identifier, and the walk of the
   * placeholder counter, which is byte by byte but also ends a line comment at a carriage return.
   */
  datatype Walk = ByBytes | ByWords | ByBytesCr

  predicate IsQuote(c: char) {
    c == '\'' || c == '"' || c == '`'
  }

  predicate IsIdentifierStart(c: char) {
    c == '_' || 'A' <= c <= 'Z' || 'a' <= c <= 'z'
  }

  predicate IsIdentifierPart(c: char) {
    IsIdentifierStart(c) || '0' <= c <= '9' || c == '$'
  }

  /** The classes of bytes by their ASCII codes; only letters have another case. */
  lemma CharacterClasses(c: char)
    ensures IsSpace(c) <==> c as int in [9, 10, 12, 13, 32]
    ensures IsBlank(c) <==> 9 <= c as int <= 13 || c as int == 32
    ensures IsDigit(c) <==> 48 <= c as int <= 57
    ensures IsQuote(c) <==> c as int in [34, 39, 96]
    ensures IsIdentifierStart(c) <==> 65 <= c as int <= 90 || 97 <= c as int <= 122 || c as int == 95
    ensures IsIdentifierPart(c) <==> IsIdentifierStart(c) || 48 <= c as int <= 57 || c as int == 36
    ensures UpperChar(c) as int == if 97 <= c as int <= 122 then c as int - 32 else c as int
    ensures LowerChar(c) as int == if 65 <= c as int <= 90 then c as int + 32 else c as int
  {
  }

  // ---------------------------------------------------------------------------------------------
  // Spans
  // ---------------------------------------------------------------------------------------------

  /** Bytes of `t` that belong to the quoted span whose opening `q` precedes `t`. */
  function QuoteTail(t: string, q: char): (n: nat)
    ensures n <= |t|
  {
    if t == "" then 0
    else if t[0] == '\\' && q != '`' && |t| > 1 then 2 + QuoteTail(t[2..], q)
    else if t[0] == q then
      if q != '`' && |t| > 1 && t[1] == q then 2 + QuoteTail(t[2..], q) else 1
    else 1 + QuoteTail(t[1..], q)
  }

  /** `x` is everything after the opening `q` of a span that is closed by its last byte. */
  predicate ClosedBody(x: string, q: char) {
    if x == "" then false
    else if x[0] == '\\' && q != '`' && |x| > 1 then ClosedBody(x[2..], q)
    else if x[0] == q then
      if q != '`' && |x| > 1 && x[1] == q then ClosedBody(x[2..], q) else |x| == 1
    else ClosedBody(x[1..], q)
  }

  /** A whole quoted span, opening and closing quote included. */
  predicate ClosedQuote(text: string) {
    text != "" && IsQuote(text[0]) && ClosedBody(text[1..], text[0])
  }

  /** Bytes up to and including the end of the line; with `cr` a carriage return ends one too. */
  function LineTail(t: string, cr: bool): (n: nat)
    ensures n <= |t|
  {
    if t == "" then 0
    else if t[0] == '\n' || (cr && t[0] == '\r') then 1
    else 1 + LineTail(t[1..], cr)
  }

  /** Bytes up to and including the closing star-slash. */
  function BlockTail(t: string): (n: nat)
    ensures n <= |t|
  {
    if |t| < 2 then |t|
    else if t[0] == '*' && t[1] == '/' then 2
    else 1 + BlockTail(t[1..])
  }

  /** Length of the comment `t` starts with, 0 if it starts with none. */
  function CommentLen(t: string, cr: bool): (n: nat)
    ensures n <= |t|
  {
    if |t| > 1 && t[0] == '-' && t[1] == '-' then 2 + LineTail(t[2..], cr)
    else if |t| > 0 && t[0] == '#' then 1 + LineTail(t[1..], cr)
    else if |t| > 1 && t[0] == '/' && t[1] == '*' then 2 + BlockTail(t[2..])
    else 0
  }

  /** Number of leading identifier bytes. */
  function PartTail(t: string): (n: nat)
    ensures n <= |t|
    ensures n < |t| ==> !IsIdentifierPart(t[n])
    ensures forall k :: 0 <= k < n ==> IsIdentifierPart(t[k])
  {
    if t == "" || !IsIdentifierPart(t[0]) then 0 else 1 + PartTail(t[1..])
  }

  /** readSQLIdentifier: length of the identifier `t` starts with, 0 if it starts with none. */
  function IdentifierLen(t: string): (n: nat)
    ensures n <= |t|
  {
    if t == "" || !IsIdentifierStart(t[0]) then 0 else 1 + PartTail(t[1..])
  }

  // ---------------------------------------------------------------------------------------------
  // Tokens
  // ---------------------------------------------------------------------------------------------

  /** The first move of a walk over `t`. */
  function Lead(t: string, walk: Walk): (tok: Token)
    requires t != ""
    ensures tok.text != "" && tok.text <= t
  {
    if IsQuote(t[0]) then Token(Quoted, t[..1 + QuoteTail(t[1..], t[0])])
    else if CommentLen(t, walk == ByBytesCr) > 0 then Token(Comment, t[..CommentLen(t, walk == ByBytesCr)])
    else if walk == ByWords && IdentifierLen(t) > 0 then Token(Word, t[..IdentifierLen(t)])
    else Token(Code, t[..1])
  }

  function Lex(t: string, walk: Walk): seq<Token>
    decreases |t|
  {
    if t == "" then [] else [Lead(t, walk)] + Lex(t[|Lead(t, walk).text|..], walk)
  }

  function Flatten(toks: seq<Token>): string {
    if toks == [] then "" else toks[0].text + Flatten(toks[1..])
  }

  /** `tok` is the move a walk makes when the text from here on is `tok.text + rest`. */
  predicate Sits(tok: Token, rest: string, walk: Walk) {
    tok.text != "" && Lead(tok.text + rest, walk) == tok
  }

  /** A blank after `tok` is not swallowed by it. */
  predicate Closed(tok: Token, walk: Walk) {
    Sits(tok, " ", walk)
  }

  predicate Settled(toks: seq<Token>, walk: Walk) {
    toks == [] || (Sits(toks[0], Flatten(toks[1..]), walk) && Settled(toks[1..], walk))
  }

  /** The tokens of a text spell the text, and each is the move the walk makes there. */
  lemma {:induction false} LexSpells(t: string, walk: Walk)
    ensures Flatten(Lex(t, walk)) == t
    ensures Settled(Lex(t, walk), walk)
    decreases |t|
  {
    if t != "" {
      var tok := Lead(t, walk);
      LexSpells(t[|tok.text|..], walk);
      assert t == tok.text + t[|tok.text|..];
      assert Lex(t, walk)[1..] == Lex(t[|tok.text|..], walk);
    }
  }

  /** Tokens that sit where they are put are read back unchanged. */
  lemma {:induction false} Relex(toks: seq<Token>, walk: Walk)
    requires Settled(toks, walk)
    ensures Lex(Flatten(toks), walk) == toks
  {
    if toks != [] {
      Relex(toks[1..], walk);
      var t := Flatten(toks);
      assert t[|toks[0].text|..] == Flatten(toks[1..]);
      assert toks == [toks[0]] + toks[1..];
    }
  }

  // ---------------------------------------------------------------------------------------------
  // Locality: a token depends on itself and on one byte of look-ahead
  // ---------------------------------------------------------------------------------------------

  /** A closed body ends the span unless the next byte doubles the closing quote. */
  lemma {:induction false} ClosedBodyEnds(x: string, y: string, q: char)
    requires IsQuote(q) && ClosedBody(x, q)
    requires y == "" || q == '`' || y[0] != q
    ensures QuoteTail(x + y, q) == |x|
  {
    var t := x + y;
    if x[0] == '\\' && q != '`' && |x| > 1 {
      assert t[2..] == x[2..] + y;
      ClosedBodyEnds(x[2..], y, q);
    } else if x[0] == q {
      if q != '`' && |x| > 1 && x[1] == q {
        assert t[2..] == x[2..] + y;
        ClosedBodyEnds(x[2..], y, q);
      }
    } else {
      assert t[1..] == x[1..] + y;
      ClosedBodyEnds(x[1..], y, q);
    }
  }

  /** A span that ends before the text does is closed, and its closing quote is not doubled. */
  lemma {:induction false} ShortSpanIsClosed(x: string, y: string, q: char)
    requires y != "" && QuoteTail(x + y, q) == |x|
    ensures ClosedBody(x, q)
    ensures q == '`' || y[0] != q
  {
    var t := x + y;
    if t[0] == '\\' && q != '`' && |t| > 1 {
      assert t[2..] == x[2..] + y;
      ShortSpanIsClosed(x[2..], y, q);
    } else if t[0] == q {
      if q != '`' && |t| > 1 && t[1] == q {
        assert t[2..] == x[2..] + y;
        ShortSpanIsClosed(x[2..], y, q);
      }
    } else {
      assert t[1..] == x[1..] + y;
      ShortSpanIsClosed(x[1..], y, q);
    }
  }

  lemma {:induction false} LineTailLocal(x: string, y: string, z: string, cr: bool)
    requires y != "" && LineTail(x + y, cr) == |x|
    ensures LineTail(x + z, cr) == |x|
  {
    if x != "" {
      assert (x + y)[1..] == x[1..] + y;
      assert (x + z)[1..] == x[1..] + z;
      if !(x[0] == '\n' || (cr && x[0] == '\r')) {
        LineTailLocal(x[1..], y, z, cr);
      }
    }
  }

  lemma {:induction false} BlockTailLocal(x: string, y: string, z: string)
    requires y != "" && BlockTail(x + y) == |x|
    ensures BlockTail(x + z) == |x|
  {
    if x != "" {
      assert (x + y)[1..] == x[1..] + y;
      assert (x + z)[1..] == x[1..] + z;
      if |x| > 1 && !(x[0] == '*' && x[1] == '/') {
        BlockTailLocal(x[1..], y, z);
      }
    }
  }

  lemma {:induction false} PartTailLocal(x: string, y: string, z: string)
    requires PartTail(x + y) == |x|
    requires z == "" || !IsIdentifierPart(z[0])
    ensures PartTail(x + z) == |x|
  {
    if x != "" {
      assert (x + y)[1..] == x[1..] + y;
      assert (x + z)[1..] == x[1..] + z;
      PartTailLocal(x[1..], y, z);
    }
  }

  /** The byte after a token may be followed by anything, and may be replaced by a blank. */
  lemma SitsNext(tok: Token, y: string, z: string, walk: Walk)
    requires Sits(tok, y, walk) && y != "" && z != "" && (z[0] == y[0] || z[0] == ' ')
    ensures Sits(tok, z, walk)
  {
    var x := tok.text;
    TailAfterFirst(x, y, z);
    match tok.kind
    case Quoted =>
      ShortSpanIsClosed(x[1..], y, x[0]);
      ClosedBodyEnds(x[1..], z, x[0]);
    case Comment => CommentLocal(x, y, z, walk == ByBytesCr);
    case Word =>
      NoComment(x, y, z, walk == ByBytesCr);
      PartTailLocal(x[1..], y, z);
    case Code => NoComment(x, y, z, walk == ByBytesCr);
  }

  lemma TailAfterFirst(x: string, y: string, z: string)
    requires x != ""
    ensures (x + y)[1..] == x[1..] + y && (x + z)[1..] == x[1..] + z
    ensures (x + y)[0] == x[0] && (x + z)[0] == x[0]
    ensures |x| > 1 ==> (x + y)[2..] == x[2..] + y && (x + z)[2..] == x[2..] + z
  {
  }

  /** A comment that something follows is closed. */
  lemma CommentLocal(x: string, y: string, z: string, cr: bool)
    requires x != "" && y != "" && CommentLen(x + y, cr) == |x|
    ensures CommentLen(x + z, cr) == |x|
  {
    TailAfterFirst(x, y, z);
    var t := x + y;
    if t[0] == '-' && t[1] == '-' {
      LineTailLocal(x[2..], y, z, cr);
    } else if t[0] == '#' {
      LineTailLocal(x[1..], y, z, cr);
    } else {
      BlockTailLocal(x[2..], y, z);
    }
  }

  /** Code stays code when the byte after it is kept or replaced by a blank. */
  lemma NoComment(x: string, y: string, z: string, cr: bool)
    requires x != "" && CommentLen(x + y, cr) == 0
    requires y != "" && z != "" && (z[0] == y[0] || z[0] == ' ')
    ensures CommentLen(x + z, cr) == 0
  {
    var t, u := x + y, x + z;
    assert t[0] == u[0] == x[0];
    assert |x| == 1 ==> t[1] == y[0] && u[1] == z[0];
    assert |x| > 1 ==> t[1] == u[1] == x[1];
  }

  /** A token may also be the last one. */
  lemma SitsAtEnd(tok: Token, y: string, walk: Walk)
    requires Sits(tok, y, walk)
    ensures Sits(tok, "", walk)
  {
    var x := tok.text;
    assert x + "" == x;
    if y == "" {
      return;
    }
    TailAfterFirst(x, y, "");
    hide QuoteTail, ClosedBody, LineTail, BlockTail, PartTail;
    match tok.kind
    case Quoted =>
      ShortSpanIsClosed(x[1..], y, x[0]);
      ClosedBodyEnds(x[1..], "", x[0]);
    case Comment => CommentLocal(x, y, "", walk == ByBytesCr);
    case Word =>
      assert CommentLen(x + y, walk == ByBytesCr) == 0;
      PartTailLocal(x[1..], y, "");
    case Code =>
  }

  lemma FlattenAppend(a: seq<Token>, b: seq<Token>)
    ensures Flatten(a + b) == Flatten(a) + Flatten(b)
  {
    if a == [] {
      assert a + b == b;
    } else {
      assert (a + b)[1..] == a[1..] + b;
      FlattenAppend(a[1..], b);
    }
  }

  lemma FlattenFirst(toks: seq<Token>, rest: seq<Token>, walk: Walk)
    requires toks != [] && Settled(toks, walk)
    ensures Flatten(toks) != "" && Flatten(toks + rest) != "" && Flatten(toks)[0] == Flatten(toks + rest)[0]
  {
    FlattenAppend(toks, rest);
  }

  /** Cutting a text between two tokens changes no token on either side of the cut. */
  lemma {:induction false} SettledCut(a: seq<Token>, b: seq<Token>, walk: Walk)
    requires Settled(a + b, walk)
    ensures Settled(a, walk) && Settled(b, walk)
  {
    if a == [] {
      assert a + b == b;
    } else {
      assert (a + b)[1..] == a[1..] + b;
      SettledCut(a[1..], b, walk);
      var tok := a[0];
      if a[1..] == [] {
        SitsAtEnd(tok, Flatten(a[1..] + b), walk);
      } else {
        FlattenFirst(a[1..], b, walk);
        SitsNext(tok, Flatten(a[1..] + b), Flatten(a[1..]), walk);
      }
    }
  }

  /** Locality of spans: a slice that starts and ends between tokens has the tokens of the slice. */
  lemma LexSlice(t: string, a: seq<Token>, b: seq<Token>, c: seq<Token>, walk: Walk)
    requires Lex(t, walk) == a + b + c
    ensures t == Flatten(a) + Flatten(b) + Flatten(c)
    ensures Lex(Flatten(b), walk) == b
  {
    LexSpells(t, walk);
    FlattenAppend(a, b);
    FlattenAppend(a + b, c);
    SettledCut(a + b, c, walk);
    SettledCut(a, b, walk);
    Relex(b, walk);
  }

  // ---------------------------------------------------------------------------------------------
  // The walks stay in step
  // ---------------------------------------------------------------------------------------------

  function CodeBytes(s: string): seq<Token> {
    if s == "" then [] else [Token(Code, s[..1])] + CodeBytes(s[1..])
  }

  /** Each identifier spread out into its bytes. */
  function Spread(toks: seq<Token>): seq<Token> {
    if toks == [] then []
    else (if toks[0].kind == Word then CodeBytes(toks[0].text) else [toks[0]]) + Spread(toks[1..])
  }

  lemma PartLead(x: string, y: string)
    requires x != "" && IsIdentifierPart(x[0])
    ensures Lex(x + y, ByBytes) == [Token(Code, x[..1])] + Lex(x[1..] + y, ByBytes)
  {
    assert (x + y)[1..] == x[1..] + y && (x + y)[..1] == x[..1];
    assert Lead(x + y, ByBytes) == Token(Code, x[..1]);
  }

  lemma {:induction false} IdentifierBytes(x: string, y: string)
    requires forall c :: c in x ==> IsIdentifierPart(c)
    ensures Lex(x + y, ByBytes) == CodeBytes(x) + Lex(y, ByBytes)
  {
    if x != "" {
      assert x[0] in x;
      IdentifierBytes(x[1..], y);
      PartLead(x, y);
    } else {
      assert x + y == y;
    }
  }

  /** The identifier-wise walk visits the same quotes, comments and code bytes as the byte-wise one. */
  lemma {:induction false} WalksInStep(t: string)
    ensures Lex(t, ByBytes) == Spread(Lex(t, ByWords))
    decreases |t|
  {
    if t != "" {
      var tok := Lead(t, ByWords);
      var rest := t[|tok.text|..];
      WalksInStep(rest);
      assert Lex(t, ByWords)[1..] == Lex(rest, ByWords);
      if tok.kind == Word {
        LeadWordIsParts(t);
        IdentifierBytes(tok.text, rest);
        assert t == tok.text + rest;
      } else {
        assert Lead(t, ByBytes) == tok;
      }
    }
  }

  lemma LeadWordIsParts(t: string)
    requires t != "" && Lead(t, ByWords).kind == Word
    ensures forall c :: c in Lead(t, ByWords).text ==> IsIdentifierPart(c)
  {
    var word := Lead(t, ByWords).text;
    forall k | 0 < k < |word|
      ensures IsIdentifierPart(word[k])
    {
      assert word[k] == t[1..][k - 1];
    }
  }

  // ---------------------------------------------------------------------------------------------
  // The scanner's loops
  // ---------------------------------------------------------------------------------------------

  /** Slices of what follows a position. */
  lemma Suffix(s: string, i: nat, n: nat)
    requires i + n <= |s|
    ensures s[i..][n..] == s[i + n..] && s[i..][..n] == s[i..i + n]
  {
  }

  /** One move of a loop that walks `s` by position. */
  lemma LexFrom(s: string, i: nat, end: nat, walk: Walk)
    requires i < end <= |s| && Lead(s[i..], walk).text == s[i..end]
    ensures Lex(s[i..], walk) == [Lead(s[i..], walk)] + Lex(s[end..], walk)
    ensures Lex(s[i..], walk)[1..] == Lex(s[end..], walk)
  {
    assert s[i..][end - i..] == s[end..];
  }

  /** The move over one code byte. */
  lemma LexCode(s: string, i: nat)
    requires i < |s| && !IsQuote(s[i]) && CommentLen(s[i..], false) == 0
    ensures Lead(s[i..], ByBytes) == Token(Code, [s[i]])
    ensures Lex(s[i..], ByBytes) == [Token(Code, [s[i]])] + Lex(s[i + 1..], ByBytes)
    ensures Lex(s[i..], ByBytes)[1..] == Lex(s[i + 1..], ByBytes)
  {
    assert s[i..][..1] == [s[i]] == s[i..i + 1];
    LexFrom(s, i, i + 1, ByBytes);
  }

  method QuoteEnd(s: string, start: nat, quote: char) returns (end: nat)
    requires start <= |s|
    ensures end == start + QuoteTail(s[start..], quote)
  {
    var i := start;
    while i < |s|
      invariant start <= i <= |s|
      invariant start + QuoteTail(s[start..], quote) == i + QuoteTail(s[i..], quote)
    {
      assert s[i..][1..] == s[i + 1..];
      if s[i] == '\\' && quote != '`' && i + 1 < |s| {
        assert s[i..][2..] == s[i + 2..];
        i := i + 2;
        continue;
      }
      if s[i] == quote {
        if quote != '`' && i + 1 < |s| && s[i + 1] == quote {
          assert s[i..][2..] == s[i + 2..];
          i := i + 2;
          continue;
        }
        return i + 1;
      }
      i := i + 1;
    }
    return |s|;
  }

  method QuotedSqlSpan(s: string, pos: nat) returns (end: nat, ok: bool)
    ensures ok <==> pos < |s| && IsQuote(s[pos])
    ensures !ok ==> end == pos
    ensures ok ==> pos < end <= |s|
    ensures ok ==> Lead(s[pos..], ByBytes) == Lead(s[pos..], ByWords) == Token(Quoted, s[pos..end])
  {
    if pos >= |s| {
      return pos, false;
    }
    var quote := s[pos];
    if quote != '\'' && quote != '"' && quote != '`' {
      return pos, false;
    }
    end := QuoteEnd(s, pos + 1, quote);
    assert s[pos..][1..] == s[pos + 1..];
    assert s[pos..][..end - pos] == s[pos..end];
    ok := true;
  }

  /** The end of the line that `start` is on, past its newline if there is one. */
  method EndOfLine(s: string, start: nat) returns (end: nat)
    requires start <= |s|
    ensures end == start + LineTail(s[start..], false)
  {
    var i := start;
    while i < |s| && s[i] != '\n'
      invariant start <= i <= |s|
      invariant start + LineTail(s[start..], false) == i + LineTail(s[i..], false)
    {
      assert s[i..][1..] == s[i + 1..];
      i := i + 1;
    }
    if i < |s| {
      i := i + 1;
    }
    end := i;
  }

  method SqlCommentSpan(s: string, pos: nat) returns (end: nat, ok: bool)
    requires pos < |s|
    ensures ok <==> CommentLen(s[pos..], false) > 0
    ensures end == pos + CommentLen(s[pos..], false)
    ensures ok ==> pos < end <= |s|
    ensures ok && !IsQuote(s[pos]) ==> Lead(s[pos..], ByBytes) == Lead(s[pos..], ByWords) == Token(Comment, s[pos..end])
  {
    assert s[pos..][1..] == s[pos + 1..];
    if pos + 1 < |s| {
      assert s[pos..][2..] == s[pos + 2..];
      if s[pos] == '-' && s[pos + 1] == '-' {
        end := EndOfLine(s, pos + 2);
        return end, true;
      }
    }
    if s[pos] == '#' {
      end := EndOfLine(s, pos + 1);
      return end, true;
    }
    if pos + 1 < |s| && s[pos] == '/' && s[pos + 1] == '*' {
      var i := pos + 2;
      ghost var tail := i + BlockTail(s[i..]);
      while i + 1 < |s| && !(s[i] == '*' && s[i + 1] == '/')
        invariant pos + 2 <= i <= |s|
        invariant tail == i + BlockTail(s[i..])
      {
        assert s[i..][1..] == s[i + 1..];
        i := i + 1;
      }
      if i + 1 < |s| {
        i := i + 2;
      } else {
        i := |s|;
      }
      return i, true;
    }
    return pos, false;
  }

  /**
   * The opening moves of every scanning loop: a quoted span or else a comment is skipped whole;
   * anything else is left to the loop (`ok` false, `end` one byte on).
   */
  method SpanAt(s: string, i: nat) returns (end: nat, ok: bool)
    requires i < |s|
    ensures i < end <= |s|
    ensures Lead(s[i..], ByBytes).text == s[i..end]
    ensures ok <==> Lead(s[i..], ByBytes).kind != Code
    ensures ok ==> Lead(s[i..], ByWords) == Lead(s[i..], ByBytes)
    ensures !ok ==> end == i + 1 && Lead(s[i..], ByBytes) == Token(Code, [s[i]])
    ensures !ok ==> !IsQuote(s[i]) && CommentLen(s[i..], false) == 0
  {
    end, ok := QuotedSqlSpan(s, i);
    if !ok {
      end, ok := SqlCommentSpan(s, i);
    }
    if !ok {
      LexCode(s, i);
      end := i + 1;
    }
  }

  method ReadSqlIdentifier(s: string, pos: nat) returns (word: string, end: nat, ok: bool)
    requires pos <= |s|
    ensures ok <==> IdentifierLen(s[pos..]) > 0
    ensures end == pos + IdentifierLen(s[pos..])
    ensures word == s[pos..end]
  {
    if pos >= |s| || !IsIdentifierStart(s[pos]) {
      return "", pos, false;
    }
    assert s[pos..][1..] == s[pos + 1..];
    end := pos + 1;
    while end < |s| && IsIdentifierPart(s[end])
      invariant pos < end <= |s|
      invariant pos + 1 + PartTail(s[pos + 1..]) == end + PartTail(s[end..])
    {
      assert s[end..][1..] == s[end + 1..];
      end := end + 1;
    }
    return s[pos..end], end, true;
  }

  /** Where no quote or comment starts, the identifier-wise walk reads an identifier or one byte. */
  lemma LeadWord(s: string, i: nat)
    requires i < |s| && !IsQuote(s[i]) && CommentLen(s[i..], false) == 0
    ensures var n := IdentifierLen(s[i..]);
            Lead(s[i..], ByWords) == if n > 0 then Token(Word, s[i..i + n]) else Token(Code, s[i..i + 1])
    ensures IdentifierLen(s[i..]) > 0 <==> IsIdentifierStart(s[i])
  {
    var n := IdentifierLen(s[i..]);
    assert s[i..][..n] == s[i..i + n] && s[i..][..1] == s[i..i + 1];
  }

  /** Number of leading white-space bytes. */
  function SpaceLen(t: string): (n: nat)
    ensures n <= |t|
    ensures n < |t| ==> !IsSpace(t[n])
  {
    if t == "" || !IsSpace(t[0]) then 0 else 1 + SpaceLen(t[1..])
  }

  method SkipSqlSpaces(s: string, pos: nat) returns (end: nat)
    requires pos <= |s|
    ensures end == pos + SpaceLen(s[pos..])
  {
    end := pos;
    while end < |s| && IsSpace(s[end])
      invariant pos <= end <= |s|
      invariant pos + SpaceLen(s[pos..]) == end + SpaceLen(s[end..])
    {
      assert s[end..][1..] == s[end + 1..];
      end := end + 1;
    }
  }
}
