/**
 * Making MySQL's default LIKE escape explicit for SQLite (translateMySQLLikeDefaultEscape of
 * pkg/mysqlmock/mysql_syntax_compat.go): ` ESCAPE char(92)` is written where a LIKE predicate
 * without an ESCAPE of its own ends.
 */
module LikeEscape {
  import opened Text
  import opened SqlScanner
  import opened SqlSplitting
  import opened TokenLists

  /** " ESCAPE char(92)" */
  const FRAGMENT := " " + ("ESCAPE" + (" " + "char(92)"))

  /** The fragment as the scanner reads it. */
  function Fragment(): (r: seq<Token>)
    ensures |r| == 8
  {
    [Token(Code, " ")] + ([Token(Word, "ESCAPE")] + ([Token(Code, " ")] + CharCall()))
  }

  function CharCall(): (r: seq<Token>)
    ensures |r| == 5
  {
    [Token(Word, "char")] + ([Token(Code, "(")] + ([Token(Code, "9")] + ([Token(Code, "2")] + [Token(Code, ")")])))
  }

  /** The pass's variables: a LIKE read at `pendingDepth` whose predicate has not ended yet. */
  datatype LikeState = LikeState(pending: bool, pendingDepth: nat, hasEscape: bool, depth: nat) {

    predicate AtLike() {
      pending && depth == pendingDepth
    }

    /** insertEscape: is there anything to write? */
    predicate Unescaped() {
      pending && !hasEscape
    }

    function Done(): LikeState {
      this.(pending := false, hasEscape := false)
    }

    predicate Valid() {
      pending ==> pendingDepth <= depth
    }

    /** A LIKE left open inside a parenthesis that never closes. */
    predicate Dangling() {
      Unescaped() && depth != pendingDepth
    }
  }

  const START := LikeState(false, 0, false, 0)

  predicate IsTerminator(upper: string) {
    upper in {"AND", "OR", "ORDER", "GROUP", "HAVING", "LIMIT", "UNION", "EXCEPT", "INTERSECT"}
  }

  /** Tokens that end a LIKE predicate read at the current depth. */
  predicate EndsPredicate(tok: Token) {
    if tok.kind == Word then IsTerminator(Upper(tok.text))
    else IsCode(tok, ')') || IsCode(tok, ',') || IsCode(tok, ';')
  }

  predicate Inserts(tok: Token, st: LikeState) {
    st.AtLike() && st.Unescaped() && EndsPredicate(tok)
  }

  function Next(tok: Token, st: LikeState): LikeState {
    if tok.kind == Word then
      var upper := Upper(tok.text);
      var st' := if st.AtLike() && upper == "ESCAPE" then st.(hasEscape := true)
                 else if st.AtLike() && IsTerminator(upper) then st.Done()
                 else st;
      if upper == "LIKE" then st'.(pending := true, pendingDepth := st.depth, hasEscape := false) else st'
    else
      var st' := if st.AtLike() && EndsPredicate(tok) then st.Done() else st;
      st'.(depth := DepthAfter(tok, st.depth))
  }

  function Run(toks: seq<Token>, st: LikeState): LikeState {
    if toks == [] then st else Run(toks[1..], Next(toks[0], st))
  }

  /** The tokens written for `toks`, read from state `st`. */
  function Escaped(toks: seq<Token>, st: LikeState): seq<Token> {
    if toks == [] then if st.Unescaped() then Fragment() else []
    else
      var later := [toks[0]] + Escaped(toks[1..], Next(toks[0], st));
      if Inserts(toks[0], st) then Fragment() + later else later
  }

  /** The loop of translateMySQLLikeDefaultEscape. */
  function InsertEscapes(t: string): string {
    Flatten(Escaped(Lex(t, ByWords), START))
  }

  /** strings.Fields */
  function Fields(s: string): seq<string>
    decreases |s|
  {
    var t := TrimLeft(s);
    if t == "" then [] else [t[..FieldLen(t)]] + Fields(t[FieldLen(t)..])
  }

  function FieldLen(t: string): (n: nat)
    ensures n <= |t| && (t != "" && !IsBlank(t[0]) ==> n > 0)
  {
    if t == "" || IsBlank(t[0]) then 0 else 1 + FieldLen(t[1..])
  }

  function NormalizeSql(s: string): string {
    Join(Fields(TrimSemicolon(TrimSpace(s))), " ")
  }

  predicate OpensStatement(upper: string) {
    HasPrefix(upper, "SELECT ") || HasPrefix(upper, "WITH ") || HasPrefix(upper, "UPDATE ") ||
    HasPrefix(upper, "DELETE ") || HasPrefix(upper, "INSERT ")
  }

  predicate CanContainLike(s: string) {
    OpensStatement(Upper(NormalizeSql(s)))
  }

  /** translateMySQLLikeDefaultEscape */
  function LikePass(t: string): string {
    if CanContainLike(t) then InsertEscapes(t) else t
  }

  // ---------------------------------------------------------------------------------------------
  // Which statements can have a LIKE
  // ---------------------------------------------------------------------------------------------

  /** The first field of the text, with white space behind it. */
  predicate FirstField(t: string, i: nat, j: nat) {
    && i < j < |t| && IsBlank(t[j])
    && (forall k :: 0 <= k < i ==> IsBlank(t[k])) && (forall k :: i <= k < j ==> !IsBlank(t[k]))
  }

  /** A byte that is seen, other than a semicolon that ends the text. */
  predicate SeenAt(t: string, k: int) {
    0 <= k < |t| && !IsBlank(t[k]) && !(t[k] == ';' && forall m :: k < m < |t| ==> IsBlank(t[m]))
  }

  lemma FieldsFirst(u: string)
    requires u != "" && !IsBlank(u[0])
    ensures var n := FieldLen(u);
            && 0 < n <= |u| && (n < |u| ==> IsBlank(u[n])) && (forall k :: 0 <= k < n ==> !IsBlank(u[k]))
            && Fields(u) == [u[..n]] + Fields(u[n..])
  {
    FieldEnds(u);
    assert TrimLeft(u) == u;
  }

  lemma {:induction false} FieldEnds(u: string)
    ensures FieldLen(u) < |u| ==> IsBlank(u[FieldLen(u)])
    ensures forall k :: 0 <= k < FieldLen(u) ==> !IsBlank(u[k])
  {
    if u != "" && !IsBlank(u[0]) {
      FieldEnds(u[1..]);
      assert FieldLen(u) < |u| ==> u[FieldLen(u)] == u[1..][FieldLen(u[1..])];
      forall k | 0 <= k < FieldLen(u) ensures !IsBlank(u[k]) {
        if k > 0 {
          assert u[k] == u[1..][k - 1];
        }
      }
    }
  }

  lemma {:induction false} NoFieldsLeft(s: string)
    ensures Fields(s) == [] <==> forall k :: 0 <= k < |s| ==> IsBlank(s[k])
  {
    hide FieldLen;
    LeftOfBlanks(s);
  }

  lemma {:induction false} LeftOfBlanks(s: string)
    ensures forall k :: 0 <= k < |s| - |TrimLeft(s)| ==> IsBlank(s[k])
  {
    if s != "" && IsBlank(s[0]) {
      LeftOfBlanks(s[1..]);
      forall k | 0 <= k < |s| - |TrimLeft(s)| ensures IsBlank(s[k]) {
        if k > 0 {
          assert s[k] == s[1..][k - 1];
        }
      }
    }
  }

  lemma {:induction false} RightOfBlanks(s: string)
    ensures forall k :: |TrimRight(s)| <= k < |s| ==> IsBlank(s[k])
  {
    if s != "" && IsBlank(s[|s| - 1]) {
      RightOfBlanks(s[..|s| - 1]);
    }
  }

  /** A field in front of a blank is compared with the word as a whole. */
  lemma FieldIsWord(w: string, x: string, word: string)
    requires forall c :: c in w || c in word ==> !IsBlank(c)
    ensures HasPrefix(Upper(w + (" " + x)), word + " ") <==> Upper(w) == word
    ensures !HasPrefix(Upper(w), word + " ")
  {
    var upper := Upper(w + (" " + x));
    assert forall k :: 0 <= k < |w| ==> upper[k] == UpperChar(w[k]) && Upper(w)[k] == UpperChar(w[k]) && w[k] in w;
    assert upper[|w|] == ' ';
    assert forall k :: 0 <= k < |word| ==> word[k] in word;
    assert HasPrefix(upper, word + " ") ==> upper[|word|] == (word + " ")[|word|];
    assert (word + " ")[|word|] == ' ';
    if HasPrefix(upper, word + " ") {
      assert upper[..|word|] == word;
    }
    if Upper(w) == word {
      assert upper[..|w| + 1] == word + " ";
    }
  }

  predicate StatementWord(upper: string) {
    upper in ["SELECT", "WITH", "UPDATE", "DELETE", "INSERT"]
  }

  lemma WordOpens(w: string, x: string)
    requires forall c :: c in w ==> !IsBlank(c)
    ensures OpensStatement(Upper(w + (" " + x))) <==> StatementWord(Upper(w))
    ensures !OpensStatement(Upper(w))
  {
    FieldIsWord(w, x, "SELECT");
    FieldIsWord(w, x, "WITH");
    FieldIsWord(w, x, "UPDATE");
    FieldIsWord(w, x, "DELETE");
    FieldIsWord(w, x, "INSERT");
    assert "SELECT" + " " == "SELECT " && "WITH" + " " == "WITH " && "UPDATE" + " " == "UPDATE ";
    assert "DELETE" + " " == "DELETE " && "INSERT" + " " == "INSERT ";
    hide Upper, HasPrefix;
    var upper := Upper(w);
    assert StatementWord(upper) <==>
           upper == "SELECT" || upper == "WITH" || upper == "UPDATE" || upper == "DELETE" || upper == "INSERT";
  }

  lemma FieldsJoined(u: string, n: nat)
    requires n <= |u| && Fields(u) == [u[..n]] + Fields(u[n..])
    ensures Join(Fields(u), " ") == if Fields(u[n..]) == [] then u[..n] else u[..n] + (" " + Join(Fields(u[n..]), " "))
  {
    hide Fields;
    assert Fields(u)[1..] == Fields(u[n..]);
  }

  /** A text that starts with a field has a LIKE to look for if the field is a statement's and is not the last. */
  lemma FieldOpens(u: string)
    requires u != "" && !IsBlank(u[0])
    ensures OpensStatement(Upper(Join(Fields(u), " "))) <==>
              StatementWord(Upper(u[..FieldLen(u)])) && exists k :: FieldLen(u) < k < |u| && !IsBlank(u[k])
  {
    var n := FieldLen(u);
    FieldsFirst(u);
    NoFieldsLeft(u[n..]);
    MoreBehind(u, n);
    FieldsJoined(u, n);
    hide Fields, FieldLen, OpensStatement, StatementWord, Upper, IsBlank, Join;
    WordOpens(u[..n], Join(Fields(u[n..]), " "));
  }

  lemma MoreBehind(u: string, n: nat)
    requires n <= |u| && (n < |u| ==> IsBlank(u[n]))
    ensures (exists k :: 0 <= k < |u[n..]| && !IsBlank(u[n..][k])) <==> (exists k :: n < k < |u| && !IsBlank(u[k]))
  {
    if k :| 0 <= k < |u[n..]| && !IsBlank(u[n..][k]) {
      assert u[n + k] == u[n..][k];
    }
    if k :| n < k < |u| && !IsBlank(u[k]) {
      assert u[k] == u[n..][k - n];
    }
  }

  /** The text without the blanks around it. */
  lemma Spaced(t: string) returns (a: nat, e: nat)
    ensures a <= e <= |t| && TrimSpace(t) == t[a..e]
    ensures forall k :: 0 <= k < a || e <= k < |t| ==> IsBlank(t[k])
    ensures a < e ==> !IsBlank(t[a]) && !IsBlank(t[e - 1])
  {
    hide IsBlank, TrimLeft, TrimRight;
    var t1 := TrimLeft(t);
    a := |t| - |t1|;
    LeftOfBlanks(t);
    RightOfBlanks(t1);
    var n := |TrimRight(t1)|;
    e := a + n;
    assert TrimRight(t1) == t1[..n];
    TailAt(t, a, n);
    assert n > 0 ==> t1[..n][n - 1] == t1[n - 1];
  }

  lemma TailAt(t: string, a: nat, n: nat)
    requires a + n <= |t|
    ensures t[a..][..n] == t[a..a + n] && forall k :: a <= k < |t| ==> t[k] == t[a..][k - a]
  {
  }

  /** The same without a semicolon at its end: what is seen of the text. */
  lemma Trimmed(t: string) returns (a: nat, e: nat)
    ensures IsTrimmed(t, a, e) && TrimSemicolon(TrimSpace(t)) == t[a..e]
  {
    var n;
    a, n := Spaced(t);
    e := if a < n && t[n - 1] == ';' then n - 1 else n;
    hide IsBlank, TrimSpace, TrimSemicolon, SeenAt, IsTrimmed;
    SemicolonTrimmed(t, a, n);
    SeenUpTo(t, a, n);
  }

  lemma SemicolonTrimmed(t: string, a: nat, n: nat)
    requires a <= n <= |t|
    ensures TrimSemicolon(t[a..n]) == t[a..if a < n && t[n - 1] == ';' then n - 1 else n]
  {
    if a < n {
      assert t[a..n][..n - a - 1] == t[a..n - 1];
    }
  }

  lemma SeenUpTo(t: string, a: nat, n: nat)
    requires a <= n <= |t| && (forall k :: 0 <= k < a || n <= k < |t| ==> IsBlank(t[k]))
    requires a < n ==> !IsBlank(t[a]) && !IsBlank(t[n - 1])
    ensures IsTrimmed(t, a, if a < n && t[n - 1] == ';' then n - 1 else n)
  {
    hide IsBlank;
    var e := if a < n && t[n - 1] == ';' then n - 1 else n;
    forall k | a <= k < e && !IsBlank(t[k]) ensures SeenAt(t, k) {
      assert t[k] == ';' ==> k < n - 1 && !IsBlank(t[n - 1]);
    }
  }

  lemma SliceAt(t: string, a: nat, e: nat)
    requires a <= e <= |t|
    ensures |t[a..e]| == e - a && forall k :: 0 <= k < e - a ==> t[a..e][k] == t[a + k]
  {
  }

  /**
   * LIKE is looked for where the first field is SELECT, WITH, UPDATE, DELETE or INSERT in any case, white
   * space stands behind it, and then something other than a semicolon that ends the text.
   */
  lemma CanContainLikeExact(t: string)
    ensures CanContainLike(t) <==>
              exists i: nat, j: nat, k :: FirstField(t, i, j) && StatementWord(Upper(t[i..j])) && j < k && SeenAt(t, k)
  {
    var a, e := Trimmed(t);
    var text := Join(Fields(t[a..e]), " ");
    assert CanContainLike(t) <==> OpensStatement(Upper(text));
    hide CanContainLike, Upper, Fields, Join, StatementWord, OpensStatement, SeenAt, FirstField, TrimSpace, TrimSemicolon, IsBlank;
    if OpensStatement(Upper(text)) {
      var n, k := StatementSeen(t, a, e);
      assert FirstField(t, a, a + n);
    }
    forall i: nat, j: nat, k | FirstField(t, i, j) && StatementWord(Upper(t[i..j])) && j < k && SeenAt(t, k)
      ensures OpensStatement(Upper(text))
    {
      SeenStatement(t, a, e, i, j, k);
    }
  }

  /** What Trimmed says of the text between a and e. */
  ghost predicate IsTrimmed(t: string, a: nat, e: nat) {
    && a <= e <= |t| && (forall k :: 0 <= k < a ==> IsBlank(t[k])) && (a < e ==> !IsBlank(t[a]))
    && forall k :: a <= k < e && !IsBlank(t[k]) <==> SeenAt(t, k)
  }

  lemma StatementSeen(t: string, a: nat, e: nat) returns (n: nat, k: int)
    requires IsTrimmed(t, a, e) && OpensStatement(Upper(Join(Fields(t[a..e]), " ")))
    ensures FirstField(t, a, a + n) && StatementWord(Upper(t[a..a + n])) && a + n < k && SeenAt(t, k)
  {
    TrimmedStart(t, a, e);
    hide Upper, Fields, Join, StatementWord, OpensStatement, FieldLen, SeenAt, FirstField, IsTrimmed, IsBlank;
    NothingOpens(t[a..e]);
    var m;
    n, m := BehindField(t[a..e]);
    FieldsFirst(t[a..e]);
    SeenOn(t, a, e, n, m);
    k := a + m;
  }

  lemma TrimmedStart(t: string, a: nat, e: nat)
    requires IsTrimmed(t, a, e)
    ensures a < e ==> t[a..e] != "" && !IsBlank(t[a..e][0])
    ensures a == e ==> t[a..e] == ""
    ensures a <= e <= |t|
  {
    hide IsBlank, SeenAt;
    if a < e {
      SliceAt(t, a, e);
    }
  }

  lemma BehindField(u: string) returns (n: nat, k: nat)
    requires u != "" && !IsBlank(u[0]) && OpensStatement(Upper(Join(Fields(u), " ")))
    ensures n == FieldLen(u) < k < |u| && !IsBlank(u[k]) && StatementWord(Upper(u[..n]))
  {
    hide Upper, Fields, Join, StatementWord, OpensStatement, FieldLen, IsBlank;
    FieldOpens(u);
    n := FieldLen(u);
    k :| n < k < |u| && !IsBlank(u[k]);
  }

  lemma SeenOn(t: string, a: nat, e: nat, n: nat, k: nat)
    requires IsTrimmed(t, a, e) && 0 < n < k < e - a && IsBlank(t[a..e][n]) && !IsBlank(t[a..e][k])
    requires forall i :: 0 <= i < n ==> !IsBlank(t[a..e][i])
    ensures FirstField(t, a, a + n) && SeenAt(t, a + k) && t[a..e][..n] == t[a..a + n]
  {
    SliceAt(t, a, e);
    hide IsBlank, SeenAt;
    assert t[a + k] == t[a..e][k] && t[a + n] == t[a..e][n];
    forall i | a <= i < a + n ensures !IsBlank(t[i]) {
      assert t[i] == t[a..e][i - a];
    }
  }

  lemma SeenStatement(t: string, a: nat, e: nat, i: nat, j: nat, k: int)
    requires IsTrimmed(t, a, e) && FirstField(t, i, j) && StatementWord(Upper(t[i..j])) && j < k && SeenAt(t, k)
    ensures OpensStatement(Upper(Join(Fields(t[a..e]), " ")))
  {
    var u := t[a..e];
    hide Upper, Fields, Join, StatementWord, OpensStatement, FieldLen, SeenAt, FirstField;
    FieldOpens(u);
    FieldsFirst(u);
    SeenBehind(t, a, e, FieldLen(u), i, j, k);
  }

  lemma SeenBehind(t: string, a: nat, e: nat, n: nat, i: nat, j: nat, k: int)
    requires IsTrimmed(t, a, e) && 0 < n <= e - a && (n < e - a ==> IsBlank(t[a..e][n]))
    requires forall m :: 0 <= m < n ==> !IsBlank(t[a..e][m])
    requires FirstField(t, i, j) && j < k && SeenAt(t, k)
    ensures i == a && j == a + n && t[i..j] == t[a..e][..n] && j < k < e && !IsBlank(t[a..e][k - a])
  {
    SliceAt(t, a, e);
    hide IsBlank, SeenAt;
    assert k < e;
    forall m | a <= m < a + n ensures !IsBlank(t[m]) {
      assert t[m] == t[a..e][m - a];
    }
    assert n < e - a ==> t[a + n] == t[a..e][n];
    FieldAlone(t, a, n, i, j, k, e);
  }

  lemma FieldAlone(t: string, a: nat, n: nat, i: nat, j: nat, k: int, e: nat)
    requires a < e <= |t| && 0 < n <= e - a && (forall k :: 0 <= k < a ==> IsBlank(t[k]))
    requires a + n < e ==> IsBlank(t[a + n])
    requires forall k :: a <= k < a + n ==> !IsBlank(t[k])
    requires FirstField(t, i, j) && j < k < e
    ensures i == a && j == a + n
  {
    hide IsBlank;
    assert !IsBlank(t[i]) && !IsBlank(t[a]);
  }

  lemma NothingOpens(u: string)
    ensures u == "" ==> !OpensStatement(Upper(Join(Fields(u), " ")))
  {
    assert TrimLeft("") == "" && Fields("") == [];
  }

  // ---------------------------------------------------------------------------------------------
  // Nothing but fragments is added, and never inside a quote or a comment
  // ---------------------------------------------------------------------------------------------

  /** `b` is `a` with fragments put between its tokens. */
  predicate OnlyInserted(a: seq<Token>, b: seq<Token>)
    decreases |b|
  {
    || (a == [] && b == [])
    || (a != [] && b != [] && a[0] == b[0] && OnlyInserted(a[1..], b[1..]))
    || (Fragment() <= b && OnlyInserted(a, b[8..]))
  }

  lemma {:induction false} EscapedOnlyInserts(toks: seq<Token>, st: LikeState)
    ensures OnlyInserted(toks, Escaped(toks, st))
  {
    var out := Escaped(toks, st);
    if toks == [] {
      assert out == Fragment() ==> out[8..] == [];
    } else {
      EscapedOnlyInserts(toks[1..], Next(toks[0], st));
      var later := [toks[0]] + Escaped(toks[1..], Next(toks[0], st));
      assert later[1..] == Escaped(toks[1..], Next(toks[0], st));
      assert OnlyInserted(toks, later);
      if Inserts(toks[0], st) {
        assert out == Fragment() + later && out[8..] == later;
      }
    }
  }

  /** The text ends outside quotes and comments: a blank added to it is a token of its own. */
  predicate EndsInCode(t: string) {
    var toks := Lex(t, ByWords);
    toks == [] || Closed(toks[|toks| - 1], ByWords)
  }

  predicate InsertsAtEnd(t: string) {
    Run(Lex(t, ByWords), START).Unescaped()
  }

  /** The same for text that continues with `rest` after the spelled-out bytes. */
  lemma SpellCons(tok: Token, toks: seq<Token>, spelled: string, rest: string)
    requires Sits(tok, Flatten(toks), ByWords) && Settled(toks, ByWords) && Flatten(toks) == spelled + rest
    ensures Settled([tok] + toks, ByWords)
    ensures Flatten([tok] + toks) == (tok.text + spelled) + rest
  {
    SettledCons(tok, toks);
    hide Flatten, Settled, Sits;
    assert tok.text + (spelled + rest) == (tok.text + spelled) + rest;
  }

  lemma CharCallSettled(rest: seq<Token>)
    requires Settled(rest, ByWords)
    ensures Settled(CharCall() + rest, ByWords)
    ensures Flatten(CharCall() + rest) == "char(92)" + Flatten(rest)
  {
    hide Flatten, Settled, Sits;
    var text := Flatten(rest);
    var r4 := [Token(Code, ")")] + rest;
    CodeSits(')', text);
    SettledCons(Token(Code, ")"), rest);
    var r3 := [Token(Code, "2")] + r4;
    CodeSits('2', Flatten(r4));
    SettledCons(Token(Code, "2"), r4);
    assert Flatten(r3) == "2)" + text;
    var r2 := [Token(Code, "9")] + r3;
    CodeSits('9', Flatten(r3));
    SettledCons(Token(Code, "9"), r3);
    assert Flatten(r2) == "92)" + text;
    var r1 := [Token(Code, "(")] + r2;
    CodeSits('(', Flatten(r2));
    SettledCons(Token(Code, "("), r2);
    assert Flatten(r1) == "(92)" + text;
    WordSits("char", Flatten(r1));
    SettledCons(Token(Word, "char"), r1);
    assert CharCall() + rest == [Token(Word, "char")] + r1;
  }

  /** A fragment put before settled tokens is read as a fragment followed by those tokens. */
  lemma FragmentSettled(rest: seq<Token>)
    requires Settled(rest, ByWords)
    ensures Settled(Fragment() + rest, ByWords)
    ensures Flatten(Fragment() + rest) == FRAGMENT + Flatten(rest)
  {
    CharCallSettled(rest);
    hide Flatten, Settled, Sits, CharCall;
    var text := Flatten(rest);
    var r3 := CharCall() + rest;
    var r2 := [Token(Code, " ")] + r3;
    CodeSits(' ', Flatten(r3));
    SpellCons(Token(Code, " "), r3, "char(92)", text);
    var r1 := [Token(Word, "ESCAPE")] + r2;
    WordSits("ESCAPE", Flatten(r2));
    SpellCons(Token(Word, "ESCAPE"), r2, " " + "char(92)", text);
    CodeSits(' ', Flatten(r1));
    SpellCons(Token(Code, " "), r1, "ESCAPE" + (" " + "char(92)"), text);
    FragmentShape(rest);
  }

  lemma FragmentShape(rest: seq<Token>)
    ensures Fragment() + rest == [Token(Code, " ")] + ([Token(Word, "ESCAPE")] + ([Token(Code, " ")] + (CharCall() + rest)))
  {
    hide CharCall;
  }

  lemma FragmentText()
    ensures Flatten(Fragment()) == FRAGMENT
  {
    FragmentSettled([]);
    assert Fragment() + [] == Fragment();
  }

  /** A token that sat before `toks` sits before what the pass writes for them. */
  lemma SitsBeforeEscaped(tok: Token, toks: seq<Token>, st: LikeState)
    requires Settled(toks, ByWords) && Sits(tok, Flatten(toks), ByWords)
    requires toks == [] && st.Unescaped() ==> Closed(tok, ByWords)
    ensures Sits(tok, Flatten(Escaped(toks, st)), ByWords)
  {
    EscapedHead(toks, st);
    var before, after := Flatten(toks), Flatten(Escaped(toks, st));
    if toks == [] {
      if st.Unescaped() {
        SitsNext(tok, " ", after, ByWords);
      }
    } else if after[0] == ' ' {
      SitsNext(tok, before, after, ByWords);
    } else {
      SitsNext(tok, before, after, ByWords);
    }
  }

  lemma {:induction false} EscapedSettled(toks: seq<Token>, st: LikeState)
    requires Settled(toks, ByWords)
    requires toks != [] && Run(toks, st).Unescaped() ==> Closed(toks[|toks| - 1], ByWords)
    ensures Settled(Escaped(toks, st), ByWords)
  {
    if toks == [] {
      FragmentSettled([]);
      assert Fragment() + [] == Fragment();
    } else {
      var tok, st' := toks[0], Next(toks[0], st);
      EscapedSettled(toks[1..], st');
      assert toks[1..] == [] ==> Run(toks, st) == st' && tok == toks[|toks| - 1];
      SitsBeforeEscaped(tok, toks[1..], st');
      hide Flatten, Sits, Next, Inserts;
      var later := Escaped(toks[1..], st');
      SettledCons(tok, later);
      FragmentSettled([tok] + later);
    }
  }

  /** What is written starts as the input does, or with a blank. */
  lemma EscapedHead(toks: seq<Token>, st: LikeState)
    requires Settled(toks, ByWords)
    ensures Escaped(toks, st) == [] ==> toks == []
    ensures var text := Flatten(Escaped(toks, st));
            if Escaped(toks, st) == [] then text == ""
            else text != "" && (text[0] == ' ' || (toks != [] && text[0] == Flatten(toks)[0]))
  {
    FragmentText();
    if toks != [] {
      var later := [toks[0]] + Escaped(toks[1..], Next(toks[0], st));
      if Inserts(toks[0], st) {
        FlattenAppend(Fragment(), later);
      }
    }
  }

  /**
   * Read again, the output is the input with only fragments inserted - none inside a quote or a
   * comment - exactly when the text ends in code or nothing is inserted at its end.
   */
  lemma LikePassErasable(t: string)
    ensures var toks := Lex(t, ByWords);
            OnlyInserted(toks, Escaped(toks, START)) &&
            (Lex(InsertEscapes(t), ByWords) == Escaped(toks, START) <==> (InsertsAtEnd(t) ==> EndsInCode(t)))
  {
    var toks := Lex(t, ByWords);
    LexSpells(t, ByWords);
    EscapedOnlyInserts(toks, START);
    hide Escaped, OnlyInserted;
    if InsertsAtEnd(t) ==> EndsInCode(t) {
      EscapedSettled(toks, START);
      Relex(Escaped(toks, START), ByWords);
    } else if Lex(InsertEscapes(t), ByWords) == Escaped(toks, START) {
      LexSpells(InsertEscapes(t), ByWords);
      InsertedAtEnd(toks, START);
      assert false;
    }
  }

  lemma {:induction false} InsertedAtEnd(toks: seq<Token>, st: LikeState)
    requires toks != [] && Run(toks, st).Unescaped() && Settled(Escaped(toks, st), ByWords)
    ensures Closed(toks[|toks| - 1], ByWords)
  {
    hide Settled, Fragment, Next, Inserts, Sits;
    var tok, st' := toks[0], Next(toks[0], st);
    AfterFragment(tok, Escaped(toks[1..], st'), Inserts(tok, st));
    if toks[1..] == [] {
      FragmentText();
      SitsNext(tok, FRAGMENT, " ", ByWords);
      ClosedMeans(tok);
    } else {
      InsertedAtEnd(toks[1..], st');
    }
  }

  lemma ClosedMeans(tok: Token)
    ensures Sits(tok, " ", ByWords) <==> Closed(tok, ByWords)
  {
  }

  lemma AfterFragment(tok: Token, later: seq<Token>, inserts: bool)
    requires Settled(if inserts then Fragment() + ([tok] + later) else [tok] + later, ByWords)
    ensures Sits(tok, Flatten(later), ByWords) && Settled(later, ByWords)
  {
    hide Fragment, Flatten;
    if inserts {
      SettledCut(Fragment(), [tok] + later, ByWords);
    }
    assert ([tok] + later)[1..] == later;
  }

  // ---------------------------------------------------------------------------------------------
  // Where the fragments stand
  // ---------------------------------------------------------------------------------------------

  /** The depth at the end of the text; 0 when the parentheses balance. */
  function EndDepth(toks: seq<Token>, depth: nat): nat {
    if toks == [] then depth else EndDepth(toks[1..], DepthAfter(toks[0], depth))
  }

  /** How many parentheses are open before the k-th token. */
  function DepthAt(toks: seq<Token>, k: nat): nat
    requires k <= |toks|
  {
    EndDepth(toks[..k], 0)
  }

  predicate IsWord(tok: Token, upper: string) {
    tok.kind == Word && Upper(tok.text) == upper
  }

  /** A word that starts another clause or operand, or the end of a list, of a group or of the statement. */
  predicate EndsClause(tok: Token) {
    if tok.kind == Word then
      Upper(tok.text) in ["AND", "OR", "ORDER", "GROUP", "HAVING", "LIMIT", "UNION", "EXCEPT", "INTERSECT"]
    else tok.kind == Code && tok.text in [")", ",", ";"]
  }

  lemma EndingsAgree(tok: Token)
    ensures EndsPredicate(tok) <==> EndsClause(tok)
  {
    var upper := Upper(tok.text);
    hide Upper;
    assert upper in ["AND", "OR", "ORDER", "GROUP", "HAVING", "LIMIT", "UNION", "EXCEPT", "INTERSECT"] <==>
           upper == "AND" || upper == "OR" || upper == "ORDER" || upper == "GROUP" || upper == "HAVING" ||
           upper == "LIMIT" || upper == "UNION" || upper == "EXCEPT" || upper == "INTERSECT";
    assert tok.text in [")", ",", ";"] <==> tok.text == ")" || tok.text == "," || tok.text == ";";
  }

  /** At the depth of the LIKE the token ends its predicate. */
  predicate EndsLike(toks: seq<Token>, i: nat, j: nat)
    requires i < |toks| && j < |toks|
  {
    DepthAt(toks, j) == DepthAt(toks, i) && EndsClause(toks[j])
  }

  predicate EscapesLike(toks: seq<Token>, i: nat, j: nat)
    requires i < |toks| && j < |toks|
  {
    DepthAt(toks, j) == DepthAt(toks, i) && IsWord(toks[j], "ESCAPE")
  }

  /** The LIKE at i is the last one before j; its predicate has not ended there and has no ESCAPE yet. */
  predicate OpenUpTo(toks: seq<Token>, i: nat, j: nat) {
    && i < j <= |toks| && IsWord(toks[i], "LIKE")
    && forall k {:trigger toks[k]} :: i < k < j ==> !IsWord(toks[k], "LIKE") && !EndsLike(toks, i, k) && !EscapesLike(toks, i, k)
  }

  /** The predicate of the LIKE at i, without an ESCAPE of its own, ends right before j. */
  predicate Wants(toks: seq<Token>, i: nat, j: nat) {
    OpenUpTo(toks, i, j) && (j < |toks| ==> EndsLike(toks, i, j))
  }

  /** The tokens from k on, with a fragment wherever the predicate of such a LIKE ends. */
  ghost function WithFragments(toks: seq<Token>, k: nat): seq<Token>
    requires k <= |toks|
    decreases |toks| - k
  {
    (if exists i :: Wants(toks, i, k) then Fragment() else []) +
    (if k == |toks| then [] else [toks[k]] + WithFragments(toks, k + 1))
  }

  /** What the pass remembers before the k-th token. */
  ghost predicate Remembers(toks: seq<Token>, k: nat, st: LikeState) {
    && k <= |toks| && st.depth == DepthAt(toks, k)
    && (st.Unescaped() <==> exists i :: OpenUpTo(toks, i, k))
    && forall i :: OpenUpTo(toks, i, k) ==> st.pendingDepth == DepthAt(toks, i)
  }

  lemma {:induction false} EndDepthLast(toks: seq<Token>, tok: Token, depth: nat)
    ensures EndDepth(toks + [tok], depth) == DepthAfter(tok, EndDepth(toks, depth))
  {
    if toks == [] {
      assert toks + [tok] == [tok] && [tok][1..] == [];
    } else {
      assert (toks + [tok])[1..] == toks[1..] + [tok];
      EndDepthLast(toks[1..], tok, DepthAfter(toks[0], depth));
    }
  }

  lemma DepthNext(toks: seq<Token>, k: nat)
    requires k < |toks|
    ensures DepthAt(toks, k + 1) == DepthAfter(toks[k], DepthAt(toks, k))
  {
    assert toks[..k + 1] == toks[..k] + [toks[k]];
    EndDepthLast(toks[..k], toks[k], 0);
  }

  lemma OpenAt(toks: seq<Token>, i: nat, j: nat, k: nat)
    requires OpenUpTo(toks, i, j) && i < k < j
    ensures !IsWord(toks[k], "LIKE") && !EndsLike(toks, i, k) && !EscapesLike(toks, i, k)
  {
    hide IsWord, EndsLike, EscapesLike;
    assert toks[k] == toks[k];
  }

  lemma OpenNext(toks: seq<Token>, i: nat, k: nat)
    requires k < |toks|
    ensures OpenUpTo(toks, i, k + 1) <==>
              if IsWord(toks[k], "LIKE") then i == k
              else OpenUpTo(toks, i, k) && !EndsLike(toks, i, k) && !EscapesLike(toks, i, k)
  {
    hide IsWord, DepthAt, EndsClause;
    if i < k {
      if OpenUpTo(toks, i, k) && !IsWord(toks[k], "LIKE") && !EndsLike(toks, i, k) && !EscapesLike(toks, i, k) {
        forall m | i < m < k + 1
          ensures !IsWord(toks[m], "LIKE") && !EndsLike(toks, i, m) && !EscapesLike(toks, i, m)
        {
          if m < k {
            OpenAt(toks, i, k, m);
          }
        }
      }
      if OpenUpTo(toks, i, k + 1) {
        OpenAt(toks, i, k + 1, k);
        forall m | i < m < k
          ensures !IsWord(toks[m], "LIKE") && !EndsLike(toks, i, m) && !EscapesLike(toks, i, m)
        {
          OpenAt(toks, i, k + 1, m);
        }
      }
    }
  }

  lemma NextUnescaped(tok: Token, st: LikeState)
    ensures var st' := Next(tok, st);
            && st'.depth == DepthAfter(tok, st.depth)
            && (if IsWord(tok, "LIKE") then st'.Unescaped() && st'.pendingDepth == st.depth
                else (st'.Unescaped() <==> st.Unescaped() && !(st.AtLike() && (EndsClause(tok) || IsWord(tok, "ESCAPE"))))
                     && (st'.Unescaped() ==> st'.pendingDepth == st.pendingDepth))
  {
    FragmentWords();
    EndingsAgree(tok);
    hide Upper, IsTerminator, EndsClause;
  }

  lemma RemembersNext(toks: seq<Token>, k: nat, st: LikeState)
    requires k < |toks| && Remembers(toks, k, st)
    ensures Remembers(toks, k + 1, Next(toks[k], st))
  {
    var tok, st' := toks[k], Next(toks[k], st);
    DepthNext(toks, k);
    NextUnescaped(tok, st);
    hide Next, Upper, DepthAt, EndsClause, IsWord, OpenUpTo;
    forall i: nat
      ensures OpenUpTo(toks, i, k + 1) ==> st'.Unescaped() && st'.pendingDepth == DepthAt(toks, i)
    {
      OpenNext(toks, i, k);
      OpenBefore(toks, i, k);
    }
    if st'.Unescaped() {
      if IsWord(tok, "LIKE") {
        OpenNext(toks, k, k);
        assert OpenUpTo(toks, k, k + 1);
      } else {
        var i :| OpenUpTo(toks, i, k);
        OpenBefore(toks, i, k);
        OpenNext(toks, i, k);
        assert OpenUpTo(toks, i, k + 1);
      }
    }
  }

  lemma OpenBefore(toks: seq<Token>, i: nat, k: nat)
    ensures OpenUpTo(toks, i, k) ==> i < |toks| && i < k <= |toks|
  {
  }

  lemma InsertsWhereWanted(toks: seq<Token>, k: nat, st: LikeState)
    requires Remembers(toks, k, st)
    ensures (exists i :: Wants(toks, i, k)) <==> if k == |toks| then st.Unescaped() else Inserts(toks[k], st)
  {
    hide OpenUpTo, DepthAt, EndsPredicate, EndsClause;
    if k < |toks| {
      EndingsAgree(toks[k]);
    }
    forall i: nat
      ensures OpenUpTo(toks, i, k) ==> i < |toks|
    {
      OpenBefore(toks, i, k);
    }
    if st.Unescaped() {
      var i :| OpenUpTo(toks, i, k);
      assert Wants(toks, i, k) <==> (k < |toks| ==> EndsLike(toks, i, k));
    }
  }

  lemma {:induction false} FragmentsFrom(toks: seq<Token>, k: nat, st: LikeState)
    requires Remembers(toks, k, st)
    ensures Escaped(toks[k..], st) == WithFragments(toks, k)
    decreases |toks| - k
  {
    InsertsWhereWanted(toks, k, st);
    hide Next, Fragment, Wants, Remembers, Inserts;
    if k == |toks| {
      assert toks[k..] == [];
    } else {
      RemembersNext(toks, k, st);
      FragmentsFrom(toks, k + 1, Next(toks[k], st));
      assert toks[k..][1..] == toks[k + 1..];
    }
  }

  /**
   * The pass writes one fragment for each LIKE that is the last one before the end of its predicate
   * and has no ESCAPE of its own: right before the token that ends the predicate, or at the end of
   * the text.  Nothing else is written.
   */
  lemma FragmentsStand(t: string)
    ensures Escaped(Lex(t, ByWords), START) == WithFragments(Lex(t, ByWords), 0)
  {
    hide WithFragments, Escaped, Lex;
    var toks := Lex(t, ByWords);
    assert toks[..0] == [] && toks[0..] == toks;
    FragmentsFrom(toks, 0, START);
  }

  /** A LIKE gets its fragment at one place only, and a place takes the fragment of one LIKE. */
  lemma OneFragmentEach(toks: seq<Token>, i: nat, j: nat, i': nat, j': nat)
    requires Wants(toks, i, j) && Wants(toks, i', j')
    ensures i == i' <==> j == j'
  {
    hide DepthAt, IsWord, EndsClause;
    assert j < |toks| ==> toks[j] == toks[..j + 1][j];
    assert j' < |toks| ==> toks[j'] == toks[..j' + 1][j'];
  }

  // ---------------------------------------------------------------------------------------------
  // Running the pass again
  // ---------------------------------------------------------------------------------------------

  lemma FragmentWords()
    ensures Upper("ESCAPE") == "ESCAPE" && !IsTerminator("ESCAPE")
    ensures Upper("char") == "CHAR" && !IsTerminator("CHAR")
  {
    assert "ESCAPE"[0] != "ORDER"[0];
  }

  lemma EscapedCons(tok: Token, rest: seq<Token>, st: LikeState)
    requires !Inserts(tok, st)
    ensures Escaped([tok] + rest, st) == [tok] + Escaped(rest, Next(tok, st))
  {
    hide Inserts, Next;
    assert ([tok] + rest)[1..] == rest;
  }

  lemma CharCallQuiet(rest: seq<Token>, st: LikeState)
    requires st.Valid()
    ensures Escaped(CharCall() + rest, st) == CharCall() + Escaped(rest, st)
  {
    FragmentWords();
    hide Escaped, Upper, IsTerminator;
    var up := st.(depth := st.depth + 1);
    EscapedCons(Token(Code, ")"), rest, up);
    EscapedCons(Token(Code, "2"), [Token(Code, ")")] + rest, up);
    EscapedCons(Token(Code, "9"), [Token(Code, "2")] + ([Token(Code, ")")] + rest), up);
    EscapedCons(Token(Code, "("), [Token(Code, "9")] + ([Token(Code, "2")] + ([Token(Code, ")")] + rest)), st);
    EscapedCons(Token(Word, "char"),
                [Token(Code, "(")] + ([Token(Code, "9")] + ([Token(Code, "2")] + ([Token(Code, ")")] + rest))), st);
    CharCallShape(rest);
    CharCallShape(Escaped(rest, st));
  }

  lemma CharCallShape(rest: seq<Token>)
    ensures CharCall() + rest ==
            [Token(Word, "char")] + ([Token(Code, "(")] + ([Token(Code, "9")] + ([Token(Code, "2")] + ([Token(Code, ")")] + rest))))
  {
  }

  /** The pass reads the fragment as the ESCAPE of the LIKE it belongs to, and adds nothing to it. */
  lemma FragmentQuiet(rest: seq<Token>, st: LikeState)
    requires st.Valid() && st.Unescaped()
    ensures Escaped(Fragment() + rest, st) ==
            Fragment() + Escaped(rest, if st.AtLike() then st.(hasEscape := true) else st)
  {
    FragmentWords();
    var seen := if st.AtLike() then st.(hasEscape := true) else st;
    CharCallQuiet(rest, seen);
    hide Escaped, Upper, IsTerminator, CharCall;
    EscapedCons(Token(Code, " "), CharCall() + rest, seen);
    EscapedCons(Token(Word, "ESCAPE"), [Token(Code, " ")] + (CharCall() + rest), st);
    EscapedCons(Token(Code, " "), [Token(Word, "ESCAPE")] + ([Token(Code, " ")] + (CharCall() + rest)), st);
    FragmentShape(rest);
    FragmentShape(Escaped(rest, seen));
  }

  lemma NextKeepsValid(tok: Token, st: LikeState)
    requires st.Valid()
    ensures Next(tok, st).Valid()
  {
    hide Upper, IsTerminator;
  }

  /** Once escaped, a predicate ends without another fragment and leaves the same state. */
  lemma EscapedEndsQuietly(tok: Token, st: LikeState)
    requires Inserts(tok, st)
    ensures !Inserts(tok, st.(hasEscape := true)) && Next(tok, st.(hasEscape := true)) == Next(tok, st)
  {
    FragmentWords();
    hide Upper, IsTerminator;
  }

  /** A second run adds nothing, except for a LIKE left open inside a parenthesis that never closes. */
  lemma {:induction false} EscapedTwice(toks: seq<Token>, st: LikeState)
    requires st.Valid()
    ensures Escaped(Escaped(toks, st), st) ==
            Escaped(toks, st) + if Run(toks, st).Dangling() then Fragment() else []
  {
    if toks == [] {
      if st.Unescaped() {
        FragmentQuiet([], st);
        assert Fragment() + [] == Fragment();
      }
    } else {
      var tok, st' := toks[0], Next(toks[0], st);
      NextKeepsValid(tok, st);
      EscapedTwice(toks[1..], st');
      TwiceStep(tok, Escaped(toks[1..], st'), st);
      hide Next, Inserts, Fragment;
    }
  }

  lemma TwiceStep(tok: Token, later: seq<Token>, st: LikeState)
    requires st.Valid()
    ensures var st' := Next(tok, st);
            if Inserts(tok, st)
            then Escaped(Fragment() + ([tok] + later), st) == Fragment() + ([tok] + Escaped(later, st'))
            else Escaped([tok] + later, st) == [tok] + Escaped(later, st')
  {
    if Inserts(tok, st) {
      FragmentQuiet([tok] + later, st);
      EscapedEndsQuietly(tok, st);
      hide Escaped, Fragment, Next;
      EscapedCons(tok, later, st.(hasEscape := true));
    } else {
      EscapedCons(tok, later, st);
    }
  }

  /**
   * For text that ends in code, the loop run on its own output changes nothing, exactly when no
   * LIKE is left open inside a parenthesis that never closes.
   */
  lemma InsertEscapesTwice(t: string)
    requires EndsInCode(t)
    ensures InsertEscapes(InsertEscapes(t)) == InsertEscapes(t) <==> !Run(Lex(t, ByWords), START).Dangling()
  {
    var toks := Lex(t, ByWords);
    LikePassErasable(t);
    EscapedTwice(toks, START);
    FragmentText();
    FlattenAppend(Escaped(toks, START), if Run(toks, START).Dangling() then Fragment() else []);
  }

  /** A LIKE before a parenthesis that never closes gets another fragment each time. */
  lemma OpenLikeGrows()
    ensures var t := "LIKE" + "("; InsertEscapes(t) == t + FRAGMENT && InsertEscapes(InsertEscapes(t)) != InsertEscapes(t)
  {
    var t := "LIKE" + "(";
    var like, open := Token(Word, "LIKE"), Token(Code, "(");
    assert t[1..] == "IKE(" && t[..4] == "LIKE" && t[4..] == "(";
    assert "(" == "(" + "";
    var toks := [like] + ([open] + []);
    NothingSettled();
    assert Flatten([]) == "";
    PutCode('(', []);
    PutWord("LIKE", [open] + []);
    Relex(toks, ByWords);
    assert Upper("LIKE") == "LIKE";
    OpenLikeRun(like, open);
    FragmentText();
    FlattenAppend(toks, Fragment());
    assert toks[|toks| - 1] == open;
    assert Lex(t, ByWords) == toks && Run(toks, START).Dangling() && Flatten(toks) == t;
    assert InsertEscapes(t) == Flatten(toks + Fragment());
    hide InsertEscapes, Run;
    InsertEscapesTwice(t);
  }

  lemma OpenLikeRun(like: Token, open: Token)
    requires like == Token(Word, "LIKE") && open == Token(Code, "(")
    ensures var toks := [like] + ([open] + []); Run(toks, START).Dangling() && Escaped(toks, START) == toks + Fragment()
  {
    assert Upper("LIKE") == "LIKE";
    var toks := [like] + ([open] + []);
    assert toks[1..] == [open] && [open][1..] == [];
    hide Fragment;
    var st1 := Next(like, START);
    assert st1 == LikeState(true, 0, false, 0);
    assert Next(open, st1) == LikeState(true, 0, false, 1);
    assert Escaped([open], st1) == [open] + Fragment();
    assert Run([open], st1) == Run([], Next(open, st1)) == LikeState(true, 0, false, 1);
    assert toks[0] == like && Run(toks, START) == Run([open], st1);
    assert Escaped(toks, START) == [like] + ([open] + Fragment());
  }

  lemma {:induction false} RunTracksDepth(toks: seq<Token>, st: LikeState)
    requires st.Valid()
    ensures Run(toks, st).Valid() && Run(toks, st).depth == EndDepth(toks, st.depth)
  {
    if toks != [] {
      NextKeepsValid(toks[0], st);
      RunTracksDepth(toks[1..], Next(toks[0], st));
      hide Upper, IsTerminator;
    }
  }

  /** With balanced parentheses and closed quotes and comments the whole pass is idempotent. */
  lemma LikePassTwice(t: string)
    requires EndsInCode(t) && EndDepth(Lex(t, ByWords), 0) == 0
    ensures LikePass(LikePass(t)) == LikePass(t)
  {
    hide Lex, EndDepth, EndsInCode, CanContainLike, InsertEscapes;
    RunTracksDepth(Lex(t, ByWords), START);
    InsertEscapesTwice(t);
  }

  // ---------------------------------------------------------------------------------------------
  // The loop
  // ---------------------------------------------------------------------------------------------

  /** What is still to be written from position `i` on. */
  ghost function Pending(s: string, i: nat, st: LikeState): string
    requires i <= |s|
  {
    Flatten(Escaped(Lex(s[i..], ByWords), st))
  }

  lemma PendingStep(s: string, i: nat, end: nat, st: LikeState)
    requires i < end <= |s| && Lead(s[i..], ByWords).text == s[i..end]
    ensures var tok := Lead(s[i..], ByWords);
            var later := s[i..end] + Pending(s, end, Next(tok, st));
            Pending(s, i, st) == if Inserts(tok, st) then FRAGMENT + later else later
  {
    LexFrom(s, i, end, ByWords);
    var tok := Lead(s[i..], ByWords);
    hide Lex, Lead, Inserts, Next, Fragment, FRAGMENT;
    FragmentText();
    EscapedText(tok, Lex(s[end..], ByWords), st);
  }

  lemma EscapedText(tok: Token, toks: seq<Token>, st: LikeState)
    ensures var later := tok.text + Flatten(Escaped(toks, Next(tok, st)));
            Flatten(Escaped([tok] + toks, st)) == if Inserts(tok, st) then Flatten(Fragment()) + later else later
  {
    hide Inserts, Next, Fragment;
    var rest := Escaped(toks, Next(tok, st));
    assert ([tok] + toks)[1..] == toks && ([tok] + rest)[1..] == rest;
    FlattenAppend(Fragment(), [tok] + rest);
  }

  lemma PendingEnd(s: string, st: LikeState)
    ensures Pending(s, |s|, st) == if st.Unescaped() then FRAGMENT else ""
  {
    assert s[|s|..] == "";
    FragmentText();
  }

  method TranslateMySqlLikeDefaultEscape(s: string) returns (out: string)
    ensures out == LikePass(s)
  {
    hide Pending, Inserts, Next, InsertEscapes, IsTerminator, Upper, CanContainLike, FRAGMENT;
    if !CanContainLike(s) {
      return s;
    }
    out := "";
    var i, st := 0, START;
    PendingStart(s);
    while i < |s|
      invariant 0 <= i <= |s|
      invariant InsertEscapes(s) == out + Pending(s, i, st)
    {
      var end, insert, st' := LikeMove(s, i, st);
      PendingStep(s, i, end, st);
      if insert {
        out := out + FRAGMENT;
      }
      out := out + s[i..end];
      i, st := end, st';
    }
    PendingEnd(s, st);
    if st.pending && !st.hasEscape {
      out := out + FRAGMENT;
    }
  }

  lemma PendingStart(s: string)
    ensures InsertEscapes(s) == Pending(s, 0, START)
  {
    assert s[0..] == s;
  }

  /** One turn of the loop: the span or identifier at `i`, whether its LIKE ends here, and the new state. */
  method LikeMove(s: string, i: nat, st: LikeState) returns (end: nat, insert: bool, st': LikeState)
    requires i < |s|
    ensures i < end <= |s|
    ensures Lead(s[i..], ByWords).text == s[i..end]
    ensures insert == Inserts(Lead(s[i..], ByWords), st)
    ensures st' == Next(Lead(s[i..], ByWords), st)
  {
    hide Upper, QuoteTail, CommentLen;
    var ok;
    end, ok := SpanAt(s, i);
    st', insert := st, false;
    if ok {
      return;
    }
    var word, wordEnd, isWord := ReadSqlIdentifier(s, i);
    LeadWord(s, i);
    var current := st.pending && st.depth == st.pendingDepth;
    if s[i] == '(' {
      st' := st.(depth := st.depth + 1);
    } else if s[i] == ')' {
      if current {
        insert := !st.hasEscape;
        st' := st'.Done();
      }
      if st.depth > 0 {
        st' := st'.(depth := st.depth - 1);
      }
    } else if current && (s[i] == ',' || s[i] == ';') {
      insert := !st.hasEscape;
      st' := st'.Done();
    } else if isWord {
      end := wordEnd;
      var upper := Upper(word);
      if current {
        if upper == "ESCAPE" {
          st' := st.(hasEscape := true);
        } else if IsTerminator(upper) {
          insert := !st.hasEscape;
          st' := st.Done();
        }
      }
      if upper == "LIKE" {
        st' := LikeState(true, st.depth, false, st.depth);
      }
      FragmentWords();
    }
  }
}
