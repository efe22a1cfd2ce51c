/**
 * Which statements are CREATE INDEX and ALTER TABLE ... ADD INDEX, by the words they are made of.
 *
 * A text is cut into words: identifiers, quoted spans, comments, numbers, and single bytes of
 * punctuation, white space left out.  The grammar speaks of words only; the laws say that the
 * recognisers of IndexStatements take exactly the texts of the grammar, and what they take from them.
 */
module IndexGrammar {
  import opened Options
  import opened Text
  import opened SqlScanner
  import opened SqlSplitting
  import opened SqlParsing
  import opened IndexStatements

  // ---------------------------------------------------------------------------------------------
  // Words
  // ---------------------------------------------------------------------------------------------

  /** Length of the word a text without leading white space starts with. */
  function WordLen(u: string): (n: nat)
    requires u != ""
    ensures 0 < n <= |u|
  {
    if IsDigit(u[0]) then 1 + NumberLen(u[1..]) else |Lead(u, ByWords).text|
  }

  function AfterWord(t: string): (rest: string)
    ensures |rest| <= |t| && (SkipSpaces(t) != "" ==> |rest| < |t|)
  {
    var u := SkipSpaces(t);
    if u == "" then "" else u[WordLen(u)..]
  }

  function Words(t: string): seq<string>
    decreases |t|
  {
    var u := SkipSpaces(t);
    if u == "" then [] else [u[..WordLen(u)]] + Words(AfterWord(t))
  }

  /** The text behind the first `k` words. */
  function After(t: string, k: nat): string
    decreases k
  {
    if k == 0 then t else After(AfterWord(t), k - 1)
  }

  // ---------------------------------------------------------------------------------------------
  // The grammar
  // ---------------------------------------------------------------------------------------------

  predicate IsWord(w: string) {
    w != "" && IsIdentifierStart(w[0])
  }

  predicate Is(w: string, keyword: string) {
    IsWord(w) && EqualFold(w, keyword)
  }

  predicate IsName(w: string) {
    w != "" && (IsIdentifierStart(w[0]) || w[0] == '`' || w[0] == '"')
  }

  predicate AllDigits(w: string) {
    w != "" && forall c :: c in w ==> IsDigit(c)
  }

  /** The words of `()` or `(digits)` that `w` starts with: how many, 0 if it does not. */
  function CallWords(w: seq<string>): (n: nat)
    ensures n <= |w|
  {
    if |w| > 1 && w[0] == "(" && w[1] == ")" then 2
    else if |w| > 2 && w[0] == "(" && AllDigits(w[1]) && w[2] == ")" then 3
    else 0
  }

  /** A quoted span, a number, or a word with a call or without. */
  predicate IsValue(w: seq<string>) {
    || (|w| == 1 && w[0] != "" && (IsQuote(w[0][0]) || IsDigit(w[0][0]) || IsWord(w[0])))
    || (|w| > 1 && IsWord(w[0]) && CallWords(w[1..]) == |w| - 1)
  }

  /** USING value, or USING = value. */
  predicate IsUsing(w: seq<string>) {
    |w| > 1 && Is(w[0], "USING") && IsValue(if w[1] == "=" then w[2..] else w[1..])
  }

  /** Names joined by dots. */
  predicate IsDotted(w: seq<string>) {
    |w| % 2 == 1 && forall i :: 0 <= i < |w| ==> if i % 2 == 0 then IsName(w[i]) else w[i] == "."
  }

  /** CREATE [UNIQUE] INDEX name [USING value] ON table; the table is the last part of its name. */
  ghost predicate CreateHead(w: seq<string>, unique: bool, table: string, name: string) {
    var i := if unique then 2 else 1;
    && |w| > i + 1 && Is(w[0], "CREATE") && (unique ==> Is(w[1], "UNIQUE")) && Is(w[i], "INDEX")
    && IsName(w[i + 1]) && name == UnquoteWord(w[i + 1])
    && table == UnquoteWord(w[|w| - 1]) && HasTable(w, i + 2)
  }

  ghost predicate HasTable(w: seq<string>, i: nat) {
    exists k: nat :: OnTable(w, i, k)
  }

  /** From word `i` on: an option up to word `k`, ON and the table. */
  predicate OnTable(w: seq<string>, i: nat, k: nat) {
    && i <= k < |w| && (k == i || IsUsing(w[i..k]))
    && Is(w[k], "ON") && IsDotted(w[k + 1..])
  }

  /**
   * ALTER TABLE table ADD [UNIQUE] INDEX|KEY [USING value] name [USING value]; a name USING without
   * an option before it has none behind it either, as it would be read as one.
   */
  ghost predicate AddHead(w: seq<string>, unique: bool, table: string, name: string, option: bool) {
    var i := if unique then 5 else 4;
    && |w| > i + 1 && Is(w[0], "ALTER") && Is(w[1], "TABLE") && IsName(w[2]) && table == w[2] && Is(w[3], "ADD")
    && (unique ==> Is(w[4], "UNIQUE")) && (Is(w[i], "INDEX") || Is(w[i], "KEY"))
    && HasName(w, i + 1, name, option)
  }

  ghost predicate HasName(w: seq<string>, i: nat, name: string, option: bool) {
    exists k: nat :: AddedName(w, i, k) && name == UnquoteWord(w[k]) && option == (k + 1 < |w|)
  }

  predicate AddedName(w: seq<string>, i: nat, k: nat) {
    && i <= k < |w| && (k == i || IsUsing(w[i..k])) && IsName(w[k])
    && (k + 1 == |w| || IsUsing(w[k + 1..]))
    && (k == i && Is(w[k], "USING") ==> k + 1 == |w|)
  }

  /** VISIBLE, INVISIBLE and USING options in any number, then a semicolon or nothing. */
  ghost predicate IsTail(w: seq<string>)
    decreases |w|
  {
    || w == [] || w == [";"]
    || ((Is(w[0], "VISIBLE") || Is(w[0], "INVISIBLE")) && IsTail(w[1..]))
    || exists k :: 0 < k <= |w| && IsUsing(w[..k]) && IsTail(w[k..])
  }

  /** Behind the first `k` words stand the parenthesised columns, and behind those the options. */
  ghost predicate HasColumns(t: string, k: nat, columns: string) {
    var u := SkipSpaces(After(t, k));
    ParenInside(u);
    ParenLen(u) > 0 && columns == u[..ParenLen(u)] && IsTail(Words(u[ParenLen(u)..]))
  }

  ghost predicate IsCreateIndex(t: string, unique: bool, table: string, name: string, columns: string) {
    exists k :: 0 <= k <= |Words(t)| && CreateHead(Words(t)[..k], unique, table, name) && HasColumns(t, k, columns)
  }

  /** A call right behind an option that ends in a word belongs to the option. */
  ghost predicate IsAddIndex(t: string, unique: bool, table: string, name: string, columns: string) {
    exists k, option :: 0 < k <= |Words(t)| && AddHead(Words(t)[..k], unique, table, name, option) && HasColumns(t, k, columns)
                        && (option && IsWord(Words(t)[k - 1]) ==> CallWords(Words(t)[k..]) == 0)
  }

  // ---------------------------------------------------------------------------------------------
  // Words behind the parsers
  // ---------------------------------------------------------------------------------------------

  lemma WordsFirst(t: string)
    ensures SkipSpaces(t) == "" ==> Words(t) == [] && After(t, 1) == ""
    ensures SkipSpaces(t) != "" ==>
              var u := SkipSpaces(t);
              Words(t) == [u[..WordLen(u)]] + Words(After(t, 1)) && After(t, 1) == u[WordLen(u)..] && Words(t)[0] == u[..WordLen(u)]
  {
    hide SkipSpaces, WordLen;
    assert After(t, 1) == After(AfterWord(t), 0) == AfterWord(t);
  }

  lemma {:induction false} WordsAfter(t: string, k: nat)
    requires k <= |Words(t)|
    ensures Words(After(t, k)) == Words(t)[k..]
    decreases k
  {
    WordsFirst(t);
    AfterOne(t);
    hide Words, SkipSpaces, WordLen, AfterWord, After;
    if k > 0 {
      WordsAfter(AfterWord(t), k - 1);
      DropMore(Words(t), Words(AfterWord(t)), k);
      AfterStep(t, k);
    }
  }

  lemma AfterStep(t: string, k: nat)
    requires k > 0
    ensures After(t, k) == After(AfterWord(t), k - 1)
  {
    hide AfterWord;
  }

  lemma DropMore<T>(all: seq<T>, later: seq<T>, k: nat)
    requires 0 < k <= |all| && |all| > 0 && all == [all[0]] + later
    ensures |later| == |all| - 1 && all[k..] == later[k - 1..]
  {
  }

  lemma AfterOne(t: string)
    ensures After(t, 1) == AfterWord(t) && After(t, 0) == t
  {
    assert After(t, 1) == After(AfterWord(t), 0);
  }

  lemma {:induction false} AfterAfter(t: string, i: nat, j: nat)
    ensures After(After(t, i), j) == After(t, i + j)
    decreases i
  {
    hide AfterWord;
    if i > 0 {
      AfterAfter(AfterWord(t), i - 1, j);
      var u := AfterWord(t);
      assert After(t, i) == After(u, i - 1) && After(t, i + j) == After(u, i + j - 1);
    }
  }

  lemma WordStart(u: string)
    requires u != "" && IsIdentifierStart(u[0])
    ensures WordLen(u) == IdentifierLen(u) > 0
  {
    hide PartTail;
  }

  lemma ByteStart(u: string)
    requires u != "" && u[0] in "()=.;"
    ensures WordLen(u) == 1 && u[..1] == [u[0]]
  {
  }

  lemma SpacesSkipped(t: string)
    ensures SkipSpaces(t) != "" ==> !IsSpace(SkipSpaces(t)[0])
    ensures SkipSpaces(SkipSpaces(t)) == SkipSpaces(t)
  {
  }

  /** The keyword parser takes one word. */
  lemma KeywordWords(t: string, keyword: string)
    ensures var w := Words(t);
            Keyword(t, keyword) == if w != [] && Is(w[0], keyword) then Some(After(t, 1)) else None
  {
    WordsFirst(t);
    var u := SkipSpaces(t);
    if u != "" && IsIdentifierStart(u[0]) {
      WordStart(u);
    }
    hide SkipSpaces, WordLen, Words, Upper, PartTail, AfterWord, After;
  }

  lemma NameWords(t: string)
    ensures var w := Words(t);
            NameToken(t) == if w != [] && IsName(w[0]) then Parsed(w[0], After(t, 1)) else Failed
  {
    WordsFirst(t);
    var u := SkipSpaces(t);
    if u != "" && IsIdentifierStart(u[0]) {
      WordStart(u);
    }
    hide SkipSpaces, Words, PartTail, QuoteTail, AfterWord, After;
  }

  // ---------------------------------------------------------------------------------------------
  // Options
  // ---------------------------------------------------------------------------------------------

  lemma {:induction false} DigitsInNumber(u: string)
    ensures DigitsLen(u) <= NumberLen(u)
    ensures DigitsLen(u) == NumberLen(u) <==> forall c :: c in u[..NumberLen(u)] ==> IsDigit(c)
    ensures DigitsLen(u) < NumberLen(u) ==> u[DigitsLen(u)] == '.'
  {
    if u != "" && (IsDigit(u[0]) || u[0] == '.') {
      DigitsInNumber(u[1..]);
      var n := NumberLen(u[1..]);
      assert u[..1 + n] == [u[0]] + u[1..][..n];
    }
  }

  /** The text behind a call. */
  function CallRest(t: string): Option<string> {
    var u := SkipSpaces(t);
    if u == "" || u[0] != '(' then None
    else
      var v := SkipSpaces(u[1..]);
      var x := SkipSpaces(v[DigitsLen(v)..]);
      if x != "" && x[0] == ')' then Some(x[1..]) else None
  }

  lemma CallRestIs(t: string)
    ensures TimestampLen(t) > 0 <==> CallRest(t).Some?
    ensures TimestampLen(t) > 0 ==> t[TimestampLen(t)..] == CallRest(t).value
  {
    hide SpaceLen, DigitsLen, TimestampLen, SkipSpaces;
    var open := SpaceLen(t);
    var u := SkipSpaces(t);
    SpacesCut(t);
    if u != "" && u[0] == '(' {
      var close := TimestampAt(t);
      CallRestAt(t, open + 1, close);
      Suffix(t, open, 1);
      if close < |t| {
        Suffix(t, close, 1);
      }
    } else {
      NoTimestamp(t);
    }
  }

  lemma SpacesCut(t: string)
    ensures SkipSpaces(t) == t[SpaceLen(t)..] && (SkipSpaces(t) != "" <==> SpaceLen(t) < |t|)
  {
  }

  lemma TimestampAt(t: string) returns (close: nat)
    requires SpaceLen(t) < |t| && t[SpaceLen(t)] == '('
    ensures var inside := SpaceLen(t) + 1;
            var digits := inside + SpaceLen(t[inside..]);
            var after := digits + DigitsLen(t[digits..]);
            close == after + SpaceLen(t[after..]) && close <= |t|
    ensures TimestampLen(t) == if close < |t| && t[close] == ')' then close + 1 else 0
  {
    hide SpaceLen, DigitsLen;
    var inside := SpaceLen(t) + 1;
    var digits := inside + SpaceLen(t[inside..]);
    var after := digits + DigitsLen(t[digits..]);
    close := after + SpaceLen(t[after..]);
  }

  lemma NoTimestamp(t: string)
    requires SpaceLen(t) == |t| || t[SpaceLen(t)] != '('
    ensures TimestampLen(t) == 0
  {
    hide SpaceLen, DigitsLen;
  }

  lemma CallRestAt(t: string, inside: nat, close: nat)
    requires inside <= |t| && close <= |t|
    requires var digits := inside + SpaceLen(t[inside..]);
             var after := digits + DigitsLen(t[digits..]);
             close == after + SpaceLen(t[after..])
    ensures var v := SkipSpaces(t[inside..]); SkipSpaces(v[DigitsLen(v)..]) == t[close..]
  {
    hide SpaceLen, DigitsLen, SkipSpaces;
    var digits := inside + SpaceLen(t[inside..]);
    var after := digits + DigitsLen(t[digits..]);
    SkippedAt(t, inside, digits);
    SkippedAt(t, after, close);
    DropFrom(t, digits, DigitsLen(t[digits..]), after);
  }

  lemma SkippedAt(t: string, from: nat, upto: nat)
    requires from <= |t| && upto == from + SpaceLen(t[from..])
    ensures upto <= |t| && SkipSpaces(t[from..]) == t[upto..]
  {
    hide SpaceLen;
    Suffix(t, from, SpaceLen(t[from..]));
  }

  lemma DropFrom(t: string, from: nat, n: nat, upto: nat)
    requires from <= |t| && n <= |t| - from && upto == from + n
    ensures t[from..][n..] == t[upto..]
  {
  }

  lemma FirstIs(t: string)
    ensures var u, w := SkipSpaces(t), Words(t);
            && (u == "" <==> w == [])
            && (u != "" ==> w[0] != "" && w[0][0] == u[0] && w[0] == u[..WordLen(u)] && After(t, 1) == u[WordLen(u)..] && w[1..] == Words(After(t, 1)))
            && (u != "" && u[0] in "()=.;" ==> w[0] == [u[0]] && After(t, 1) == u[1..])
  {
    WordsFirst(t);
    var u := SkipSpaces(t);
    if u != "" && u[0] in "()=.;" {
      ByteStart(u);
    }
    hide SkipSpaces, WordLen, Words, After;
  }

  /** The words of a call behind its opening parenthesis. */
  function InsideWords(w: seq<string>): nat {
    if |w| > 0 && w[0] == ")" then 1 else if |w| > 1 && AllDigits(w[0]) && w[1] == ")" then 2 else 0
  }

  lemma CallWordsInside(w: seq<string>)
    ensures w == [] || w[0] != "(" ==> CallWords(w) == 0
    ensures w != [] && w[0] == "(" ==> CallWords(w) == if InsideWords(w[1..]) == 0 then 0 else 1 + InsideWords(w[1..])
  {
    if |w| > 1 {
      assert w[1..][0] == w[1] && (|w| > 2 ==> w[1..][1] == w[2]);
      assert w[1] == ")" ==> w[1][0] in w[1] && !IsDigit(w[1][0]);
    }
  }

  /** The words a call takes. */
  lemma CallRead(t: string)
    ensures TimestampLen(t) > 0 <==> CallWords(Words(t)) > 0
    ensures TimestampLen(t) > 0 ==> t[TimestampLen(t)..] == After(t, CallWords(Words(t)))
  {
    hide SkipSpaces, WordLen, Words, After, TimestampLen, CallWords, InsideWords, DigitsLen;
    CallRestIs(t);
    FirstIs(t);
    CallWordsInside(Words(t));
    var u := SkipSpaces(t);
    if u != "" && u[0] == '(' {
      var a := After(t, 1);
      AfterAfter(t, 1, InsideWords(Words(a)));
      CallInside(a);
    }
  }

  /** What follows the opening parenthesis. */
  lemma CallInside(a: string)
    ensures var v, n := SkipSpaces(a), InsideWords(Words(a));
            var x := SkipSpaces(v[DigitsLen(v)..]);
            && (x != "" && x[0] == ')' <==> n > 0)
            && (n > 0 ==> x[1..] == After(a, n))
  {
    hide SkipSpaces, WordLen, Words, After, DigitsLen;
    FirstIs(a);
    var v, w := SkipSpaces(a), Words(a);
    SpacesSkipped(a);
    if v == "" || !IsDigit(v[0]) {
      NoDigits(v);
      assert v[0..] == v;
      assert w != [] ==> !AllDigits(w[0]) by { assert w != [] ==> w[0][0] in w[0]; }
    } else {
      NumberInside(a, v, w);
    }
  }

  lemma NumberInside(a: string, v: string, w: seq<string>)
    requires v == SkipSpaces(a) && w == Words(a) && v != "" && IsDigit(v[0])
    ensures var x := SkipSpaces(v[DigitsLen(v)..]);
            && (x != "" && x[0] == ')' <==> InsideWords(w) > 0)
            && (InsideWords(w) > 0 ==> x[1..] == After(a, InsideWords(w)))
  {
    hide SkipSpaces, WordLen, Words, After, DigitsLen;
    FirstIs(a);
    DigitsOnly(v);
    var b := After(a, 1);
    if AllDigits(w[0]) {
      assert v[DigitsLen(v)..] == b && w[1..] == Words(b) && w[0] != ")";
      FirstIs(b);
      AfterAfter(a, 1, 1);
      assert |w| > 1 ==> w[1] == Words(b)[0];
    } else {
      PointStays(v[DigitsLen(v)..]);
    }
  }

  lemma NoDigits(v: string)
    ensures v == "" || !IsDigit(v[0]) ==> DigitsLen(v) == 0
  {
  }

  lemma PointStays(x: string)
    requires x != "" && x[0] == '.'
    ensures SkipSpaces(x) == x
  {
  }

  lemma DigitsOnly(v: string)
    requires v != "" && IsDigit(v[0])
    ensures var word := v[..WordLen(v)];
            if AllDigits(word) then DigitsLen(v) == WordLen(v) else DigitsLen(v) < |v| && v[DigitsLen(v)] == '.'
  {
    DigitsInNumber(v[1..]);
    var n := NumberLen(v[1..]);
    assert v[..1 + n] == [v[0]] + v[1..][..n];
  }

  /** How many words a value takes, with a call if one follows. */
  function ValueWords(w: seq<string>): (n: nat)
    ensures n <= |w|
  {
    if w == [] || w[0] == "" then 0
    else if IsQuote(w[0][0]) || IsDigit(w[0][0]) then 1
    else if IsWord(w[0]) then 1 + CallWords(w[1..])
    else 0
  }

  function OptionWords(w: seq<string>): (n: nat)
    ensures n <= |w|
  {
    if w == [] || w[0] != "=" then ValueWords(w)
    else if ValueWords(w[1..]) == 0 then 0 else 1 + ValueWords(w[1..])
  }

  /** How many words an option USING takes. */
  function UsingWords(w: seq<string>): (n: nat)
    ensures n <= |w|
  {
    if w == [] || !Is(w[0], "USING") || OptionWords(w[1..]) == 0 then 0 else 1 + OptionWords(w[1..])
  }

  lemma QuoteStart(u: string)
    requires u != "" && IsQuote(u[0])
    ensures WordLen(u) == 1 + QuoteTail(u[1..], u[0])
  {
    hide QuoteTail;
  }

  lemma NumberStart(u: string)
    requires u != "" && IsDigit(u[0])
    ensures WordLen(u) == 1 + NumberLen(u[1..])
  {
  }

  lemma ValueRead(t: string)
    ensures var n := ValueWords(Words(t)); AfterValue(t) == if n > 0 then Some(After(t, n)) else None
  {
    hide SkipSpaces, Words, After, CallWords, TimestampLen, QuoteTail, IdentifierLen, NumberLen, WordLen;
    FirstIs(t);
    var u := SkipSpaces(t);
    if u != "" {
      if IsQuote(u[0]) {
        QuoteStart(u);
      } else if IsIdentifierStart(u[0]) {
        WordStart(u);
        WordValue(t, u);
      } else if IsDigit(u[0]) {
        NoIdentifier(u);
        NumberStart(u);
      } else {
        NoIdentifier(u);
      }
    }
  }

  lemma NoIdentifier(u: string)
    requires u != "" && !IsIdentifierStart(u[0])
    ensures IdentifierLen(u) == 0
  {
  }

  lemma WordValue(t: string, u: string)
    requires u == SkipSpaces(t) && u != "" && IsIdentifierStart(u[0]) && IdentifierLen(u) > 0 && After(t, 1) == u[IdentifierLen(u)..]
    requires Words(t) != [] && Words(t)[0] != "" && Words(t)[0][0] == u[0] && Words(t)[1..] == Words(After(t, 1))
    ensures AfterValue(t) == Some(After(t, ValueWords(Words(t)))) && ValueWords(Words(t)) > 0
  {
    hide SkipSpaces, Words, After, CallWords, TimestampLen, QuoteTail, IdentifierLen, NumberLen;
    var v := After(t, 1);
    CallRead(v);
    AfterAfter(t, 1, CallWords(Words(v)));
    AfterOne(v);
    assert v[0..] == v;
  }

  lemma OptionRead(t: string)
    ensures var n := OptionWords(Words(t)); AfterOptionValue(t) == if n > 0 then Some(After(t, n)) else None
  {
    FirstIs(t);
    var u, a := SkipSpaces(t), After(t, 1);
    ValueRead(t);
    ValueRead(a);
    ValueSpaces(t);
    AfterAfter(t, 1, ValueWords(Words(a)));
    hide SkipSpaces, Words, After, AfterValue, ValueWords, WordLen;
    if u != "" && u[0] == '=' {
      assert Words(t)[0] == "=";
    } else {
      assert Words(t) == [] || Words(t)[0] != "=";
    }
  }

  lemma ValueSpaces(t: string)
    ensures AfterValue(SkipSpaces(t)) == AfterValue(t)
  {
    hide AfterValue, SkipSpaces;
    SpacesSkipped(t);
    SameValue(SkipSpaces(t), t);
  }

  lemma SameValue(a: string, b: string)
    requires SkipSpaces(a) == SkipSpaces(b)
    ensures AfterValue(a) == AfterValue(b)
  {
    hide SkipSpaces, TimestampLen, QuoteTail, IdentifierLen, NumberLen;
  }

  lemma UsingRead(t: string)
    ensures var n := UsingWords(Words(t));
            && AfterOption(t, "USING") == (if n > 0 then Some(After(t, n)) else None)
            && OrSame(AfterOption(t, "USING"), t) == After(t, n)
  {
    KeywordWords(t, "USING");
    FirstIs(t);
    var a := After(t, 1);
    OptionRead(a);
    AfterAfter(t, 1, OptionWords(Words(a)));
    AfterOne(t);
    hide SkipSpaces, Words, After, AfterOptionValue, OptionWords, WordLen, Keyword, Is;
  }

  // ---------------------------------------------------------------------------------------------
  // What is taken is what the grammar allows
  // ---------------------------------------------------------------------------------------------

  lemma ValueTaken(w: seq<string>)
    requires ValueWords(w) > 0
    ensures IsValue(w[..ValueWords(w)])
  {
    var n := ValueWords(w);
    if n > 1 {
      assert w[..n][1..] == w[1..][..n - 1];
      CallTaken(w[1..]);
    }
  }

  lemma CallTaken(w: seq<string>)
    ensures CallWords(w[..CallWords(w)]) == CallWords(w)
  {
  }

  lemma CallFits(w: seq<string>, n: nat)
    requires 0 < n <= |w| && CallWords(w[..n]) == n
    ensures CallWords(w) == n
  {
    assert AllDigits(w[1]) ==> w[1] != ")" by { assert AllDigits(w[1]) ==> w[1][0] in w[1]; }
  }

  lemma ValueFits(w: seq<string>, n: nat)
    requires 0 < n <= |w| && IsValue(w[..n]) && (IsWord(w[n - 1]) ==> CallWords(w[n..]) == 0)
    ensures ValueWords(w) == n
  {
    if n > 1 {
      assert w[..n][1..] == w[1..][..n - 1];
      CallFits(w[1..], n - 1);
    }
  }

  lemma UsingTaken(w: seq<string>)
    requires UsingWords(w) > 0
    ensures IsUsing(w[..UsingWords(w)])
  {
    var n := UsingWords(w);
    var a := w[..n];
    hide ValueWords, IsValue, Is;
    if w[1] == "=" {
      assert w[1..][1..] == w[2..] && a[2..] == w[2..][..n - 2];
      ValueTaken(w[2..]);
    } else {
      assert a[1..] == w[1..][..n - 1];
      ValueTaken(w[1..]);
    }
  }

  lemma UsingFits(w: seq<string>, n: nat)
    requires 0 < n <= |w| && IsUsing(w[..n]) && (IsWord(w[n - 1]) ==> CallWords(w[n..]) == 0)
    ensures UsingWords(w) == n
  {
    var a := w[..n];
    hide ValueWords, Is, CallWords, IsWord;
    if w[1] == "=" {
      assert w[1..][1..] == w[2..] && a[2..] == w[2..][..n - 2] && w[2..][n - 2..] == w[n..];
      assert |a[2..]| > 0;
      ValueFits(w[2..], n - 2);
    } else {
      assert a[1..] == w[1..][..n - 1] && w[1..][n - 1..] == w[n..];
      ValueFits(w[1..], n - 1);
    }
  }

  /** How many words a dotted name takes. */
  function DottedWords(w: seq<string>): (n: nat)
    ensures n <= |w|
  {
    if w == [] || !IsName(w[0]) then 0
    else if |w| == 1 || w[1] != "." then 1
    else if DottedWords(w[2..]) == 0 then 0 else 2 + DottedWords(w[2..])
  }

  lemma DottedCons(a: seq<string>, b: seq<string>)
    requires |a| == 2 && IsName(a[0]) && a[1] == "." && IsDotted(b)
    ensures IsDotted(a + b)
  {
    hide IsName;
    assert |a + b| == 2 + |b|;
    forall i | 0 <= i < |a + b|
      ensures if i % 2 == 0 then IsName((a + b)[i]) else (a + b)[i] == "."
    {
      if i < 2 {
        assert (a + b)[i] == a[i];
      } else {
        assert (a + b)[i] == b[i - 2] && (i - 2) % 2 == i % 2;
      }
    }
  }

  lemma DottedRest(a: seq<string>)
    requires IsDotted(a) && |a| > 1
    ensures |a| > 2 && IsName(a[0]) && a[1] == "." && IsDotted(a[2..])
  {
    hide IsName;
    assert a[0] == a[0] && a[1] == a[1];
    var b := a[2..];
    forall i | 0 <= i < |b|
      ensures if i % 2 == 0 then IsName(b[i]) else b[i] == "."
    {
      assert b[i] == a[i + 2] && (i + 2) % 2 == i % 2;
    }
  }

  lemma {:induction false} DottedTaken(w: seq<string>)
    requires DottedWords(w) > 0
    ensures IsDotted(w[..DottedWords(w)])
  {
    var n := DottedWords(w);
    if n > 1 {
      DottedTaken(w[2..]);
      DottedCons(w[..2], w[2..][..n - 2]);
      assert w[..n] == w[..2] + w[2..][..n - 2];
    }
  }

  lemma {:induction false} DottedFits(w: seq<string>, n: nat)
    requires n <= |w| && IsDotted(w[..n]) && (n < |w| ==> w[n] != ".")
    ensures DottedWords(w) == n
  {
    var a := w[..n];
    if n > 1 {
      DottedRest(a);
      hide IsDotted;
      assert a[2..] == w[2..][..n - 2] && a[0] == w[0] && a[1] == w[1];
      DottedFits(w[2..], n - 2);
    } else {
      assert a[0] == w[0];
    }
  }

  lemma DottedStep(w: seq<string>, later: seq<string>)
    requires w != [] && IsName(w[0]) && w[1..] == later
    ensures DottedWords(w) ==
              if later == [] || later[0] != "." then 1 else if DottedWords(later[1..]) == 0 then 0 else 2 + DottedWords(later[1..])
  {
    hide IsName;
    if later != [] {
      assert later[0] == w[1] && later[1..] == w[2..];
    }
  }

  /** What stands behind the first name of a dotted one. */
  lemma {:induction false} TailRead(name: string, t: string)
    ensures var w := Words(t);
            QualifiedTail(name, t) ==
              if w == [] || w[0] != "." then Parsed(UnquoteWord(name), t)
              else if DottedWords(w[1..]) == 0 then Failed
              else Parsed(UnquoteWord(w[DottedWords(w[1..])]), After(t, 1 + DottedWords(w[1..])))
    decreases |t|
  {
    hide SkipSpaces, Words, After, UnquoteWord, NameToken, WordLen, DottedWords, IsName, QualifiedTail;
    FirstIs(t);
    TailStep(name, t);
    var u := SkipSpaces(t);
    if u != "" && u[0] == '.' {
      var a := After(t, 1);
      NameWords(a);
      FirstIs(a);
      var part := NameToken(a);
      if part.Parsed? {
        TailRead(part.text, part.rest);
        DottedStep(Words(a), Words(part.rest));
        TwoOn(t, a, part.rest, DottedWords(Words(part.rest)[if Words(part.rest) == [] then 0 else 1..]));
      } else {
        NoDotted(Words(a));
      }
    }
  }

  lemma TailStep(name: string, t: string)
    ensures var u := SkipSpaces(t);
            QualifiedTail(name, t) ==
              if u == "" || u[0] != '.' then Parsed(UnquoteWord(name), t)
              else if NameToken(u[1..]).Failed? then Failed
              else QualifiedTail(NameToken(u[1..]).text, NameToken(u[1..]).rest)
  {
    hide SkipSpaces, UnquoteWord, NameToken;
  }

  lemma NoDotted(w: seq<string>)
    requires w == [] || !IsName(w[0])
    ensures DottedWords(w) == 0
  {
  }

  lemma TwoOn(t: string, a: string, b: string, n: nat)
    requires a == After(t, 1) && b == After(a, 1) && |Words(t)| > 1 && Words(t)[1..] == Words(a) && Words(a)[1..] == Words(b)
    ensures After(t, 2) == b && After(b, 1 + n) == After(t, 3 + n) && Words(t)[1] == Words(a)[0]
    ensures n < |Words(b)| ==> Words(b)[n] == Words(t)[2 + n]
  {
    hide Words, After;
    AfterAfter(t, 1, 1);
    AfterAfter(t, 2, 1 + n);
  }

  /** The dotted name as the parser takes it. */
  lemma DottedRead(t: string)
    ensures var w := Words(t);
            QualifiedName(t) == if DottedWords(w) > 0 then Parsed(UnquoteWord(w[DottedWords(w) - 1]), After(t, DottedWords(w))) else Failed
  {
    hide SkipSpaces, Words, After, UnquoteWord, NameToken, WordLen, DottedWords, IsName, QualifiedTail;
    NameWords(t);
    FirstIs(t);
    var a := After(t, 1);
    FirstIs(a);
    TailRead(if Words(t) == [] then "" else Words(t)[0], a);
    if Words(t) != [] && IsName(Words(t)[0]) {
      DottedStep(Words(t), Words(a));
      var m := DottedWords(Words(a)[if Words(a) == [] then 0 else 1..]);
      AfterAfter(t, 1, 1 + m);
      assert m < |Words(a)| ==> Words(a)[m] == Words(t)[1 + m];
    } else {
      NoDotted(Words(t));
    }
  }

  // ---------------------------------------------------------------------------------------------
  // The end of the statement
  // ---------------------------------------------------------------------------------------------

  /** Options one after the other, as they come. */
  predicate TailFits(w: seq<string>)
    decreases |w|
  {
    if w != [] && (Is(w[0], "VISIBLE") || Is(w[0], "INVISIBLE")) then TailFits(w[1..])
    else if UsingWords(w) > 0 then TailFits(w[UsingWords(w)..])
    else w == [] || w == [";"]
  }

  lemma TailStart(w: seq<string>)
    requires IsTail(w)
    ensures w != [] ==> w[0] != "("
    ensures CallWords(w) == 0
  {
    hide IsValue;
    if w != [] && w != [";"] && !((Is(w[0], "VISIBLE") || Is(w[0], "INVISIBLE")) && IsTail(w[1..])) {
      var k :| 0 < k <= |w| && IsUsing(w[..k]) && IsTail(w[k..]);
      assert w[..k][0] == w[0];
    }
  }

  lemma {:induction false} TailIs(w: seq<string>)
    ensures TailFits(w) <==> IsTail(w)
    decreases |w|
  {
    hide IsUsing, UsingWords, CallWords;
    if w != [] && (Is(w[0], "VISIBLE") || Is(w[0], "INVISIBLE")) {
      TailIs(w[1..]);
      NotUsing(w);
    } else if UsingWords(w) > 0 {
      var n := UsingWords(w);
      UsingTaken(w);
      UsingStart(w);
      TailIs(w[n..]);
      UsingTail(w);
    } else if w != [] && w != [";"] && IsTail(w) {
      UsingTail(w);
    }
  }

  lemma UsingStart(w: seq<string>)
    requires UsingWords(w) > 0
    ensures w != [] && w != [";"] && Is(w[0], "USING")
  {
  }

  lemma NotUsing(w: seq<string>)
    requires w != [] && (Is(w[0], "VISIBLE") || Is(w[0], "INVISIBLE"))
    ensures forall k :: 0 < k <= |w| ==> !IsUsing(w[..k])
  {
    forall k | 0 < k <= |w|
      ensures !IsUsing(w[..k])
    {
      assert w[..k][0] == w[0];
      OtherWords(w[0]);
      hide Upper, IsValue;
    }
  }

  lemma OtherWords(x: string)
    ensures EqualFold(x, "USING") ==> !EqualFold(x, "VISIBLE") && !EqualFold(x, "INVISIBLE") && !EqualFold(x, "ON")
    ensures EqualFold(x, "UNIQUE") ==> !EqualFold(x, "INDEX") && !EqualFold(x, "KEY")
    ensures EqualFold(x, "ALTER") ==> !EqualFold(x, "CREATE")
  {
    assert |Upper(x)| == |x|;
    assert "CREATE" != "ALTER" && |Upper("USING")| == 5 && |Upper("VISIBLE")| == 7 && |Upper("INVISIBLE")| == 9;
    assert |Upper("UNIQUE")| == 6 && |Upper("INDEX")| == 5 && |Upper("KEY")| == 3 && |Upper("ON")| == 2;
    assert |Upper("ALTER")| == 5 && |Upper("CREATE")| == 6;
    hide Upper;
  }

  /** A tail that starts with an option goes on behind it. */
  lemma UsingTail(w: seq<string>)
    requires w != [] && w != [";"] && !Is(w[0], "VISIBLE") && !Is(w[0], "INVISIBLE")
    ensures IsTail(w) ==> UsingWords(w) > 0 && IsTail(w[UsingWords(w)..])
  {
    hide IsUsing, UsingWords, CallWords, Is;
    if IsTail(w) {
      var k :| 0 < k <= |w| && IsUsing(w[..k]) && IsTail(w[k..]);
      TailStart(w[k..]);
      UsingFits(w, k);
    }
  }

  lemma {:induction false} OptionsRead(t: string)
    ensures Ends(AfterIndexOptions(t)) <==> TailFits(Words(t))
    decreases |t|
  {
    hide Words, After, Keyword, AfterOption, UsingWords, Ends, Is, SkipSpaces, WordLen;
    KeywordWords(t, "VISIBLE");
    KeywordWords(t, "INVISIBLE");
    UsingRead(t);
    FirstIs(t);
    var w := Words(t);
    if w != [] && (Is(w[0], "VISIBLE") || Is(w[0], "INVISIBLE")) {
      OptionsRead(After(t, 1));
    } else if UsingWords(w) > 0 {
      OptionsRead(After(t, UsingWords(w)));
      WordsAfter(t, UsingWords(w));
    } else {
      EndsRead(t);
    }
  }

  lemma EndsRead(t: string)
    ensures Ends(t) <==> Words(t) == [] || Words(t) == [";"]
  {
    hide Words, After, SkipSpaces, WordLen;
    FirstIs(t);
    FirstIs(After(t, 1));
    assert Words(t) != [] ==> Words(t) == [Words(t)[0]] + Words(After(t, 1));
  }

  // ---------------------------------------------------------------------------------------------
  // The statements
  // ---------------------------------------------------------------------------------------------

  /** The columns and what follows, from the word at `k` on. */
  lemma ColumnsRead(t: string, k: nat, unique: bool, table: string, name: string)
    ensures var index := WithColumns(unique, table, name, After(t, k));
            && (index.Index? ==> index == Index(unique, table, UnquoteWord(name), index.columns) && HasColumns(t, k, index.columns))
            && forall columns :: HasColumns(t, k, columns) ==> index == Index(unique, table, UnquoteWord(name), columns)
  {
    hide SkipSpaces, After, Words, ParenLen, IsTail, UnquoteWord, Ends, AfterIndexOptions, TailFits;
    var u := SkipSpaces(After(t, k));
    ParenInside(u);
    var rest := u[ParenLen(u)..];
    OptionsRead(rest);
    TailIs(Words(rest));
  }

  lemma ColumnsStart(t: string, k: nat, columns: string)
    requires k <= |Words(t)| && HasColumns(t, k, columns)
    ensures k < |Words(t)| && Words(t)[k] == "("
  {
    var u := SkipSpaces(After(t, k));
    assert ParenLen(u) > 0 ==> u != "" && u[0] == '(';
    hide SkipSpaces, After, Words, ParenLen, IsTail, WordLen;
    FirstIs(After(t, k));
    WordsAfter(t, k);
  }

  /** The word at which the columns must begin, counted behind the name of the index; 0 if there is none. */
  function OnWords(w: seq<string>): (n: nat)
    ensures n <= |w|
  {
    var k := UsingWords(w);
    if k == |w| || !Is(w[k], "ON") || DottedWords(w[k + 1..]) == 0 then 0 else k + 1 + DottedWords(w[k + 1..])
  }

  lemma OnRead(t: string, unique: bool)
    ensures var w := Words(t);
            ReadIndexOn(unique, t) ==
              if w == [] || !IsName(w[0]) || OnWords(w[1..]) == 0 then NoIndex
              else WithColumns(unique, UnquoteWord(w[OnWords(w[1..])]), w[0], After(t, 1 + OnWords(w[1..])))
  {
    hide SkipSpaces, After, Words, UnquoteWord, WithColumns, NameToken, Keyword, QualifiedName, AfterOption, UsingWords, DottedWords, Is, IsName, WordLen;
    NameWords(t);
    FirstIs(t);
    var w, a := Words(t), After(t, 1);
    if w != [] && IsName(w[0]) {
      var k := UsingWords(Words(a));
      UsingRead(a);
      var b := After(a, k);
      KeywordWords(b, "ON");
      WordsAfter(a, k);
      FirstIs(b);
      var c := After(b, 1);
      DottedRead(c);
      AfterAfter(a, k, 1);
      AfterAfter(a, k + 1, DottedWords(Words(c)));
      AfterAfter(t, 1, k + 1 + DottedWords(Words(c)));
      OnCut(w, Words(a), Words(b), Words(c), k, DottedWords(Words(c)));
    }
  }

  lemma OnCut(w: seq<string>, a: seq<string>, b: seq<string>, c: seq<string>, k: nat, d: nat)
    requires w != [] && w[1..] == a && k <= |a| && a[k..] == b && (b != [] ==> b[1..] == c)
    ensures k == |a| <==> b == []
    ensures b != [] ==> a[k] == b[0] && a[k + 1..] == c && (0 < d <= |c| ==> c[d - 1] == w[k + 1 + d])
  {
  }

  /** ON and the table in front of a parenthesis: as taken, and as the grammar says. */
  lemma OnTaken(w: seq<string>, i: nat, m: nat)
    requires i <= m < |w| && OnWords(w[i..]) == m - i > 0
    ensures HasTable(w[..m], i)
  {
    hide UsingWords, DottedWords, IsUsing, IsDotted, Is;
    var v, h := w[i..], w[..m];
    var k := UsingWords(v);
    if k > 0 {
      UsingTaken(v);
    }
    DottedTaken(v[k + 1..]);
    assert h[i..i + k] == v[..k] && h[i + k] == v[k];
    assert h[i + k + 1..] == v[k + 1..][..m - i - k - 1];
    assert OnTable(h, i, i + k);
  }

  lemma OnFits(w: seq<string>, i: nat, m: nat)
    requires i <= m < |w| && w[m] == "(" && HasTable(w[..m], i)
    ensures OnWords(w[i..]) == m - i > 0
  {
    hide UsingWords, DottedWords, IsUsing, IsDotted, Is, CallWords;
    var v, h := w[i..], w[..m];
    var k: nat :| OnTable(h, i, k);
    var n := k - i;
    assert h[i..k] == v[..n] && h[k] == v[n] && h[k + 1..] == v[n + 1..][..m - k - 1] && v[n + 1..][m - k - 1..] == w[m..];
    OnNoCall(v[n..]);
    if n > 0 {
      UsingFits(v, n);
    } else {
      OnNoUsing(v);
    }
    assert IsDotted(h[k + 1..]) ==> |h[k + 1..]| > 0 by { DottedSome(h[k + 1..]); }
    DottedFits(v[n + 1..], m - k - 1);
  }

  lemma DottedSome(w: seq<string>)
    ensures IsDotted(w) ==> |w| > 0
  {
  }

  lemma OnNoCall(w: seq<string>)
    requires w != [] && Is(w[0], "ON")
    ensures CallWords(w) == 0
  {
  }

  lemma OnNoUsing(w: seq<string>)
    requires w != [] && Is(w[0], "ON")
    ensures UsingWords(w) == 0
  {
    OtherWords(w[0]);
    hide Upper;
  }

  /** The words [UNIQUE] INDEX; 0 if others stand there. */
  function IndexWords(w: seq<string>): (n: nat)
    ensures n <= |w|
  {
    if w == [] then 0
    else if Is(w[0], "UNIQUE") then if |w| > 1 && Is(w[1], "INDEX") then 2 else 0
    else if Is(w[0], "INDEX") then 1 else 0
  }

  /** The words up to INDEX; 0 if the statement starts otherwise. */
  function CreateWords(w: seq<string>): (n: nat)
    ensures n <= |w|
  {
    if w == [] || !Is(w[0], "CREATE") || IndexWords(w[1..]) == 0 then 0 else 1 + IndexWords(w[1..])
  }

  lemma IndexWordRead(t: string)
    ensures var w := Words(t);
            var unique := Keyword(t, "UNIQUE");
            && (unique.Some? <==> w != [] && Is(w[0], "UNIQUE"))
            && Keyword(OrSame(unique, t), "INDEX") == (if IndexWords(w) > 0 then Some(After(t, IndexWords(w))) else None)
  {
    hide SkipSpaces, After, Words, Keyword, Is, WordLen;
    KeywordWords(t, "UNIQUE");
    KeywordWords(t, "INDEX");
    FirstIs(t);
    var a := After(t, 1);
    KeywordWords(a, "INDEX");
    FirstIs(a);
    AfterAfter(t, 1, 1);
  }

  lemma CreateRead(t: string)
    ensures var n := CreateWords(Words(t));
            ReadCreateIndex(t) == if n == 0 then NoIndex else ReadIndexOn(n == 3, After(t, n))
  {
    hide SkipSpaces, After, Words, Keyword, ReadIndexOn, Is, WordLen, OrSame;
    var a := After(t, 1);
    KeywordWords(t, "CREATE");
    FirstIs(t);
    IndexWordRead(a);
    AfterAfter(t, 1, IndexWords(Words(a)));
    UniqueWords(Words(a));
    hide IndexWords;
  }

  lemma UniqueWords(w: seq<string>)
    ensures IndexWords(w) == 2 ==> Is(w[0], "UNIQUE")
    ensures IndexWords(w) == 1 ==> !Is(w[0], "UNIQUE")
    ensures IndexWords(w) <= 2
  {
  }

  /** The whole head, given where INDEX stands. */
  lemma CreateNamed(t: string, i: nat)
    requires CreateWords(Words(t)) == i > 0
    ensures var w := Words(t);
            ReadCreateIndex(t) ==
              if i == |w| || !IsName(w[i]) || OnWords(w[i + 1..]) == 0 then NoIndex
              else var m := i + 1 + OnWords(w[i + 1..]); WithColumns(i == 3, UnquoteWord(w[m - 1]), w[i], After(t, m))
  {
    hide SkipSpaces, After, Words, UnquoteWord, WithColumns, ReadIndexOn, IsName, OnWords, CreateWords, WordLen, ReadCreateIndex;
    var w := Words(t);
    CreateRead(t);
    WordsAfter(t, i);
    OnRead(After(t, i), i == 3);
    if i < |w| {
      assert w[i..][1..] == w[i + 1..];
      AfterAfter(t, i, 1 + OnWords(w[i + 1..]));
    }
  }

  /** CREATE INDEX is read exactly where the grammar has it, and as what it says. */
  lemma CreateIndexRead(t: string, unique: bool, table: string, name: string, columns: string)
    ensures ReadCreateIndex(t) == Index(unique, table, name, columns) <==> IsCreateIndex(t, unique, table, name, columns)
  {
    hide SkipSpaces, After, Words, UnquoteWord, WithColumns, ReadCreateIndex, CreateHead, HasColumns, CreateWords;
    if ReadCreateIndex(t) == Index(unique, table, name, columns) {
      CreateTaken(t, unique, table, name, columns);
    }
    if IsCreateIndex(t, unique, table, name, columns) {
      var k :| 0 <= k <= |Words(t)| && CreateHead(Words(t)[..k], unique, table, name) && HasColumns(t, k, columns);
      CreateFits(t, k, unique, table, name, columns);
    }
  }

  lemma CreateTaken(t: string, unique: bool, table: string, name: string, columns: string)
    requires ReadCreateIndex(t) == Index(unique, table, name, columns)
    ensures IsCreateIndex(t, unique, table, name, columns)
  {
    hide SkipSpaces, After, Words, UnquoteWord, WithColumns, ReadCreateIndex, HasColumns, HasTable, OnWords, IsName, Is, WordLen, ReadIndexOn;
    var w := Words(t);
    CreateRead(t);
    var i := CreateWords(w);
    CreateNamed(t, i);
    var m := i + 1 + OnWords(w[i + 1..]);
    ColumnsRead(t, m, i == 3, UnquoteWord(w[m - 1]), w[i]);
    ColumnsStart(t, m, columns);
    OnTaken(w, i + 1, m);
    var h := w[..m];
    assert h[0] == w[0] && h[1] == w[1] && h[2] == w[2] && h[i] == w[i] && h[|h| - 1] == w[m - 1];
    assert CreateHead(h, unique, table, name);
  }

  lemma CreateFits(t: string, k: nat, unique: bool, table: string, name: string, columns: string)
    requires k <= |Words(t)| && CreateHead(Words(t)[..k], unique, table, name) && HasColumns(t, k, columns)
    ensures ReadCreateIndex(t) == Index(unique, table, name, columns)
  {
    hide SkipSpaces, After, Words, UnquoteWord, WithColumns, ReadCreateIndex, HasColumns, HasTable, OnWords, IsName, WordLen;
    var w := Words(t);
    var h, i := w[..k], if unique then 3 else 2;
    ColumnsStart(t, k, columns);
    assert h[0] == w[0] && h[1] == w[1] && h[i - 1] == w[i - 1] && h[i] == w[i] && h[|h| - 1] == w[k - 1];
    NotUnique(w[1]);
    hide Is;
    assert CreateWords(w) == i;
    CreateNamed(t, i);
    OnFits(w, i + 1, k);
    ColumnsRead(t, k, unique, UnquoteWord(w[k - 1]), w[i]);
  }

  lemma NotUnique(x: string)
    ensures Is(x, "INDEX") || Is(x, "KEY") ==> !Is(x, "UNIQUE")
  {
    OtherWords(x);
    hide Upper;
  }

  /** The words [UNIQUE] INDEX|KEY; 0 if others stand there. */
  function KeyWords(w: seq<string>): (n: nat)
    ensures n <= |w| && n <= 2
    ensures n > 0 ==> (n == 2 <==> Is(w[0], "UNIQUE"))
  {
    if w == [] then 0
    else if Is(w[0], "UNIQUE") then if |w| > 1 && (Is(w[1], "INDEX") || Is(w[1], "KEY")) then 2 else 0
    else if Is(w[0], "INDEX") || Is(w[0], "KEY") then 1 else 0
  }

  /** The words ALTER TABLE table ADD. */
  predicate Alters(w: seq<string>) {
    |w| >= 4 && Is(w[0], "ALTER") && Is(w[1], "TABLE") && IsName(w[2]) && Is(w[3], "ADD")
  }

  lemma AltersRead(t: string)
    ensures var w := Words(t);
            ReadAddIndex(t) == if Alters(w) then ReadAdded(w[2], After(t, 4)) else NoIndex
  {
    hide SkipSpaces, After, Words, Keyword, ReadAdded, Is, IsName, WordLen, NameToken;
    KeywordWords(t, "ALTER");
    FirstIs(t);
    var a := After(t, 1);
    KeywordWords(a, "TABLE");
    FirstIs(a);
    var b := After(a, 1);
    NameWords(b);
    FirstIs(b);
    var c := After(b, 1);
    KeywordWords(c, "ADD");
    FourAfter(t);
    FourWords(Words(t), Words(a), Words(b), Words(c));
    hide Alters;
  }

  lemma FourAfter(t: string)
    ensures After(After(After(After(t, 1), 1), 1), 1) == After(t, 4)
  {
    AfterAfter(t, 1, 1);
    AfterAfter(t, 2, 1);
    AfterAfter(t, 3, 1);
    hide After;
  }

  lemma FourWords(w: seq<string>, a: seq<string>, b: seq<string>, c: seq<string>)
    requires (w != [] ==> w[1..] == a) && (a != [] ==> a[1..] == b) && (b != [] ==> b[1..] == c)
    ensures Alters(w) <==> w != [] && Is(w[0], "ALTER") && a != [] && Is(a[0], "TABLE") && b != [] && IsName(b[0]) && c != [] && Is(c[0], "ADD")
    ensures |w| >= 4 ==> b != [] && w[2] == b[0]
  {
    hide Is, IsName;
  }

  lemma KeyWordRead(t: string, table: string)
    ensures var n := KeyWords(Words(t));
            ReadAdded(table, t) == if n == 0 then NoIndex else ReadNamed(n == 2, table, After(t, n))
  {
    hide SkipSpaces, After, Words, Keyword, Is, WordLen, ReadNamed;
    KeywordWords(t, "UNIQUE");
    KeywordWords(t, "INDEX");
    KeywordWords(t, "KEY");
    FirstIs(t);
    var a := After(t, 1);
    KeywordWords(a, "INDEX");
    KeywordWords(a, "KEY");
    FirstIs(a);
    AfterAfter(t, 1, 1);
  }

  /** The words [USING value] name [USING value]; 0 if others stand there. */
  function NamedWords(w: seq<string>): (n: nat)
    ensures n <= |w| && (n > 0 ==> UsingWords(w) < n)
  {
    var k := UsingWords(w);
    if k == |w| || !IsName(w[k]) then 0 else k + 1 + UsingWords(w[k + 1..])
  }

  lemma NamedRead(t: string, unique: bool, table: string)
    ensures var w := Words(t);
            ReadNamed(unique, table, t) ==
              if NamedWords(w) == 0 then NoIndex else WithColumns(unique, table, w[UsingWords(w)], After(t, NamedWords(w)))
  {
    hide SkipSpaces, After, Words, Is, WordLen, IsName, NameToken, AfterOption, WithColumns, UsingWords, OrSame;
    var w := Words(t);
    var k := UsingWords(w);
    UsingRead(t);
    var a := After(t, k);
    WordsAfter(t, k);
    NameWords(a);
    FirstIs(a);
    var b := After(a, 1);
    UsingRead(b);
    AfterAfter(t, k, 1);
    AfterAfter(t, k + 1, UsingWords(Words(b)));
    if k < |w| {
      assert w[k..][0] == w[k] && w[k..][1..] == w[k + 1..];
    }
  }

  /** The words up to INDEX or KEY; 0 if the statement starts otherwise. */
  function AddWords(w: seq<string>): (n: nat)
    ensures n <= |w|
  {
    if !Alters(w) || KeyWords(w[4..]) == 0 then 0 else 4 + KeyWords(w[4..])
  }

  /** The whole head, given where INDEX or KEY stands. */
  lemma AddNamed(t: string)
    ensures var w := Words(t);
            var i := AddWords(w);
            ReadAddIndex(t) ==
              if i == 0 || NamedWords(w[i..]) == 0 then NoIndex
              else WithColumns(i == 6, w[2], w[i + UsingWords(w[i..])], After(t, i + NamedWords(w[i..])))
  {
    hide SkipSpaces, After, Words, WithColumns, ReadAdded, ReadNamed, IsName, UsingWords, WordLen, ReadAddIndex, KeyWords, NamedWords, Is;
    var w := Words(t);
    AltersRead(t);
    if Alters(w) {
      var a := After(t, 4);
      WordsAfter(t, 4);
      KeyWordRead(a, w[2]);
      var i := 4 + KeyWords(Words(a));
      AfterAfter(t, 4, KeyWords(Words(a)));
      WordsAfter(t, i);
      NamedRead(After(t, i), i == 6, w[2]);
      assert w[i..] == Words(After(t, i));
      AfterAfter(t, i, NamedWords(w[i..]));
    }
  }

  /** A value that is a word takes the call behind it. */
  lemma UsingTakesCall(w: seq<string>)
    requires UsingWords(w) > 0 && IsWord(w[UsingWords(w) - 1])
    ensures CallWords(w[UsingWords(w)..]) == 0
  {
    var n := UsingWords(w);
    hide Is;
    if w[1] == "=" {
      assert w[1..][1..] == w[2..];
      ValueTakesCall(w[2..]);
      assert w[2..][n - 2..] == w[n..];
    } else {
      ValueTakesCall(w[1..]);
      assert w[1..][n - 1..] == w[n..];
    }
  }

  lemma ValueTakesCall(w: seq<string>)
    requires ValueWords(w) > 0 && IsWord(w[ValueWords(w) - 1])
    ensures CallWords(w[ValueWords(w)..]) == 0
  {
    CallEnds(w[1..]);
  }

  lemma CallEnds(w: seq<string>)
    ensures CallWords(w) > 0 ==> w[CallWords(w) - 1] == ")"
  {
  }

  /** A name USING is taken for an option if another option follows. */
  lemma UsingTwice(w: seq<string>)
    requires |w| > 1 && Is(w[0], "USING") && UsingWords(w[1..]) > 0
    ensures UsingWords(w) > 0
  {
    assert w[1..][0] == w[1] && Is(w[1], "USING");
    assert OptionWords(w[1..]) > 0;
  }

  lemma NamedTaken(w: seq<string>, i: nat, m: nat)
    requires i <= m <= |w| && NamedWords(w[i..]) == m - i > 0
    ensures var k := i + UsingWords(w[i..]);
            HasName(w[..m], i, UnquoteWord(w[k]), k + 1 < m) && (k + 1 < m && IsWord(w[m - 1]) ==> CallWords(w[m..]) == 0)
  {
    hide UsingWords, IsUsing, Is, IsName, CallWords, UnquoteWord, IsWord;
    var v, h := w[i..], w[..m];
    var k := i + UsingWords(v);
    if k > i {
      UsingTaken(v);
    }
    var u := w[k + 1..];
    assert v[k - i + 1..] == u && v[k - i] == w[k];
    if UsingWords(u) > 0 {
      UsingTaken(u);
      assert u[|h| - k - 1..] == w[m..] && u[|h| - k - 2] == w[m - 1];
      if IsWord(w[m - 1]) {
        UsingTakesCall(u);
      }
      if k == i && Is(w[k], "USING") {
        assert v[1..] == u;
        UsingTwice(v);
      }
    }
    assert h[i..k] == v[..k - i] && h[k + 1..] == u[..m - k - 1] && h[k] == w[k];
    assert AddedName(h, i, k);
  }

  lemma NoUsingHere(w: seq<string>)
    requires w != [] && (w[0] == "(" || !Is(w[0], "USING") || (|w| > 1 && w[1] == "("))
    ensures UsingWords(w) == 0
  {
  }

  lemma NoCallHere(w: seq<string>)
    requires w != [] && IsName(w[0])
    ensures CallWords(w) == 0
  {
  }

  lemma NamedFits(w: seq<string>, i: nat, m: nat, name: string, option: bool)
    requires i <= m < |w| && w[m] == "(" && HasName(w[..m], i, name, option)
    requires option && IsWord(w[m - 1]) ==> CallWords(w[m..]) == 0
    ensures NamedWords(w[i..]) == m - i > 0 && UnquoteWord(w[i + UsingWords(w[i..])]) == name
  {
    hide UsingWords, IsUsing, Is, IsName, CallWords, UnquoteWord, IsWord;
    var k: nat :| AddedName(w[..m], i, k) && name == UnquoteWord(w[..m][k]) && option == (k + 1 < m);
    FirstOptionFits(w, i, m, k);
    SecondOptionFits(w, i, m, k);
    assert w[i..][k - i + 1..] == w[k + 1..] && w[i..][k - i] == w[k] == w[..m][k];
  }

  lemma FirstOptionFits(w: seq<string>, i: nat, m: nat, k: nat)
    requires m < |w| && w[m] == "(" && AddedName(w[..m], i, k)
    ensures i <= k < m && UsingWords(w[i..]) == k - i
  {
    hide UsingWords, IsUsing, Is, IsName, CallWords, IsWord;
    var v, h := w[i..], w[..m];
    assert h[i..k] == v[..k - i] && h[k] == w[k] && v[k - i..] == w[k..];
    if k > i {
      NoCallHere(w[k..]);
      UsingFits(v, k - i);
    } else {
      assert k + 1 == m ==> v[1] == "(";
      NoUsingHere(v);
    }
  }

  lemma SecondOptionFits(w: seq<string>, i: nat, m: nat, k: nat)
    requires m < |w| && w[m] == "(" && AddedName(w[..m], i, k)
    requires k + 1 < m && IsWord(w[m - 1]) ==> CallWords(w[m..]) == 0
    ensures i <= k < m && UsingWords(w[k + 1..]) == m - k - 1
  {
    hide UsingWords, IsUsing, Is, IsName, CallWords, IsWord;
    var u := w[k + 1..];
    assert w[..m][k + 1..] == u[..m - k - 1] && u[m - k - 1..] == w[m..];
    if k + 1 == m {
      NoUsingHere(u);
    } else {
      assert u[m - k - 2] == w[m - 1];
      UsingFits(u, m - k - 1);
    }
  }

  /** ALTER TABLE ... ADD INDEX is read exactly where the grammar has it, and as what it says. */
  lemma AddIndexRead(t: string, unique: bool, table: string, name: string, columns: string)
    ensures ReadAddIndex(t) == Index(unique, table, name, columns) <==> IsAddIndex(t, unique, table, name, columns)
  {
    hide SkipSpaces, After, Words, UnquoteWord, WithColumns, ReadAddIndex, AddHead, HasColumns, CallWords, IsWord;
    if ReadAddIndex(t) == Index(unique, table, name, columns) {
      AddTaken(t, unique, table, name, columns);
    }
    if IsAddIndex(t, unique, table, name, columns) {
      var k, option :| 0 < k <= |Words(t)| && AddHead(Words(t)[..k], unique, table, name, option) && HasColumns(t, k, columns)
                       && (option && IsWord(Words(t)[k - 1]) ==> CallWords(Words(t)[k..]) == 0);
      AddFits(t, k, unique, table, name, columns, option);
    }
  }

  lemma AddTaken(t: string, unique: bool, table: string, name: string, columns: string)
    requires ReadAddIndex(t) == Index(unique, table, name, columns)
    ensures IsAddIndex(t, unique, table, name, columns)
  {
    hide SkipSpaces, After, Words, UnquoteWord, WithColumns, ReadAddIndex, HasColumns, HasName, NamedWords, UsingWords, IsName, Is, CallWords, IsWord;
    var w := Words(t);
    AddNamed(t);
    var i := AddWords(w);
    var m, k := i + NamedWords(w[i..]), i + UsingWords(w[i..]);
    ColumnsRead(t, m, i == 6, w[2], w[k]);
    NamedTaken(w, i, m);
    var h := w[..m];
    assert h[0] == w[0] && h[1] == w[1] && h[2] == w[2] && h[3] == w[3] && h[4] == w[4] == w[4..][0] && h[i - 1] == w[i - 1];
    assert i == 6 ==> w[4..][1] == w[5];
    assert AddHead(h, unique, table, name, k + 1 < m);
  }

  lemma AddFits(t: string, k: nat, unique: bool, table: string, name: string, columns: string, option: bool)
    requires 0 < k <= |Words(t)| && AddHead(Words(t)[..k], unique, table, name, option) && HasColumns(t, k, columns)
    requires option && IsWord(Words(t)[k - 1]) ==> CallWords(Words(t)[k..]) == 0
    ensures ReadAddIndex(t) == Index(unique, table, name, columns)
  {
    hide SkipSpaces, After, Words, UnquoteWord, WithColumns, ReadAddIndex, HasColumns, HasName, NamedWords, UsingWords, IsName, CallWords, IsWord;
    var w := Words(t);
    var h, i := w[..k], if unique then 6 else 5;
    ColumnsStart(t, k, columns);
    assert h[0] == w[0] && h[1] == w[1] && h[2] == w[2] && h[3] == w[3] && h[4] == w[4] == w[4..][0] && h[i - 1] == w[i - 1];
    assert unique ==> w[4..][1] == w[5];
    NotUnique(w[4]);
    hide Is;
    assert AddWords(w) == i;
    AddNamed(t);
    NamedFits(w, i, k, name, option);
    ColumnsRead(t, k, unique, table, w[i + UsingWords(w[i..])]);
  }

  /** The pipeline takes a text for an index statement exactly where one of the two grammars has it. */
  lemma IndexRead(t: string, unique: bool, table: string, name: string, columns: string)
    ensures ReadIndex(t) == Index(unique, table, name, columns) <==>
              IsAddIndex(t, unique, table, name, columns) || IsCreateIndex(t, unique, table, name, columns)
  {
    AddIndexRead(t, unique, table, name, columns);
    CreateIndexRead(t, unique, table, name, columns);
    AddNamed(t);
    CreateRead(t);
    OtherWords(if Words(t) == [] then "" else Words(t)[0]);
    hide SkipSpaces, After, Words, UnquoteWord, WithColumns, ReadAddIndex, ReadCreateIndex, IsAddIndex, IsCreateIndex, NamedWords, UsingWords, Upper;
  }
}
