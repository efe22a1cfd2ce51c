/**
 * The walks behind translateMySQLUpdateSetTargets (pkg/mysqlmock/mysql_syntax_compat.go): each scans
 * the statement by position and computes what `UpdateTargets` specifies and `UpdateTargetLaws` describes.
 */
module UpdateTargetLoops {
  import opened Options
  import opened Text
  import opened SqlScanner
  import opened SqlSplitting
  import opened SqlParsing
  import opened TokenLists
  import opened UpdateTargets
  import opened UpdateTargetLaws

  /** The walk finds the first word SET outside quotes and comments, at whatever depth. */
  method FindSetKeyword(s: string, start: nat) returns (setStart: nat, found: bool)
    requires start <= |s|
    ensures found <==> AfterWord(Lex(s[start..], ByWords), "SET").Some?
    ensures found ==> setStart == start + AfterWord(Lex(s[start..], ByWords), "SET").value
  {
    hide FindSet, AfterWord, Lex;
    FindSetFirst(s[start..]);
    setStart, found := WalkToSet(s, start);
  }

  method WalkToSet(s: string, start: nat) returns (setStart: nat, found: bool)
    requires start <= |s|
    ensures found <==> FindSet(s[start..]).Some?
    ensures found ==> setStart == start + FindSet(s[start..]).value
  {
    hide FindSet, Keyword, NameToken, Lead, SetMove;
    var pos := start;
    while pos < |s|
      invariant start <= pos <= |s|
      invariant FindSet(s[start..]) == Later(FindSet(s[pos..]), pos - start)
    {
      var rest := s[pos..];
      FindSetStep(s, pos);
      var end, ok := SpanAt(s, pos);
      if ok {
        pos := end;
        continue;
      }
      var setAt := Keyword(rest, "SET");
      if setAt.Some? {
        return |s| - |setAt.value|, true;
      }
      var name := NameToken(rest);
      if name.Parsed? {
        pos := |s| - |name.rest|;
        continue;
      }
      pos := pos + 1;
    }
    FindSetNothing(s);
    return 0, false;
  }

  lemma FindSetNothing(s: string)
    ensures FindSet(s[|s|..]).None?
  {
    assert s[|s|..] == "";
  }

  lemma FindSetStep(s: string, pos: nat)
    requires pos < |s|
    ensures var rest := s[pos..];
            var n := SetMove(rest);
            (n == if Lead(rest, ByBytes).kind != Code then |Lead(rest, ByBytes).text|
                  else if Keyword(rest, "SET").Some? then 0
                  else if NameToken(rest).Parsed? then |rest| - |NameToken(rest).rest|
                  else 1) &&
            FindSet(rest) == if n == 0 then Some(|rest| - |Keyword(rest, "SET").value|)
                             else Later(FindSet(s[pos + n..]), n)
  {
    hide Lead, Keyword, NameToken;
    var n := SetMove(s[pos..]);
    assert s[pos..][n..] == s[pos + n..];
  }

  method FindSetEnd(s: string, setStart: nat) returns (setEnd: nat)
    requires setStart <= |s|
    ensures setEnd == setStart + ClauseLen(Lex(s[setStart..], ByWords))
  {
    hide QuoteTail, CommentLen, Upper;
    var i := setStart;
    while i < |s|
      invariant setStart <= i <= |s|
      invariant setStart + ClauseLen(Lex(s[setStart..], ByWords)) == i + ClauseLen(Lex(s[i..], ByWords))
    {
      var end, word := WordAt(s, i);
      LexFrom(s, i, end, ByWords);
      if word && Upper(s[i..end]) in SET_TERMINATORS {
        return i;
      }
      i := end;
    }
    assert s[i..] == "";
    return |s|;
  }

  method TranslateAssignments(items: seq<string>) returns (assignments: seq<string>, changed: bool)
    ensures assignments == TranslateAll(items)
    ensures changed == AnyQualified(items)
  {
    hide AssignmentTarget, AnyQualified;
    assignments := [];
    changed := false;
    var i := 0;
    AnyQualifiedNone();
    while i < |items|
      invariant 0 <= i <= |items|
      invariant assignments == TranslateAll(items[..i])
      invariant changed == AnyQualified(items[..i])
    {
      AnyQualifiedStep(items, i);
      TranslateAllStep(items, i);
      var target := AssignmentTarget(items[i]);
      assignments := assignments + [if target.Some? then target.value else items[i]];
      changed := changed || target.Some?;
      i := i + 1;
    }
    assert items[..i] == items;
  }

  lemma AnyQualifiedNone()
    ensures !AnyQualified([])
  {
  }

  lemma TranslateAllStep(items: seq<string>, i: nat)
    requires i < |items|
    ensures var target := AssignmentTarget(items[i]);
            TranslateAll(items[..i + 1]) == TranslateAll(items[..i]) + [if target.Some? then target.value else items[i]]
  {
    hide AssignmentTarget;
  }

  lemma AnyQualifiedStep(items: seq<string>, i: nat)
    requires i < |items|
    ensures AnyQualified(items[..i + 1]) <==> AnyQualified(items[..i]) || AssignmentTarget(items[i]).Some?
  {
    hide AssignmentTarget;
    if AssignmentTarget(items[i]).Some? {
      assert items[..i + 1][i] == items[i];
    }
    if AnyQualified(items[..i]) {
      var k :| 0 <= k < i && AssignmentTarget(items[..i][k]).Some?;
      assert items[..i + 1][k] == items[..i][k];
    }
    if AnyQualified(items[..i + 1]) {
      var k :| 0 <= k < i + 1 && AssignmentTarget(items[..i + 1][k]).Some?;
      if k < i {
        assert items[..i][k] == items[..i + 1][k];
      }
    }
  }

  /**
   * The statement is left alone unless a target is qualified; else it is read back without the
   * qualifiers, exactly when every assignment that is trimmed ends cleanly.
   */
  method TranslateMySqlUpdateSetTargets(s: string) returns (out: string)
    ensures out == SetTargets(s)
    ensures !Changes(s) ==> out == s
    ensures Changes(s) ==> (Lex(out, ByWords) == KeptTokens(s) <==> TrimsClean(SidesOf(s).pieces))
  {
    SetTargetsRead(s);
    out := UnqualifySetTargets(s);
  }

  method UnqualifySetTargets(s: string) returns (out: string)
    ensures out == SetTargets(s)
  {
    hide FindSet, Keyword, Rebuilt, AnyQualified, TranslateAll, SplitList, ClauseLen, Lex, AfterWord;
    var update := Keyword(s, "UPDATE");
    if update.None? {
      return s;
    }
    var start := |s| - |update.value|;
    assert update.value == s[start..];
    FindSetFirst(s[start..]);
    var setStart, found := FindSetKeyword(s, start);
    if !found {
      return s;
    }
    var setEnd := FindSetEnd(s, setStart);
    SetEndInside(s, setStart);
    var items := SplitSqlTopLevelList(s[setStart..setEnd]);
    var assignments, changed := TranslateAssignments(items);
    if !changed {
      return s;
    }
    return Rebuilt(s[..setStart], assignments, s[setEnd..]);
  }

  lemma SetEndInside(s: string, setStart: nat)
    requires setStart <= |s|
    ensures setStart + ClauseLen(Lex(s[setStart..], ByWords)) <= |s|
  {
    hide ClauseLen, Lex, Settled, Flatten;
    LexSpells(s[setStart..], ByWords);
    ClauseInside(Lex(s[setStart..], ByWords));
  }
}
