/**
 * Dropping the table qualifier of UPDATE ... SET targets (translateMySQLUpdateSetTargets of
 * pkg/mysqlmock/mysql_syntax_compat.go).
 */
module UpdateTargets {
  import opened Options
  import opened Text
  import opened SqlScanner
  import opened SqlSplitting
  import opened SqlParsing

  const SET_TERMINATORS := {"WHERE", "ORDER", "LIMIT"}

  /** Where the text after the SET keyword starts; quotes, comments and names are skipped. */
  function FindSet(t: string): (r: Option<nat>)
    ensures r.Some? ==> r.value <= |t|
    decreases |t|
  {
    if t == "" then None
    else
      var n := SetMove(t);
      if n == 0 then Some(|t| - |Keyword(t, "SET").value|) else Later(FindSet(t[n..]), n)
  }

  /** How far the search for SET moves on, 0 if SET comes next. */
  function SetMove(t: string): (n: nat)
    requires t != ""
    ensures n <= |t|
    ensures n == 0 ==> Keyword(t, "SET").Some?
  {
    if Lead(t, ByBytes).kind != Code then |Lead(t, ByBytes).text|
    else if Keyword(t, "SET").Some? then 0
    else if NameToken(t).Parsed? then |t| - |NameToken(t).rest|
    else 1
  }

  function Later(at: Option<nat>, n: nat): Option<nat> {
    if at.None? then None else Some(at.value + n)
  }

  /** Length of the SET clause: up to the first word that ends it. */
  function ClauseLen(toks: seq<Token>): nat {
    if toks == [] || (toks[0].kind == Word && Upper(toks[0].text) in SET_TERMINATORS) then 0
    else |toks[0].text| + ClauseLen(toks[1..])
  }

  /** The parts of a dotted target; fails unless the whole text is one. */
  function TargetParts(t: string): (r: Option<seq<string>>)
    ensures r.Some? ==> r.value != []
    decreases |t|
  {
    var name := NameToken(t);
    if name.Failed? then None
    else
      var u := SkipSpaces(name.rest);
      if u == "" then Some([name.text])
      else if u[0] != '.' then None
      else
        var more := TargetParts(SkipSpaces(u[1..]));
        if more.None? then None else Some([name.text] + more.value)
  }

  /** unqualifiedSQLAssignmentTarget */
  function UnqualifiedTarget(t: string): Option<string> {
    var parts := TargetParts(t);
    if parts.None? || |parts.value| < 2 then None else Some(parts.value[|parts.value| - 1])
  }

  /** translateMySQLUpdateAssignmentTarget */
  function AssignmentTarget(assignment: string): Option<string> {
    var eq := EqualIndex(assignment);
    if eq.None? then None
    else
      EqualIndexInside(assignment);
      var target := UnqualifiedTarget(TrimSpace(assignment[..eq.value]));
      if target.None? then None else Some(target.value + " " + TrimSpace(assignment[eq.value..]))
  }

  function TranslateAll(assignments: seq<string>): (r: seq<string>)
    ensures |r| == |assignments|
  {
    seq(|assignments|, i requires 0 <= i < |assignments| =>
      var target := AssignmentTarget(assignments[i]);
      if target.Some? then target.value else assignments[i])
  }

  predicate AnyQualified(assignments: seq<string>) {
    exists i :: 0 <= i < |assignments| && AssignmentTarget(assignments[i]).Some?
  }

  lemma {:induction false} ClauseInside(toks: seq<Token>)
    ensures ClauseLen(toks) <= |Flatten(toks)|
  {
    if toks != [] {
      ClauseInside(toks[1..]);
    }
  }

  /** translateMySQLUpdateSetTargets */
  function SetTargets(t: string): string {
    var update := Keyword(t, "UPDATE");
    if update.None? then t
    else
      var setAt := FindSet(update.value);
      if setAt.None? then t
      else
        SetTargetsIn(t, |t| - |update.value| + setAt.value)
  }

  /** The text with the targets of the SET clause that starts at `setStart` unqualified. */
  function SetTargetsIn(t: string, setStart: nat): string
    requires setStart <= |t|
  {
    LexSpells(t[setStart..], ByWords);
    ClauseInside(Lex(t[setStart..], ByWords));
    var setEnd := setStart + ClauseLen(Lex(t[setStart..], ByWords));
    var assignments := SplitList(t[setStart..setEnd]);
    if AnyQualified(assignments) then Rebuilt(t[..setStart], TranslateAll(assignments), t[setEnd..]) else t
  }

  function Rebuilt(head: string, assignments: seq<string>, tail: string): string {
    var clause := TrimSpace(Join(assignments, ", "));
    var suffix := if tail != "" && clause != "" && !IsSpace(tail[0]) then " " + tail else tail;
    head + " " + clause + suffix
  }
}
