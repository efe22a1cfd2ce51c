/**
 * CREATE INDEX and ALTER TABLE ... ADD INDEX as the pipeline recognises them
 * (translateMySQLCreateIndex and translateMySQLAlterTableAddIndex of pkg/mysqlmock/protocol.go).
 *
 * A parser position is modelled by the text that follows it.
 */
module IndexStatements {
  import opened Options
  import opened Text
  import opened SqlScanner
  import opened SqlSplitting
  import opened SqlParsing

  /** What is taken from an index statement; `columns` is the parenthesised list as it stands. */
  datatype IndexStatement = NoIndex | Index(unique: bool, table: string, name: string, columns: string)

  // ---------------------------------------------------------------------------------------------
  // Options
  // ---------------------------------------------------------------------------------------------

  /** Leading digits and points. */
  function NumberLen(t: string): (n: nat)
    ensures n <= |t|
  {
    if t == "" || !('0' <= t[0] <= '9' || t[0] == '.') then 0 else 1 + NumberLen(t[1..])
  }

  /** consumeSQLValue: the text after a quoted span, an identifier with an optional call, or a number. */
  function AfterValue(t: string): (r: Option<string>)
    ensures r.Some? ==> |r.value| < |t|
  {
    var u := SkipSpaces(t);
    if u == "" then None
    else if IsQuote(u[0]) then Some(u[1 + QuoteTail(u[1..], u[0])..])
    else if IdentifierLen(u) > 0 then
      var v := u[IdentifierLen(u)..];
      Some(v[TimestampLen(v)..])
    else if '0' <= u[0] <= '9' then Some(u[1 + NumberLen(u[1..])..])
    else None
  }

  /** consumeMySQLOptionValue: an equals sign may come before the value. */
  function AfterOptionValue(t: string): (r: Option<string>)
    ensures r.Some? ==> |r.value| < |t|
  {
    var u := SkipSpaces(t);
    AfterValue(if u != "" && u[0] == '=' then u[1..] else u)
  }

  /** consumeSQLNamedOption */
  function AfterOption(t: string, name: string): (r: Option<string>)
    ensures r.Some? ==> |r.value| < |t|
  {
    var rest := Keyword(t, name);
    if rest.None? then None else AfterOptionValue(rest.value)
  }

  /** The text after an option or a keyword that may be missing. */
  function OrSame(after: Option<string>, t: string): string {
    if after.Some? then after.value else t
  }

  /** VISIBLE, INVISIBLE and USING, in any number and order. */
  function AfterIndexOptions(t: string): string
    decreases |t|
  {
    if Keyword(t, "VISIBLE").Some? then AfterIndexOptions(Keyword(t, "VISIBLE").value)
    else if Keyword(t, "INVISIBLE").Some? then AfterIndexOptions(Keyword(t, "INVISIBLE").value)
    else if AfterOption(t, "USING").Some? then AfterIndexOptions(AfterOption(t, "USING").value)
    else t
  }

  /** Nothing but white space and one semicolon is left. */
  predicate Ends(t: string) {
    var u := SkipSpaces(t);
    u == "" || (u[0] == ';' && SkipSpaces(u[1..]) == "")
  }

  // ---------------------------------------------------------------------------------------------
  // The statements
  // ---------------------------------------------------------------------------------------------

  /** The parenthesised columns and the options behind them end the statement. */
  function WithColumns(unique: bool, table: string, name: string, t: string): IndexStatement {
    var u := SkipSpaces(t);
    ParenInside(u);
    if ParenLen(u) > 0 && Ends(AfterIndexOptions(u[ParenLen(u)..])) then Index(unique, table, UnquoteWord(name), u[..ParenLen(u)])
    else NoIndex
  }

  /** translateMySQLCreateIndex: CREATE [UNIQUE] INDEX name [USING x] ON table (columns) */
  function ReadCreateIndex(t: string): IndexStatement {
    var create := Keyword(t, "CREATE");
    if create.None? then NoIndex
    else
      var unique := Keyword(create.value, "UNIQUE");
      var index := Keyword(OrSame(unique, create.value), "INDEX");
      if index.None? then NoIndex else ReadIndexOn(unique.Some?, index.value)
  }

  function ReadIndexOn(unique: bool, t: string): IndexStatement {
    var name := NameToken(t);
    if name.Failed? then NoIndex
    else
      var on := Keyword(OrSame(AfterOption(name.rest, "USING"), name.rest), "ON");
      if on.None? then NoIndex
      else
        var table := QualifiedName(on.value);
        if table.Failed? then NoIndex else WithColumns(unique, table.text, name.text, table.rest)
  }

  /** translateMySQLAlterTableAddIndex: ALTER TABLE table ADD [UNIQUE] INDEX [USING x] name [USING x] (columns) */
  function ReadAddIndex(t: string): IndexStatement {
    var alter := Keyword(t, "ALTER");
    if alter.None? || Keyword(alter.value, "TABLE").None? then NoIndex
    else
      var table := NameToken(Keyword(alter.value, "TABLE").value);
      if table.Failed? || Keyword(table.rest, "ADD").None? then NoIndex
      else ReadAdded(table.text, Keyword(table.rest, "ADD").value)
  }

  function ReadAdded(table: string, t: string): IndexStatement {
    var unique := Keyword(t, "UNIQUE");
    var rest := OrSame(unique, t);
    var index := if Keyword(rest, "INDEX").Some? then Keyword(rest, "INDEX") else Keyword(rest, "KEY");
    if index.None? then NoIndex else ReadNamed(unique.Some?, table, index.value)
  }

  function ReadNamed(unique: bool, table: string, t: string): IndexStatement {
    var name := NameToken(OrSame(AfterOption(t, "USING"), t));
    if name.Failed? then NoIndex
    else WithColumns(unique, table, name.text, OrSame(AfterOption(name.rest, "USING"), name.rest))
  }

  /** The first of the two that takes the text. */
  function ReadIndex(t: string): IndexStatement {
    if ReadAddIndex(t).Index? then ReadAddIndex(t) else ReadCreateIndex(t)
  }

  lemma OtherFirstWord(t: string)
    requires Keyword(t, "CREATE").None? && Keyword(t, "ALTER").None?
    ensures ReadIndex(t).NoIndex?
  {
    hide Keyword;
  }
}
