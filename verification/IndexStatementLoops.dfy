/**
 * The loops of translateMySQLCreateIndex and translateMySQLAlterTableAddIndex
 * (pkg/mysqlmock/protocol.go), up to the writing of the new statement.
 */
module IndexStatementLoops {
  import opened Options
  import opened Text
  import opened SqlScanner
  import opened SqlSplitting
  import opened SqlParsing
  import opened IndexStatements
  import opened IndexGrammar

  method SkipIndexOptions(t: string) returns (rest: string)
    ensures rest == AfterIndexOptions(t)
  {
    hide Keyword, AfterOption;
    rest := t;
    while true
      invariant AfterIndexOptions(rest) == AfterIndexOptions(t)
      decreases |rest|
    {
      var visible := Keyword(rest, "VISIBLE");
      if visible.None? {
        visible := Keyword(rest, "INVISIBLE");
      }
      if visible.Some? {
        rest := visible.value;
        continue;
      }
      var next := AfterOption(rest, "USING");
      if next.None? {
        return;
      }
      rest := next.value;
    }
  }

  method ReadColumns(unique: bool, table: string, name: string, t: string) returns (index: IndexStatement)
    ensures index == WithColumns(unique, table, name, t)
  {
    hide AfterIndexOptions, ParenLen, Ends, UnquoteWord;
    var u := SkipSpaces(t);
    ParenInside(u);
    var n, found := ParenthesizedSqlSpan(u, 0);
    assert u[0..] == u;
    if !found {
      return NoIndex;
    }
    var rest := SkipIndexOptions(u[n..]);
    if !Ends(rest) {
      return NoIndex;
    }
    index := Index(unique, table, UnquoteWord(name), u[..n]);
  }

  method TranslateMySqlAlterTableAddIndex(s: string) returns (index: IndexStatement)
    ensures index == ReadAddIndex(s)
    ensures forall unique, table, name, columns ::
              index == Index(unique, table, name, columns) <==> IsAddIndex(s, unique, table, name, columns)
  {
    forall unique, table, name, columns
      ensures ReadAddIndex(s) == Index(unique, table, name, columns) <==> IsAddIndex(s, unique, table, name, columns)
    {
      AddIndexRead(s, unique, table, name, columns);
    }
    hide IsAddIndex, Keyword, NameToken, AfterOption, WithColumns;
    var alter := Keyword(s, "ALTER");
    if alter.None? {
      return NoIndex;
    }
    var tableWord := Keyword(alter.value, "TABLE");
    if tableWord.None? {
      return NoIndex;
    }
    var table := NameToken(tableWord.value);
    if table.Failed? {
      return NoIndex;
    }
    var add := Keyword(table.rest, "ADD");
    if add.None? {
      return NoIndex;
    }
    var unique := Keyword(add.value, "UNIQUE");
    var rest := OrSame(unique, add.value);
    var indexWord := Keyword(rest, "INDEX");
    if indexWord.None? {
      indexWord := Keyword(rest, "KEY");
      if indexWord.None? {
        return NoIndex;
      }
    }
    var name := NameToken(OrSame(AfterOption(indexWord.value, "USING"), indexWord.value));
    if name.Failed? {
      return NoIndex;
    }
    index := ReadColumns(unique.Some?, table.text, name.text, OrSame(AfterOption(name.rest, "USING"), name.rest));
  }

  method TranslateMySqlCreateIndex(s: string) returns (index: IndexStatement)
    ensures index == ReadCreateIndex(s)
    ensures forall unique, table, name, columns ::
              index == Index(unique, table, name, columns) <==> IsCreateIndex(s, unique, table, name, columns)
  {
    forall unique, table, name, columns
      ensures ReadCreateIndex(s) == Index(unique, table, name, columns) <==> IsCreateIndex(s, unique, table, name, columns)
    {
      CreateIndexRead(s, unique, table, name, columns);
    }
    hide IsCreateIndex, Keyword, NameToken, AfterOption, WithColumns, QualifiedName;
    var create := Keyword(s, "CREATE");
    if create.None? {
      return NoIndex;
    }
    var unique := Keyword(create.value, "UNIQUE");
    var indexWord := Keyword(OrSame(unique, create.value), "INDEX");
    if indexWord.None? {
      return NoIndex;
    }
    var name := NameToken(indexWord.value);
    if name.Failed? {
      return NoIndex;
    }
    var on := Keyword(OrSame(AfterOption(name.rest, "USING"), name.rest), "ON");
    if on.None? {
      return NoIndex;
    }
    var table := QualifiedName(on.value);
    if table.Failed? {
      return NoIndex;
    }
    index := ReadColumns(unique.Some?, table.text, name.text, table.rest);
  }
}
