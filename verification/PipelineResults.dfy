/**
 * What translateSQL returns where it does not take its fast path (pkg/mysqlmock/protocol.go): the text
 * behind each stage, by the law of that stage.
 */
module PipelineResults {
  import opened Options
  import opened Text
  import opened SqlScanner
  import opened SqlParsing
  import opened IndexStatements
  import opened IndexGrammar
  import opened UpdateTargets
  import opened UpdateTargetLaws
  import opened LikeEscape
  import opened StringLiterals
  import LiteralReadings
  import opened Pipeline
  import opened PipelineLaws

  /** The locking clause is gone; what stands in front of it is kept, and a semicolon at the end of the text. */
  predicate LockGone(t: string, u: string) {
    var toks := Lex(t, ByWords);
    match LockTokens(toks)
    case None => u == t
    case Some(m) =>
      var semicolon := Semicolon(EndsInSemicolon(Flatten(toks[m..])));
      && CutBefore(toks, m, u)
      && (Lex(u, ByWords) == WithoutGap(toks[..m]) + semicolon <==> !EndsInSpace(WithoutGap(toks[..m])))
  }

  /** The qualifiers of assignment targets are gone. */
  ghost predicate TargetsPlain(t: string, u: string) {
    if Changes(t) then Lex(u, ByWords) == KeptTokens(t) <==> TrimsClean(SidesOf(t).pieces) else u == t
  }

  /** Every LIKE of a statement that can have one has an ESCAPE. */
  ghost predicate LikesEscaped(t: string, u: string) {
    if exists i: nat, j: nat, k :: FirstField(t, i, j) && StatementWord(Upper(t[i..j])) && j < k && SeenAt(t, k)
    then u == Flatten(WithFragments(Lex(t, ByWords), 0)) else u == t
  }

  /** `<=>` is IS. */
  predicate OperatorsPlain(t: string, u: string) {
    Lex(u, ByBytes) == WithIs(Lex(t, ByBytes))
  }

  predicate CallsReplaced(t: string, u: string, tables: Tables) {
    u == CalledText(Lex(t, ByWords), tables.call)
  }

  ghost predicate IsIndex(t: string, unique: bool, table: string, name: string, columns: string) {
    IsAddIndex(t, unique, table, name, columns) || IsCreateIndex(t, unique, table, name, columns)
  }

  /** An index statement, read as CREATE, UNIQUE if it is, INDEX, the name, ON, table and columns. */
  predicate IndexWritten(out: Option<string>, unique: bool, table: string, name: string, columns: string, tables: Tables) {
    out.Some? &&
    var written := tables.indexName(table, name);
    var rest := table + ([' '] + tables.indexColumns(columns));
    (Lex(out.value, ByWords) == IndexHeadTokens(unique, written) + Lex(rest, ByWords)) <==> ClosedQuote(QuoteIdent(written))
  }

  /** DDL is left to its own loop; elsewhere keywords and clock calls are replaced. */
  ghost predicate KeywordsReplaced(t: string, u: string, tables: Tables) {
    if exists i: nat, words :: IsDdl(words) && StartsWith(t, i, words) then u == tables.ddlLoop(t)
    else u == Flatten(Looped(Lex(t, ByWords))) && (Lex(u, ByWords) == Looped(Lex(t, ByWords)) <==> ClocksApart(Lex(t, ByWords)))
  }

  /** The literals keep their meaning; there is no answer where a quote stands open at the very end. */
  predicate LiteralsWritten(t: string, out: Option<string>) {
    if NoBareQuote(t) then
      out.Some? && (LiteralReadings.SqliteUnits(out.value) == LiteralReadings.MySqlUnits(t) <==> LiteralReadings.AllKept(t))
    else out.None?
  }

  /** What becomes of an index statement and of any other. */
  ghost predicate Finished(t: string, tables: Tables, out: Option<string>) {
    && (forall unique, table, name, columns :: IsIndex(t, unique, table, name, columns) ==>
          IndexWritten(out, unique, table, name, columns, tables))
    && ((forall unique, table, name, columns :: !IsIndex(t, unique, table, name, columns)) ==>
          exists u :: KeywordsReplaced(t, u, tables) && LiteralsWritten(u, out))
  }

  /** All stages, one behind the other. */
  ghost predicate Rewritten(t: string, tables: Tables, out: Option<string>) {
    exists a, b, c, d, e ::
      LockGone(t, a) && TargetsPlain(a, b) && LikesEscaped(b, c) && OperatorsPlain(c, d) && CallsReplaced(d, e, tables) &&
      Finished(e, tables, out)
  }

  lemma LockIsGone(t: string)
    ensures LockGone(t, StripLock(t))
  {
    StripLockReads(t);
    StripLockText(t);
    hide Lex, LockTokens, StripLock, EndsInSemicolon, WithoutGap, EndsInSpace, Flatten, CutBefore;
  }

  lemma TargetsArePlain(t: string)
    ensures TargetsPlain(t, SetTargets(t))
  {
    SetTargetsRead(t);
    hide Lex, SetTargets, Changes, KeptTokens, TrimsClean, SidesOf;
  }

  lemma LikesAreEscaped(t: string)
    ensures LikesEscaped(t, LikePass(t))
  {
    CanContainLikeExact(t);
    FragmentsStand(t);
    hide CanContainLike, FirstField, StatementWord, SeenAt, Lex, WithFragments, Escaped, Upper, Flatten;
  }

  lemma KeywordsAreReplaced(t: string, tables: Tables)
    ensures KeywordsReplaced(t, if StripsDdl(t) then tables.ddlLoop(t) else TokenLoop(t), tables)
  {
    DdlExact(t);
    TokenLoopReads(t);
    hide StripsDdl, StartsWith, IsDdl, Lex, TokenLoop, Looped, ClocksApart, Flatten;
  }

  lemma LiteralsAreWritten(t: string)
    ensures LiteralsWritten(t, if NoBareQuote(t) then Some(TranslateLiterals(t)) else None)
  {
    if NoBareQuote(t) {
      LiteralReadings.LiteralsKeepMeaning(t);
      hide LiteralReadings.SqliteUnits, LiteralReadings.MySqlUnits, LiteralReadings.AllKept, TranslateLiterals, NoBareQuote;
    }
  }

  lemma IndexIsWritten(t: string, tables: Tables)
    requires ReadIndex(t).Index?
    ensures Finished(t, tables, Some(IndexText(ReadIndex(t), tables)))
  {
    var index := ReadIndex(t);
    hide ReadIndex, IndexText, IsAddIndex, IsCreateIndex, Lex, ClosedQuote, IndexHeadTokens, QuoteIdent;
    IndexRead(t, index.unique, index.table, index.name, index.columns);
    IndexTextReads(index, tables);
    forall unique, table, name, columns | IsIndex(t, unique, table, name, columns)
      ensures index == Index(unique, table, name, columns)
    {
      IndexRead(t, unique, table, name, columns);
    }
    assert IsIndex(t, index.unique, index.table, index.name, index.columns);
  }

  lemma OtherIsWritten(t: string, tables: Tables)
    requires !ReadIndex(t).Index?
    ensures var looped := if StripsDdl(t) then tables.ddlLoop(t) else TokenLoop(t);
            Finished(t, tables, if NoBareQuote(looped) then Some(TranslateLiterals(looped)) else None)
  {
    hide ReadIndex, IsAddIndex, IsCreateIndex, StripsDdl, TokenLoop, NoBareQuote, TranslateLiterals, KeywordsReplaced, LiteralsWritten;
    var looped := if StripsDdl(t) then tables.ddlLoop(t) else TokenLoop(t);
    KeywordsAreReplaced(t, tables);
    LiteralsAreWritten(looped);
    forall unique, table, name, columns
      ensures !IsIndex(t, unique, table, name, columns)
    {
      IndexRead(t, unique, table, name, columns);
    }
  }

  /**
   * Off the fast path the text goes through every stage: the locking clause, the targets of assignments, the
   * LIKE predicates, `<=>`, the calls, then an index statement, or the keywords and the literals.
   */
  lemma SlowPathRewrites(t: string, tables: Tables)
    ensures Rewritten(t, tables, SlowPath(t, tables))
  {
    hide StripLock, SetTargets, LikePass, Operators, FunctionCalls, ReadIndex, StripsDdl, TokenLoop, NoBareQuote, TranslateLiterals,
         IndexText, LockGone, TargetsPlain, LikesEscaped, OperatorsPlain, CallsReplaced, Finished, WithIs, CalledText, Lex;
    var a := StripLock(t);
    var b := SetTargets(a);
    var c := LikePass(b);
    var d := Operators(c);
    var e := FunctionCalls(d, tables);
    LockIsGone(t);
    TargetsArePlain(a);
    LikesAreEscaped(b);
    OperatorsArePlain(c);
    CallsAreReplaced(d, tables);
    if ReadIndex(e).Index? {
      IndexIsWritten(e, tables);
    } else {
      OtherIsWritten(e, tables);
    }
  }

  lemma OperatorsArePlain(t: string)
    ensures OperatorsPlain(t, Operators(t))
  {
    OperatorsRead(t);
  }

  lemma CallsAreReplaced(t: string, tables: Tables)
    ensures CallsReplaced(t, FunctionCalls(t, tables), tables)
  {
    FunctionCallsText(t, tables);
  }
}
