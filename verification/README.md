# A verified model of mysqlmock

mysqlmock is a server that speaks the MySQL protocol and answers from SQLite. This project models the
parts of it that are hard to get right and proves what they are for: SQL text is rewritten without
changing what it means, automatic values are not handed out twice, row statements keep the unique
keys, bytes on the wire are read back as they were meant, and every cache agrees with what it speeds up.

Code that the server writes as loops over text, bytes or rows is modelled as methods with the same
loops, each proved equal to a specification function; objects whose methods update them are classes.
The laws are lemmas about the specification functions and about whole runs of the state machines.

A Go string is a sequence of characters with one character per byte. Integers are unbounded in
Dafny; where the source's width matters (64-bit ids, 32-bit hours, 16-bit warnings, sequence numbers
modulo 256) it is written out.

## The modules

- `Text`, `Options`, `Sequences`, `Integers`: byte-string helpers, optional values, concatenation, widths.
- `SqlScanner`, `SqlSplitting`, `SqlParsing`, `TokenLists`: one lexer theory. A text is a list of tokens
  (quoted span, comment, identifier, code byte); tokens depend on themselves and one byte of look-ahead.
- `StringLiterals`, `LiteralReadings`, `LikeEscape`, `UpdateTargets`, `UpdateTargetLaws`, `UpdateTargetLoops`,
  `Pipeline`, `PipelineLaws`, `PipelineResults`, `PipelineLoops`: the rewriting passes and the fast path that skips
  them. `LiteralReadings` reads a text as MySQL does, with an escape table of its own, and as SQLite does;
  `PipelineLaws` and `PipelineResults` say by tokens what each pass and the whole pipeline write.
- `IndexStatements`, `IndexGrammar`, `IndexStatementLoops`: the recognisers of CREATE INDEX and ADD INDEX, and
  the grammar of what they take, in words.
- `Placeholders`, `UpsertClause`, `UpsertReading`, `ClauseReadings`, `UpsertArguments`, `UpsertExecution`,
  `UpsertClauseLoops`: counting placeholders, binding arguments, and rewriting the ON DUPLICATE KEY UPDATE clause,
  with a reading of the clause as MySQL gives it that knows nothing of the rewriter, and an execution of the
  statement written as SQLite gives it.
- `AutoIncrement`, `AutoIncrementServer`: the allocation record, the restore set and SQLite's
  sequence table over transactions, savepoints and rollbacks of any number of connections.
- `UniqueKeys`, `RowExecutors`, `InsertIds`, `RowExecutorLoops`: the conflict finder and the executors of REPLACE,
  INSERT IGNORE and INSERT ... ON DUPLICATE KEY UPDATE, and the insert ids they report.
- `WireBytes`, `PreparedValues`, `PreparedStatements`: length-encoded values and COM_STMT_EXECUTE.
- `Packets`, `ResultSets`, `ResultStreams`, `ResultSetWriters`: framing with a reused buffer, text and
  binary rows, terminators with and without CLIENT_DEPRECATE_EOF, and a client that reads them, continuing full
  packets as the protocol says.
- `SchemaHistory`, `SchemaCache`, `SchemaCacheServer`, `SchemaMirror`, `SchemaMirrorServer`: caches
  tagged with a schema version, and the lazily filled information_schema mirror, under interleaving.
- `TranslationCache`, `CacheKeys`, `LikeMatch`: the bounded translation cache, cache keys, LIKE.
- `SnapshotStrings`, `SnapshotDocuments`, `SnapshotReading`: the JSON snapshots, sized exactly and
  read back by the grammar of RFC 8259.

## Where the code falls short of a property

Each of these is a lemma about a concrete input or an exact condition; the code is modelled as it is.

- The fast path lets a CREATE or ALTER through that the full pipeline would rewrite when the keyword
  is followed by a tab (`Pipeline.FastPathMissesTab`; the exact condition is `Pipeline.FastPathExact`).
- The literal rewrite keeps the meaning exactly when every token is one that both sides read alike
  (`LiteralReadings.LiteralsKeepMeaning`). These are not: a literal that is open, or decodes to a zero byte, at
  which SQLite stops reading (`LiteralReadings.ZeroByteOpensLiteral`); any other token with a zero byte; a `--` that nothing blank follows, which
  is code to MySQL (`LiteralReadings.DashesAreCode`); a `#` comment, which is code to SQLite
  (`LiteralReadings.HashCommentOpensLiteral`); a version comment, which MySQL executes; `[` in code, which opens
  a name to SQLite; a backslash in double quotes that changes the value or hides a quote.
- The rewrite of UPDATE targets trims assignments, and with them the newline of a line comment at the
  end of one; what follows, the WHERE included, then belongs to the comment
  (`UpdateTargetLaws.SetTargetsRead` is the exact condition, `UpdateTargetLaws.TrimmedCommentSwallowsTail`
  the family of inputs, `UpdateTargetLaws.SwallowedWhere` one of them).
- A call of NOW or CURRENT_TIMESTAMP that is directly followed by a letter, digit, `_` or `$` runs into the name
  behind it (`PipelineLaws.TokenLoopReads` is the exact condition, `PipelineLaws.ClockRunsIntoName` an input).
- Cutting off a locking clause behind a line comment takes the newline of the comment along, so that the semicolon
  at the end of the statement belongs to the comment (`PipelineLaws.StripLockReads` is the exact condition,
  `PipelineLaws.LockBehindComment` an input).
- Inserting ESCAPE clauses twice differs from doing it once exactly when a LIKE is left open at another
  depth at the end of the text (`LikeEscape.InsertEscapesTwice`, and `LikeEscape.OpenLikeGrows` for an input).
- The placeholder counter and the scanner differ exactly when a line comment holds a carriage return
  (`Placeholders.WalksAgree`, `Placeholders.CountDiffersAfterCr`).
- A comment between VALUES and its argument, or between an alias and its dot, hides the reference from
  the rewriter, and VALUES of a qualified column is refused (`ClauseReadings.ClauseReadAsMeant` is the exact
  condition, `ClauseReadings.CommentHidesValues`, `ClauseReadings.CommentHidesAlias` and
  `ClauseReadings.QualifiedValuesRefused` are inputs).
- An update clause that ends in an open comment or quote, puts two double-quoted names side by side, or
  names a column with a backslash before a quote or at its end, is not read as written
  (`UpsertArguments.StatementReads` is the exact condition, `UpsertArguments.TrailingCommentSwallowsWhere` an input).
- A savepoint outside BEGIN, or an insert of another connection between the two SQLite steps of a
  ROLLBACK, lets a value be handed out twice (`AutoIncrement.BareSavepointReuses`,
  `AutoIncrement.InsertBetweenRollbackAndRestoreReuses`).
  Going back to a savepoint repeats a value exactly when the status flag is not set (`AutoIncrement.SavepointRepeats`).
- The conflict finder misses a key left to a default that is not NULL (`UniqueKeys.FinderExact` is the
  exact condition, `UniqueKeys.DefaultKeyMissed` an input).
- The hours of a TIME parameter are added up in 32 bits (`PreparedValues.ValueRoundTrip`), and an integer
  that does not fit its binary column is cut to its low bytes (`ResultSets.BinaryRowRoundTrip`).
- Without parameters the bytes behind the header of an execute are not looked at, so trailing bytes are
  taken (`PreparedStatements.NoTrailingBytes` is the exact condition, `PreparedStatements.TrailingByteTaken` an input).
- A payload of 2^24 - 1 bytes is written as one packet, which a client continues with the next one
  (`Packets.FullPacketSwallowsNext`; `ResultStreams.StreamRecoverable` is the exact condition).
- A schema change is announced at once, also inside a transaction; when it is rolled back, what was
  cached in between stays a hit (`SchemaCache.RollbackLeavesStaleHit`), which is current exactly when the
  rollback did not change the table (`SchemaCache.HitAfterRollback`).
- The key of the SHOW FULL FIELDS cache is shared by another request exactly when a NUL byte is in the database,
  table or collation, or in the pattern with only lower case on one side of it (`CacheKeys.ShowFullFieldsShared`,
  and `CacheKeys.ShowFullFieldsCollide` for every table).

## Model

| member | source | states |
|---|---|---|
| SqlScanner.LexSpells | pkg/mysqlmock/sqlscanner.go:146-225 | the scanner's moves spell the text, and each is the move made at its place |
| SqlScanner.Relex | pkg/mysqlmock/sqlscanner.go:146-225 | moves that sit where they are put are read back unchanged |
| SqlScanner.SettledCut | pkg/mysqlmock/sqlscanner.go:165-225 | cutting a text between moves changes no move on either side |
| SqlScanner.LexSlice | pkg/mysqlmock/sqlscanner.go:165-225 | a slice between moves is scanned into exactly the moves of the slice |
| SqlScanner.WalksInStep | pkg/mysqlmock/sqlscanner.go:146-225 | the identifier-wise walk visits the same quotes, comments and code bytes as the byte-wise one |
| SqlScanner.QuotedSqlSpan | pkg/mysqlmock/sqlscanner.go:165-189 | the loop finds the quoted span of the lexer; an open quote runs to the end |
| SqlScanner.SqlCommentSpan | pkg/mysqlmock/sqlscanner.go:191-225 | the loop finds the comment span of the lexer for all three comment forms |
| SqlScanner.ReadSqlIdentifier | pkg/mysqlmock/sqlscanner.go:146-156 | the loop reads the longest identifier at a position |
| SqlScanner.SkipSqlSpaces | pkg/mysqlmock/sqlscanner.go:158-163 | the loop stops at the first byte that is no SQL white space |
| SqlScanner.CharacterClasses | pkg/mysqlmock/sqlscanner.go:245-260 | white space, quotes and the bytes of a name by their ASCII codes; only letters have another case |
| SqlSplitting.SplitListExact | pkg/mysqlmock/sqlscanner.go:23-53 | joining the items with commas gives the input, and re-splitting an item gives just that item |
| SqlSplitting.SplitSqlTopLevelList | pkg/mysqlmock/sqlscanner.go:23-53 | the loop over position, depth and start computes the items |
| SqlSplitting.ParenShortest | pkg/mysqlmock/sqlscanner.go:118-144 | no prefix shorter than the span balances outside quotes and comments, and where no span is found none balances at all |
| SqlSplitting.ParenFound | pkg/mysqlmock/sqlscanner.go:118-144 | a span is found if and only if some prefix cut between tokens balances, and it is the shortest such prefix |
| SqlSplitting.ParenthesizedSqlSpan | pkg/mysqlmock/sqlscanner.go:118-144 | the loop finds that span, or reports the end of the text |
| SqlSplitting.StatementsStable | pkg/mysqlmock/sql_compat.go:671-706 | every statement split off re-splits to itself, comments and trimming included |
| SqlSplitting.SplitSqlStatements | pkg/mysqlmock/sql_compat.go:671-706 | the loop collects the trimmed, non-empty statements |
| LiteralReadings.LiteralsKeepMeaning | pkg/mysqlmock/mysql_syntax_compat.go:222-294 | for every text the pass accepts, SQLite reads the rewritten text, up to the first zero byte, as the same literals, names, comments and code as MySQL reads the original by its own escapes (\0, \', \", \b, \n, \r, \t, \Z, \\, \%, \_, any other byte itself) and doubled quotes, if and only if every token is kept |
| LiteralReadings.DecodeMeans | pkg/mysqlmock/mysql_syntax_compat.go:253-294 | what the decoder makes of a closed literal is what MySQL's escapes and doubled quotes say |
| LiteralReadings.ZeroByteOpensLiteral | pkg/mysqlmock/mysql_syntax_compat.go:270-272 | the literal `'\0'` is a zero byte to MySQL and an open quote to SQLite |
| LiteralReadings.DashesAreCode | pkg/mysqlmock/mysql_syntax_compat.go:238-242 | `5--1` is code to MySQL and a number with a comment to SQLite |
| LiteralReadings.HashCommentOpensLiteral | pkg/mysqlmock/mysql_syntax_compat.go:238-242 | a quote in a `#` comment opens a literal to SQLite |
| LiteralReadings.ClientLiteralRoundTrip | pkg/mysqlmock/mysql_syntax_compat.go:253-294 | a value escaped by a client is that value to MySQL, and reaches SQLite as one literal of that value if and only if it has no zero byte |
| LiteralReadings.UndoubleDouble | pkg/mysqlmock/information_schema.go:1170-1172 | a value written with doubled quotes is a closed literal that denotes the value |
| StringLiterals.DecodeMySqlStringLiteral | pkg/mysqlmock/mysql_syntax_compat.go:253-294 | the decoding loop computes the value that LiteralReadings.DecodeMeans shows to be MySQL's |
| StringLiterals.TranslateMySqlStringLiterals | pkg/mysqlmock/mysql_syntax_compat.go:222-251 | the pass writes each literal with the value decoded and copies everything else; LiteralReadings.LiteralsKeepMeaning says what SQLite reads in it |
| LikeEscape.LikePassErasable | pkg/mysqlmock/mysql_syntax_compat.go:124-202 | the output is the input with ESCAPE fragments inserted between tokens, and is read so if and only if the last token is closed where one is appended |
| LikeEscape.FragmentsStand | pkg/mysqlmock/mysql_syntax_compat.go:124-202 | a fragment is written exactly for each LIKE without an ESCAPE of its own that is the last before its predicate ends, right before the token that ends it: one of nine words, a closing parenthesis, a comma, a semicolon, or the end |
| LikeEscape.OneFragmentEach | pkg/mysqlmock/mysql_syntax_compat.go:124-202 | a LIKE gets one fragment at most, and a place the fragment of one LIKE at most |
| LikeEscape.CanContainLikeExact | pkg/mysqlmock/mysql_syntax_compat.go:204-211 | LIKE is looked for if and only if the first field is SELECT, WITH, UPDATE, DELETE or INSERT in any case, white space is behind it, and then something other than a semicolon that ends the text |
| LikeEscape.InsertEscapesTwice | pkg/mysqlmock/mysql_syntax_compat.go:124-202 | applying the pass twice equals applying it once if and only if no LIKE is left open at another depth |
| LikeEscape.OpenLikeGrows | pkg/mysqlmock/mysql_syntax_compat.go:124-202 | a LIKE before a parenthesis that never closes gets one more fragment on each run |
| LikeEscape.LikePassTwice | pkg/mysqlmock/mysql_syntax_compat.go:124-202 | with balanced parentheses and no open span at the end the pass is idempotent |
| LikeEscape.TranslateMySqlLikeDefaultEscape | pkg/mysqlmock/mysql_syntax_compat.go:124-202 | the loop with its pending, hasEscape and depth flags computes the pass |
| UpdateTargetLoops.FindSetKeyword | pkg/mysqlmock/mysql_syntax_compat.go:7-32 | the walk finds the first word SET outside quotes and comments, at whatever depth |
| UpdateTargetLoops.TranslateAssignments | pkg/mysqlmock/mysql_syntax_compat.go:7-122 | the loop strips the qualifier of each assignment target and tells whether any had one |
| UpdateTargetLoops.TranslateMySqlUpdateSetTargets | pkg/mysqlmock/mysql_syntax_compat.go:7-122 | the output is scanned into the statement's tokens without the qualifiers of assignment targets, if and only if no assignment trimmed at its end ends in a token that ends in a blank; a statement without a qualified target is unchanged |
| UpdateTargetLaws.FindSetFirst | pkg/mysqlmock/mysql_syntax_compat.go:7-32 | the walk over names, quotes, comments and bytes stops at the first word SET of the lexer |
| UpdateTargetLaws.SetTargetsRead | pkg/mysqlmock/mysql_syntax_compat.go:7-122 | the rewritten text is scanned into the kept tokens if and only if every trimmed assignment ends cleanly |
| UpdateTargetLaws.OnlyQualifiersDropped | pkg/mysqlmock/mysql_syntax_compat.go:78-122 | blanks aside, the kept tokens are those of the statement without the names and dots before the last name of each qualified target |
| UpdateTargetLaws.TrimmedCommentSwallowsTail | pkg/mysqlmock/mysql_syntax_compat.go:7-122 | a single assignment that ends in a line comment loses its newline, and the comment takes in the rest of the statement |
| UpdateTargetLaws.SwallowedWhere | pkg/mysqlmock/mysql_syntax_compat.go:7-122 | an UPDATE whose WHERE ends up in a comment |
| SqlParsing.HasSqlIdentifier | pkg/mysqlmock/mysql_syntax_compat.go:322-343 | the loop finds an identifier outside quotes and comments in any case |
| SqlParsing.UnquotedName | pkg/mysqlmock/sqlscanner.go:11-21 | a name in quotes of any kind is what stands between them |
| SqlParsing.BareName | pkg/mysqlmock/sqlscanner.go:11-21 | a bare name stands for itself |
| Pipeline.FastPathExact | pkg/mysqlmock/protocol.go:1084-1257 | where the fast path is taken, the full pipeline changes nothing if and only if literals are closed and the text does not parse as CREATE INDEX or ALTER TABLE ADD INDEX |
| Pipeline.FastPathSound | pkg/mysqlmock/protocol.go:1084-1257 | with closed literals and a first keyword other than CREATE and ALTER, fast path and full pipeline give the same text |
| Pipeline.FastPathMissesTab | pkg/mysqlmock/protocol.go:1218-1267 | CREATE, a tab and INDEX take the fast path although the full pipeline rewrites the statement |
| IndexStatementLoops.TranslateMySqlCreateIndex | pkg/mysqlmock/protocol.go:1336-1397 | an index with these parts is found if and only if the words of the text are CREATE [UNIQUE] INDEX name [USING value] ON table, a parenthesis, and options to the end |
| IndexStatementLoops.TranslateMySqlAlterTableAddIndex | pkg/mysqlmock/protocol.go:1269-1334 | the same for ALTER TABLE table ADD [UNIQUE] INDEX or KEY [USING value] name [USING value] |
| IndexGrammar.CreateIndexRead | pkg/mysqlmock/protocol.go:1336-1397 | the recogniser takes exactly the texts of the grammar of CREATE INDEX, with the table, name and columns the grammar gives |
| IndexGrammar.AddIndexRead | pkg/mysqlmock/protocol.go:1269-1334 | the same for ADD INDEX, where a name USING has no option behind it and an option takes the call behind it |
| IndexGrammar.IndexRead | pkg/mysqlmock/protocol.go:1084-1110 | the pipeline takes a text for an index statement exactly where one of the two grammars has it |
| Pipeline.OperatorsIdentity | pkg/mysqlmock/function_compat.go:5-28 | without `<=>` the operator pass is the identity |
| Pipeline.FunctionCallsIdentity | pkg/mysqlmock/function_compat.go:30-66 | without one of its function names the call pass is the identity |
| Pipeline.TokenLoopIdentity | pkg/mysqlmock/protocol.go:1084-1216 | without a replaced keyword the main token loop is the identity |
| Pipeline.LikePassIdentity | pkg/mysqlmock/mysql_syntax_compat.go:124-220 | without a LIKE in a statement that can have one the pass is the identity |
| Pipeline.NoLock | pkg/mysqlmock/sql_compat.go:606-644 | without FOR and LOCK outside quotes no locking clause is found, parentheses included |
| Pipeline.LiteralPassIdentity | pkg/mysqlmock/mysql_syntax_compat.go:222-251 | without backslash escapes the literal pass is the identity if and only if the literals are closed |
| PipelineLaws.StripLockReads | pkg/mysqlmock/sql_compat.go:606-658 | the first FOR UPDATE, FOR SHARE or LOCK IN SHARE MODE outside parentheses goes with everything behind it but a last semicolon, and the tokens in front of it stay, if and only if the last of them does not end in white space |
| PipelineLaws.StripLockText | pkg/mysqlmock/sql_compat.go:606-658 | what is left is the text before the clause without white space at its end, and a semicolon if the text ends in one |
| PipelineLaws.LockBehindComment | pkg/mysqlmock/sql_compat.go:646-658 | a line comment before the clause takes in the semicolon behind it |
| PipelineLaws.OperatorsRead | pkg/mysqlmock/function_compat.go:5-28 | the output is read as the tokens of the input with `<=>` in code as IS between blanks |
| PipelineLaws.FunctionCallsText | pkg/mysqlmock/function_compat.go:30-66 | of CONCAT, DATE_FORMAT, JSON_EXTRACT, JSON_UNQUOTE and CAST a call is replaced, its arguments taken as the tokens between its parentheses; every other token is copied |
| PipelineLaws.TokenLoopReads | pkg/mysqlmock/protocol.go:1109-1216 | the text written is that of the tokens with TRUE as 1, FALSE as 0, AUTO_INCREMENT as AUTOINCREMENT, NOW or CURRENT_TIMESTAMP with its call as CURRENT_TIMESTAMP and every other token unchanged; it is read as those tokens if and only if no such call is directly followed by a part of a name |
| PipelineLaws.ClockRunsIntoName | pkg/mysqlmock/protocol.go:1195-1201 | `NOW()a` becomes one name |
| PipelineLaws.IndexTextReads | pkg/mysqlmock/protocol.go:1269-1397 | what is written for an index is read as CREATE, UNIQUE if it is, INDEX, the quoted name, ON, table and columns, if and only if the quoted name is closed |
| PipelineLaws.DdlExact | pkg/mysqlmock/protocol.go:1259-1267 | a statement is DDL if and only if it starts with CREATE [TEMPORARY or TEMP] TABLE, ALTER TABLE or CREATE [UNIQUE] INDEX in any case, single blanks between, and goes on behind a blank |
| PipelineResults.SlowPathRewrites | pkg/mysqlmock/protocol.go:1084-1216 | off the fast path the text goes through every stage, each by the law of the stage: the locking clause gone, assignment targets unqualified, LIKE with its ESCAPE, `<=>` as IS, the known calls replaced, then an index statement written anew with UNIQUE kept, or TRUE, FALSE, AUTO_INCREMENT and clock calls replaced and the literals written with the meaning MySQL gives them |
| PipelineLoops.TranslateMySqlOperators | pkg/mysqlmock/function_compat.go:5-28 | the loop writes a text that is read as the input with `<=>` in code as IS |
| PipelineLoops.TranslateMySqlFunctionCalls | pkg/mysqlmock/function_compat.go:30-66 | the loop replaces the calls of the five functions and copies every other token |
| PipelineLoops.RewriteTokens | pkg/mysqlmock/protocol.go:1084-1216 | the loop writes the tokens of a statement that is no DDL with TRUE as 1, FALSE as 0, AUTO_INCREMENT as AUTOINCREMENT and clock calls as CURRENT_TIMESTAMP, every other token unchanged, and they are read so if and only if no clock call runs into a name |
| PipelineLoops.StripMySqlLockingClause | pkg/mysqlmock/sql_compat.go:606-658 | the loop strips the first locking clause outside parentheses, keeping the tokens in front of it and a semicolon at the end |
| PipelineLoops.HasMySqlBackslashEscapedString | pkg/mysqlmock/mysql_syntax_compat.go:296-320 | the loop tells whether a literal has a backslash |
| PipelineLoops.NeedsSqlTranslation | pkg/mysqlmock/protocol.go:1218-1257 | the fast-path test computes its specification |
| PipelineLoops.TranslateSqlText | pkg/mysqlmock/protocol.go:1084-1216 | the text itself on the fast path; off it what PipelineResults.SlowPathRewrites describes, the passes run in the source's order |
| Placeholders.CountPlaceholders | pkg/mysqlmock/prepared.go:366-450 | the seven-flag automaton counts the placeholders of the lexer that also ends line comments at a carriage return |
| Placeholders.WalksAgree | pkg/mysqlmock/prepared.go:366-450 | counter and scanner see the same tokens if and only if no line comment holds a carriage return |
| Placeholders.CountRefinesScanner | pkg/mysqlmock/prepared.go:366-450 | without such comments the count is the number of `?` outside quotes and comments |
| Placeholders.CountDiffersAfterCr | pkg/mysqlmock/prepared.go:383-388 | a carriage return in a comment makes the counter see one placeholder more |
| Placeholders.CountIsAdditive | pkg/mysqlmock/upsert.go:359-364 | the counts of the items of a list add up to the count of the list |
| Placeholders.BindRows | pkg/mysqlmock/upsert.go:393-418 | rows take consecutive slices of the arguments, and fail exactly when there are too few |
| Placeholders.BindUpsert | pkg/mysqlmock/upsert.go:393-418 | binding succeeds if and only if the counts match, and row and update slices concatenate to the arguments |
| Placeholders.BindInsert | pkg/mysqlmock/upsert.go:512-535 | the same for a plain insert, with no argument left over |
| Placeholders.BindingIsUnique | pkg/mysqlmock/upsert.go:393-418 | the counts determine the slices |
| UpsertClause.QuotedNameCloses | pkg/mysqlmock/server.go:884-886 | a quoted name is one closed span if and only if no backslash meets a quote or the end of the name |
| UpsertReading.CopyLexes | pkg/mysqlmock/upsert.go:837-932 | copied text is whole tokens and hides no placeholder |
| UpsertReading.ClauseReads | pkg/mysqlmock/upsert.go:837-932 | the clause and the WHERE are scanned into the tokens meant if and only if every move is good |
| ClauseReadings.ClauseReadAsMeant | pkg/mysqlmock/upsert.go:837-932 | the rewriter reads the clause as MySQL does, comments being white space, if and only if no comment stands between a name and its parenthesis, dot or column and every VALUES argument is one name |
| ClauseReadings.ClearClauseMeans | pkg/mysqlmock/upsert.go:837-932 | on such a clause the rewriter's moves mean what the clause means, argument for argument |
| ClauseReadings.CommentHidesValues | pkg/mysqlmock/upsert.go:891-909 | VALUES, a comment and `(b)` is the inserted value to MySQL and copied text to the rewriter |
| ClauseReadings.CommentHidesAlias | pkg/mysqlmock/upsert.go:911-932 | the same for an alias, a comment and `.b` |
| ClauseReadings.QualifiedValuesRefused | pkg/mysqlmock/upsert.go:891-909 | VALUES of a qualified column has a meaning but is refused as an unknown column |
| UpsertArguments.WriteOutcome | pkg/mysqlmock/upsert.go:837-932 | an error is reported exactly for an unknown column or a wrong number of update arguments, and which one |
| UpsertArguments.ArgumentsAlign | pkg/mysqlmock/upsert.go:837-889 | the arguments written bind the placeholders one for one, the row id the last, behind WHERE rowid = |
| UpsertArguments.StatementReads | pkg/mysqlmock/upsert.go:837-932 | the statement with its arguments bound in order is read as UPDATE, the quoted table, SET, the tokens and values the moves stand for, and WHERE rowid = the row id, if and only if the moves are good |
| UpsertArguments.StatementMeans | pkg/mysqlmock/upsert.go:837-932 | on a clear clause with good moves the statement, read with its arguments bound in order, is UPDATE, the quoted table, SET, what the clause means to MySQL, with VALUES(c) and alias.c as the inserted value, and WHERE rowid = the row id; it is written if and only if the clause has a meaning |
| UpsertExecution.OneRecordChanges | pkg/mysqlmock/upsert.go:837-889 | the statement written for a clear clause, read word by word and run on any list of records, makes of the one record with the row id what the clause means, and changes no other |
| UpsertExecution.QuotedNameReads | pkg/mysqlmock/server.go:884-886 | SQLite reads a quoted name as the name, double quotes in it included |
| UpsertArguments.ParamsAreMarks | pkg/mysqlmock/upsert.go:393-410 | the placeholders the binder counted are the parameters the rewriter takes |
| UpsertArguments.TrailingCommentSwallowsWhere | pkg/mysqlmock/upsert.go:845-889 | a clause that ends in an open line comment is not good |
| UpsertClauseLoops.ReadSqlNameToken | pkg/mysqlmock/sqlscanner.go:100-116 | the reader finds the quoted or bare name of the specification |
| UpsertClauseLoops.RewriteUpsertReference | pkg/mysqlmock/upsert.go:891-932 | replacement, next position, arguments and error of each reference are those of the move |
| UpsertClauseLoops.ValueByColumn | pkg/mysqlmock/upsert.go:838-843 | the loop maps each column to its value, a later column of the same name winning |
| UpsertClauseLoops.BuildSqliteUpsertUpdate | pkg/mysqlmock/upsert.go:837-889 | the loop writes the statement and arguments that UpsertArguments.StatementMeans and UpsertExecution.OneRecordChanges speak of, or its error |
| AutoIncrement.NoValueReuse | pkg/mysqlmock/auto_increment_compat.go:24-187 | over every run of every number of connections a generated value is above all values generated for or inserted into its table before, and at most 2^63-1 |
| AutoIncrement.RunAbove | pkg/mysqlmock/auto_increment_compat.go:24-187 | from every good state on, generated values are above the recorded allocation |
| AutoIncrement.StepInv | pkg/mysqlmock/protocol.go:415-472 | every statement keeps the live sequence at least at the recorded allocation and a rollback able to keep it there |
| AutoIncrement.GoBack | pkg/mysqlmock/auto_increment_compat.go:69-88 | going back to any frame and restoring leaves every sequence covering the record |
| AutoIncrement.AfterInsertInv | pkg/mysqlmock/auto_increment_compat.go:47-67 | an allocation marks its table whenever a snapshot may fall short of it |
| AutoIncrement.InsertsKeep | pkg/mysqlmock/auto_increment_compat.go:238-295 | generated, explicit and composite-key inserts advance the record and report what they store |
| AutoIncrement.FreshServer | pkg/mysqlmock/server.go:312-351 | a started or reset server satisfies the invariant |
| AutoIncrement.BareSavepointReuses | pkg/mysqlmock/auto_increment_compat.go:139-147 | a savepoint outside BEGIN leads to the same value twice |
| AutoIncrement.SavepointRepeats | pkg/mysqlmock/auto_increment_compat.go:139-147 | from every good state, insert, ROLLBACK TO and insert again behind a savepoint repeat a value if and only if the status flag is not set |
| AutoIncrement.InsertBetweenRollbackAndRestoreReuses | pkg/mysqlmock/protocol.go:426-440 | another connection's insert between rollback and restore gets a value again |
| AutoIncrementServer.Server.RecordAllocation | pkg/mysqlmock/auto_increment_compat.go:24-39 | the record keeps the largest value and tells whether it grew |
| AutoIncrementServer.Database.SetSequenceAtLeast | pkg/mysqlmock/auto_increment_compat.go:162-187 | update, then insert where no row was found, raises the sequence and never lowers it |
| AutoIncrementServer.MysqlConn.MarkRestoreTable | pkg/mysqlmock/auto_increment_compat.go:139-147 | a table is marked only inside a transaction |
| AutoIncrementServer.MysqlConn.RestoreSequences | pkg/mysqlmock/auto_increment_compat.go:69-88 | restoring table by table, in any order, raises every marked sequence |
| AutoIncrementServer.MysqlConn.Begin | pkg/mysqlmock/protocol.go:797-800 | the status flag is set even when SQLite refuses the BEGIN |
| AutoIncrementServer.MysqlConn.Commit | pkg/mysqlmock/protocol.go:418-425 | the statement's effect on shared and own state |
| AutoIncrementServer.MysqlConn.Rollback | pkg/mysqlmock/protocol.go:426-440 | rollback, restore and clearing of marks together have the modelled effect |
| AutoIncrementServer.MysqlConn.RollbackAndChain | pkg/mysqlmock/protocol.go:441-455 | the same, followed by a new transaction |
| AutoIncrementServer.MysqlConn.RollbackToSavepoint | pkg/mysqlmock/protocol.go:456-464 | the marks are kept and the sequences raised again |
| AutoIncrementServer.MysqlConn.NextAutoIncrementValue | pkg/mysqlmock/auto_increment_compat.go:272-295 | one more than both the largest row and the record, or none exactly at 2^63-1 |
| AutoIncrementServer.MysqlConn.InsertCompositeRow | pkg/mysqlmock/auto_increment_compat.go:238-295 | a composite-key insert has the modelled effect and reply |
| AutoIncrementServer.RestoreMore | pkg/mysqlmock/auto_increment_compat.go:69-88 | restoring one more table touches that table alone |
| UniqueKeys.FindConflictRowIDs | pkg/mysqlmock/upsert.go:945-994 | the loops over keys, columns and rows collect each conflicting row id once, in key order |
| UniqueKeys.FinderExact | pkg/mysqlmock/upsert.go:945-994 | the finder is non-empty exactly when the INSERT violates a key, on every table, if and only if every key the row could clash on contains a key whose columns are given |
| UniqueKeys.DefaultKeyMissed | pkg/mysqlmock/upsert.go:945-994 | a key left to a default that is not NULL is violated while the finder finds nothing |
| UniqueKeys.FoundClashes | pkg/mysqlmock/upsert.go:945-994 | whatever is found does clash with the row to be stored |
| UniqueKeys.ClashFound | pkg/mysqlmock/upsert.go:945-994 | under that condition every clashing record is found |
| UniqueKeys.FoundIffConflicts | pkg/mysqlmock/upsert.go:945-994 | under that condition the records found are exactly those that agree with the row on a key, the generated id playing no part |
| UniqueKeys.FirstFoundKey | pkg/mysqlmock/upsert.go:945-994 | the first id found is that of the first key, in key order, that is given and held by a record |
| UniqueKeys.AllGivenCovers | pkg/mysqlmock/upsert.go:945-994 | giving every key column, or leaving it NULL or freshly generated, meets the condition |
| RowExecutors.ReplaceRowExact | pkg/mysqlmock/upsert.go:261-299 | a covered REPLACE row never violates after its deletes: the records that agree with it on a key leave, whatever id is generated, the others stay in order, the row is added, and every deletion counts once |
| RowExecutors.InsertExact | pkg/mysqlmock/upsert.go:226-299 | SQLite takes a row if and only if no record agrees with it on a key, and then adds just that row, a generated id being one not in use |
| RowExecutors.IgnoreRowExact | pkg/mysqlmock/upsert.go:226-259 | a row of INSERT IGNORE is added and counted, or becomes a warning if and only if a record agrees with it on a key |
| RowExecutors.ReplaceGoesThrough | pkg/mysqlmock/upsert.go:261-299 | a whole REPLACE succeeds, keeps all keys unique, ends with its last row, and affected rows are inserts plus deletes |
| RowExecutors.ReplaceKeeps | pkg/mysqlmock/upsert.go:261-299 | keys stay unique over all rows, failed or not |
| RowExecutors.IgnoreOnlyAdds | pkg/mysqlmock/upsert.go:226-259 | INSERT IGNORE leaves every record in place; each row in turn is added or kept out by a record that agrees with it on a key; added and warned rows add up, warnings modulo 2^16 |
| RowExecutors.UpsertRowExact | pkg/mysqlmock/upsert.go:81-160 | a row is added exactly when no record agrees with it on a key; otherwise the first record found becomes change(old row) with its id kept and no other record changes, or, only for an uncovered row, the statement fails; affected rows are 1, 2 or 0 |
| RowExecutors.UpsertKeeps | pkg/mysqlmock/upsert.go:81-160 | a whole upsert statement keeps the keys unique |
| InsertIds.ReplaceLastId | pkg/mysqlmock/upsert.go:261-299 | the same for REPLACE: the first row that reports its generated value or else its positive row id |
| InsertIds.IgnoreLastId | pkg/mysqlmock/upsert.go:226-259 | the same for INSERT IGNORE, where a row that becomes a warning reports nothing |
| InsertIds.UpsertLastId | pkg/mysqlmock/upsert.go:81-160 | the last insert id of a whole upsert is that of the first row that reports one that is not zero - a stored row its generated value or else its positive row id, an updated row the positive number in its auto-increment column - and 0 if no row does |
| RowExecutorLoops.ExecReplace | pkg/mysqlmock/upsert.go:261-299 | the nested loops have the modelled effect and counts, and the last insert id is the first one reported |
| RowExecutorLoops.ExecInsertIgnore | pkg/mysqlmock/upsert.go:226-259 | the loop has the modelled effect, counts and warnings, and the last insert id is the first one reported |
| RowExecutorLoops.ExecUpsert | pkg/mysqlmock/upsert.go:81-160 | the loop has the modelled effect and counts, and the last insert id is the first one reported |
| WireBytes.LenEncRoundTrip | pkg/mysqlmock/prepared.go:467-495 | every 64-bit length is read back, whatever follows it |
| WireBytes.LenEncFirstByte | pkg/mysqlmock/protocol_codec.go:430-446 | the first byte is 0xfe exactly from 2^24 on and never 0xfb or 0xff |
| WireBytes.AppendLenEncInt | pkg/mysqlmock/protocol_codec.go:430-446 | the bytes appended are those of the encoding, the eight-byte loop included |
| WireBytes.LenEncBytesRoundTrip | pkg/mysqlmock/prepared.go:452-500 | a length-encoded string is read back and consumed exactly |
| WireBytes.BitMapBit | pkg/mysqlmock/prepared.go:188-192 | bit i % 8 of byte i / 8 of a bit map is its i-th bit |
| PreparedValues.ValueRoundTrip | pkg/mysqlmock/prepared.go:211-292 | every value a client may send for a type, in the format and width the protocol has for it, is decoded to what it meant and consumed exactly; a time if and only if its hours fit in 32 bits |
| PreparedValues.KindIsFormat | pkg/mysqlmock/prepared.go:211-292 | for every type code the decoder's format and width are those of the protocol: TINY 1, SHORT and YEAR 2, LONG and INT24 4, LONGLONG 8, FLOAT 4, DOUBLE 8 bytes, the codes of strings, blobs, dates and times |
| PreparedValues.UnknownRefused | pkg/mysqlmock/prepared.go:211-292 | a type code the protocol does not have is refused |
| PreparedValues.DecodePrefix | pkg/mysqlmock/prepared.go:211-292 | the decoder looks at nothing beyond what it consumes |
| PreparedValues.DateRoundTrip | pkg/mysqlmock/prepared.go:502-530 | dates and times are decoded field by field |
| PreparedValues.TimeRoundTrip | pkg/mysqlmock/prepared.go:532-559 | a time is decoded with its hours modulo 2^32 |
| PreparedStatements.ExecuteRoundTrip | pkg/mysqlmock/prepared.go:154-209 | for every count, zero included, types, null pattern, long-data set and choice of sending types the decoder inverts the encoder |
| PreparedStatements.NoTrailingBytes | pkg/mysqlmock/prepared.go:154-208 | an accepted payload followed by anything is refused if and only if the statement has parameters |
| PreparedStatements.TrailingByteTaken | pkg/mysqlmock/prepared.go:154-158 | without parameters a trailing byte is accepted |
| PreparedStatements.LongDataIsChunks | pkg/mysqlmock/prepared.go:71-152 | long data is the concatenation of the chunks sent since the last execute or reset |
| PreparedStatements.PreparedStatement.DecodeExecuteArgs | pkg/mysqlmock/prepared.go:154-209 | header, types and values are read as specified and the types remembered |
| PreparedStatements.PreparedStatement.DecodeValues | pkg/mysqlmock/prepared.go:183-209 | the loop over the parameters computes the arguments |
| PreparedStatements.PreparedStatement.ExecuteArgs | pkg/mysqlmock/prepared.go:83-87 | long data is dropped after an execute, failed or not |
| PreparedStatements.PreparedStatement.SendLongData | pkg/mysqlmock/prepared.go:119-131 | a chunk is appended to its parameter's data |
| Packets.FrameRoundTrip | pkg/mysqlmock/protocol_codec.go:182-219 | a client that continues full packets reads a packet back whole, with its number and nothing after it touched, if and only if it has not 2^24 - 1 bytes |
| Packets.FullPacketSwallowsNext | pkg/mysqlmock/protocol_codec.go:199-219 | a packet of 2^24 - 1 bytes leaves a client waiting, or takes in the packet that follows |
| Packets.ReadPacketBack | pkg/mysqlmock/protocol_codec.go:182-197 | the server's own reader takes every packet that can be sent whole |
| Packets.PacketWriter.WritePacket | pkg/mysqlmock/protocol_codec.go:199-219 | whatever the reused buffer held, exactly the packet is written; payloads of 2^24 bytes and more are refused |
| Packets.PacketWriter.PacketBuffer | pkg/mysqlmock/protocol_codec.go:221-226 | the kept buffer is used if it is large enough |
| Packets.PacketWriter.ReleasePacketBuffer | pkg/mysqlmock/protocol_codec.go:228-235 | a buffer above 64 KiB is not kept |
| ResultSets.TextRowRoundTrip | pkg/mysqlmock/protocol_codec.go:259-273 | a text row is read back cell by cell, NULL included |
| ResultSets.TextRowIsRowLike | pkg/mysqlmock/protocol_codec.go:199-202 | no text row that can be sent starts with 0xfe or 0xff |
| ResultSets.BinaryRowRoundTrip | pkg/mysqlmock/prepared.go:294-364 | a binary row is read back, by the formats and widths the protocol has for its types, to its full length, and to its own values if and only if its integers fit their columns |
| ResultSets.CellAsProtocol | pkg/mysqlmock/prepared.go:316-364 | a cell is written as the protocol has its value written, for every column type |
| ResultStreams.StreamRecoverable | pkg/mysqlmock/protocol_codec.go:14-180 | a client gets exactly the packets written, numbered modulo 256, stops at the end, and learns status and warnings there, with and without CLIENT_DEPRECATE_EOF, if and only if no packet has 2^24 - 1 bytes |
| ResultStreams.ReadRowsBack | pkg/mysqlmock/protocol_codec.go:142-166 | rows and terminator cannot be mistaken for each other |
| ResultStreams.EndingBack | pkg/mysqlmock/protocol_codec.go:135-166 | an EOF packet, and the OK packet in its place, are read as the status, no warnings, and nothing affected or inserted |
| ResultStreams.ColumnRoundTrip | pkg/mysqlmock/protocol_codec.go:237-257 | catalog, schema, name, character set, length and type of a column are read back from its definition |
| ResultStreams.TextResultRecovered | pkg/mysqlmock/protocol_codec.go:14-42 | a text result set is read back - column definitions, rows, cells, status - if and only if no packet has 2^24 - 1 bytes |
| ResultStreams.BinaryResultRecovered | pkg/mysqlmock/prepared.go:294-364 | a binary result set is read back by the types its columns announce, with its status, if and only if no packet has 2^24 - 1 bytes and every integer fits its column |
| ResultSetWriters.BuildTextRow | pkg/mysqlmock/protocol_codec.go:259-273 | the loop builds the row |
| ResultSetWriters.BuildBinaryRow | pkg/mysqlmock/prepared.go:294-314 | the loop sets the bits of the null map behind the header and appends the values |
| ResultSetWriters.BitMapSet | pkg/mysqlmock/prepared.go:303-306 | setting a bit touches one byte of the null map |
| ResultSetWriters.WriteResultSet | pkg/mysqlmock/protocol_codec.go:14-119 | what goes out is the packets up to the first one refused, and success means that none was |
| SchemaHistory.QuietIsCurrent | pkg/mysqlmock/server.go:292-310 | once every change is announced, what covers the current version is the current catalogue |
| SchemaCache.NoStaleHit | pkg/mysqlmock/upsert.go:996-1146 | in every run, rollbacks of announced changes included, whatever a lookup returns reflects every change announced before it began, nested lookups included |
| SchemaCache.RollbackLeavesStaleHit | pkg/mysqlmock/protocol.go:813-815 | a change announced inside a transaction and rolled back leaves a hit for the current version that is not the catalogue |
| SchemaCache.HitAfterRollback | pkg/mysqlmock/protocol.go:813-815 | after a rollback every entry is still a hit, and is the current catalogue if and only if the rollback did not change the table |
| SchemaCache.StepInv | pkg/mysqlmock/upsert.go:996-1146 | every step keeps each entry tagged v read after the changes announced by v |
| SchemaCache.QuietHitIsCurrent | pkg/mysqlmock/auto_increment_compat.go:97-137 | when the last change to the catalogue was an announced one, no rollback, a hit for the current version is the current catalogue |
| SchemaCacheServer.MetadataServer.AnnounceChange | pkg/mysqlmock/server.go:296-298 | incrementing the version is the announcing step |
| SchemaCacheServer.MetadataServer.ClearCaches | pkg/mysqlmock/server.go:299-304 | the locked section is the clearing step |
| SchemaCacheServer.MetadataServer.CachedTableColumns | pkg/mysqlmock/upsert.go:1101-1109 | the locked check is a hit or a miss as the machine says |
| SchemaCacheServer.MetadataServer.StoreTableColumns | pkg/mysqlmock/upsert.go:1136-1145 | the locked store is the storing step |
| SchemaMirror.MirrorCoherent | pkg/mysqlmock/information_schema.go:76-274 | once every change is announced, a flag or mark for the current version means its part of the mirror equals the catalogue, row for row, and shows each table's columns and indexes in order |
| SchemaMirror.StepInv | pkg/mysqlmock/information_schema.go:76-274 | every step of full, table-list and single-table refreshes and schema changes keeps what each flag promises |
| SchemaMirror.BatchKeeps | pkg/mysqlmock/information_schema.go:76-274 | a batch keeps the promises of all flags and delivers its own |
| SchemaMirror.MarkKeeps | pkg/mysqlmock/information_schema_cache.go:32-80 | setting a flag after its batch promises no more than holds |
| SchemaMirrorServer.InformationSchema.RefreshFull | pkg/mysqlmock/information_schema.go:92-126 | deleting all and inserting table by table gives the catalogue's rows |
| SchemaMirrorServer.InformationSchema.RefreshTableList | pkg/mysqlmock/information_schema.go:177-209 | the list of tables is rewritten and the other rows left alone |
| SchemaMirrorServer.InformationSchema.RefreshTable | pkg/mysqlmock/information_schema.go:236-268 | the rows of one table are rewritten, and a table that is gone keeps none |
| SchemaMirrorServer.InformationSchema.HasRefresh | pkg/mysqlmock/information_schema_cache.go:32-70 | the flag tests answer as the machine's hit test |
| SchemaMirrorServer.InformationSchema.SetMark | pkg/mysqlmock/information_schema_cache.go:36-80 | the flag setters do what the machine's marking step does |
| TranslationCache.FirstInFirstOut | pkg/mysqlmock/sql_translation_cache.go:123-148 | after any run of stores the cache holds exactly the last 4096 keys that were new when they came |
| TranslationCache.CacheIsTransparent | pkg/mysqlmock/sql_translation_cache.go:26-61 | over every interleaving each cached value and each answer is the uncached result |
| TranslationCache.StoreSound | pkg/mysqlmock/sql_translation_cache.go:123-148 | the order lists each key once, there are at most 4096, and a store changes no other value |
| TranslationCache.FifoCache.CacheStore | pkg/mysqlmock/sql_translation_cache.go:123-148 | the eviction loop stores as specified |
| TranslationCache.StatementCache.Lookup | pkg/mysqlmock/sql_translation_cache.go:44-52 | the list handed out is a copy the cache does not keep |
| TranslationCache.StatementCache.Keep | pkg/mysqlmock/sql_translation_cache.go:54-60 | the list kept is a copy the caller does not hold, stored first in first out with at most 4096 lists |
| TranslationCache.WriteToAnswer | pkg/mysqlmock/sql_translation_cache.go:44-61 | a caller that writes to its answer changes nothing for the next one |
| CacheKeys.QueryKeyInjective | pkg/mysqlmock/information_schema_cache.go:154-168 | two query keys are equal if and only if lower-cased database, text and all rendered arguments are |
| CacheKeys.InformationSchemaQueryCacheKey | pkg/mysqlmock/information_schema_cache.go:154-168 | the loop writes the length-prefixed parts |
| CacheKeys.ShowFullFieldsInjective | pkg/mysqlmock/information_schema_cache.go:147-152 | without NUL bytes in the parts equal keys have equal parts |
| CacheKeys.ShowFullFieldsCollide | pkg/mysqlmock/information_schema_cache.go:147-152 | for every table, a NUL byte in the pattern with lower case behind it gives two different requests one key |
| CacheKeys.ShowFullFieldsShared | pkg/mysqlmock/information_schema_cache.go:143-152 | a request shares its key with a different one if and only if a NUL byte is in its database, table or collation, or in its pattern with only lower case on one of its sides |
| LikeMatch.SqlLikeMatch | pkg/mysqlmock/active_record_compat.go:277-279 | the matcher answers exactly whether the value can be cut into pieces that fit the pattern |
| LikeMatch.SqlLikeMatchAt | pkg/mysqlmock/active_record_compat.go:281-312 | the loops and the recursion terminate and decide every pair of suffixes |
| LikeMatch.PercentTwice | pkg/mysqlmock/active_record_compat.go:284-290 | a run of `%` is as good as one |
| LikeMatch.PlainPattern | pkg/mysqlmock/active_record_compat.go:303-322 | a pattern without wildcards matches the texts equal to it up to ASCII case |
| SnapshotStrings.EncodedReads | pkg/mysqlmock/diagnostics.go:206-242 | reading an encoded string gives the value with each stray byte replaced by U+FFFD |
| SnapshotStrings.ValidIsUnchanged | pkg/mysqlmock/diagnostics.go:206-242 | valid UTF-8 comes back unchanged |
| SnapshotStrings.RuneExact | pkg/mysqlmock/diagnostics.go:206-242 | a text starts with a rune if and only if it starts with the UTF-8 encoding of a scalar value |
| SnapshotStrings.BodyInoffensive | pkg/mysqlmock/diagnostics.go:206-300 | no byte below 0x20, none of `<`, `>` and `&`, and no line or paragraph separator is written raw |
| SnapshotStrings.AppendSnapshotJsonString | pkg/mysqlmock/diagnostics.go:206-242 | the loop that copies runs of bytes writes the encoded string |
| SnapshotStrings.SnapshotJsonStringLen | pkg/mysqlmock/diagnostics.go:244-272 | the length loop gives the length of the encoded string |
| SnapshotDocuments.EstimateSnapshotSize | pkg/mysqlmock/diagnostics.go:143-204 | the estimated size is exactly the length of the document |
| SnapshotDocuments.SnapshotJson | pkg/mysqlmock/diagnostics.go:43-63 | the writer, which sees the first object from the length of its buffer, writes the document |
| SnapshotDocuments.AppendFields | pkg/mysqlmock/diagnostics.go:128-141 | fields are written with commas between the ones kept |
| SnapshotDocuments.QuerySnapshotJson | pkg/mysqlmock/diagnostics.go:43-63 | the capacity reserved is the length of the result |
| SnapshotDocuments.UnsupportedSnapshotJson | pkg/mysqlmock/diagnostics.go:80-101 | the same for unsupported queries |
| SnapshotReading.DocumentReads | pkg/mysqlmock/diagnostics.go:43-141 | reading a document gives the recorded entries, empty optional fields left out |
| SnapshotReading.QueryProper | pkg/mysqlmock/diagnostics.go:43-60 | every query event makes an entry that can be read back |
| SnapshotReading.QueriesRead | pkg/mysqlmock/diagnostics.go:10-22 | a reader gets every event in order: command, route, database, sql and normalized_sql each under its own name, empty ones left out, the normalised text also where it is the text |
| SnapshotReading.UnsupportedRead | pkg/mysqlmock/diagnostics.go:24-37 | the same for unsupported queries, with their route stage and suggestion |
| SnapshotReading.Layout | pkg/mysqlmock/diagnostics.go:103-141 | every brace, bracket and member has a line of its own, indented by two blanks a level; an empty list has its brackets side by side |

## Left out

- SQLite itself: a table is a list of records with unique keys, the sequence table a map with
  snapshots for open transactions; expressions are evaluated elsewhere.
- Sockets, the accept loop, authentication, logging, timers, statistics and the command line.
- Configuration, seeds, rules, response profiles, advisory locks.
- DDL translation of column types, the hash in an index name and the translated text of its columns, and the
  texts of translated function calls: they are parameters of the pipeline laws, which hold for any.
- PipelineLoops.TranslateSqlText: the DDL loop, index names, index columns and function texts are parameters.
- UpdateTargetLaws.SetTargetsRead: says nothing of running the pass twice.
- LiteralReadings.LiteralsKeepMeaning: the readings know quotes, comments, brackets and zero bytes, under MySQL's
  default modes; parameters of SQLite with a parenthesised suffix are not known to them.
- ClauseReadings.ClauseReadAsMeant: the scanner's comments and the unquoting of names are taken for MySQL's own, so a
  `--` that nothing blank follows is a comment, and a back-quoted VALUES is the function.
- White space beyond ASCII in trimming, and case folding beyond ASCII.
- Pipeline.TranslateSql: texts with a lone open quote at the end are outside `NoBareQuote`, because the
  source slices out of range there.
- AutoIncrement.NoValueReuse: statements are taken as atomic, savepoints as used inside BEGIN, all
  connections as sharing one database, table names as written in one case; a Reset starts a new run, and
  a connection that closes inside a transaction is not modelled.
- AutoIncrementServer.MysqlConn.RestoreSequences: errors of SQLite during a restore are not modelled.
- UniqueKeys.FinderExact: keys are plain columns compared by equal values; partial and expression
  indexes, collations and type affinity are not modelled.
- RowExecutors.UpsertRowExact: the update of a row is a function of the row; evaluating its expressions
  is not modelled.
- UpsertArguments.StatementMeans: stops before the final translateSQL, which may reorder text.
- PreparedValues.ValueRoundTrip: calendar arithmetic on dates, float conversion and the formatting of
  times and large unsigned numbers as text are not modelled; the numbers themselves are.
- ResultSets.BinaryRowRoundTrip: TIME columns are sent as text and are not read back; rendering values as
  text, and converting them to numbers or dates, is taken as done.
- ResultStreams.StreamRecoverable: result sets without columns, and failing network writes, are not modelled.
- SchemaMirror.MirrorCoherent: a batch is one atomic read and write, as SQLite's savepoint makes it; one
  database name, exact-case table names, and no refresh undone by an outer ROLLBACK. The rows of a table
  are its columns and indexes; the constant schemata rows are left out.
- AutoIncrement.SavepointRepeats: one pattern of statements; that every run outside `Allowed` repeats a value is not claimed.
- SchemaCache.NoStaleHit: the cache of tables that use AUTOINCREMENT follows the steps of the column cache.
- SnapshotStrings.EncodedReads: the reader does not know surrogate pairs, which are never written.
- Splitting off ON DUPLICATE KEY UPDATE, implicit defaults and DEFAULT expressions: long but without a
  law of their own.
