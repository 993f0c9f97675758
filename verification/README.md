# cm in Dafny

`cm` is a proxy between MySQL clients and MySQL servers with a memcached row cache. This project
models the parts of it that are hardest to get right and proves what they keep.

Six areas are modelled.

- **The row cache.** `RowCacheProtocol` is a step system: any number of clients interleave cache reads,
  locked fills and locked writes, one atomic step at a time, while entries are evicted or expire and
  calls fail. Its main results are coherence in every state of every run, that each SELECT returns a row
  the database held during the call, and a forward simulation to the same system without a cache.
  `CacheKey` says which rows have distinct cache keys, and `RowCache` is the memcached client.
- **The planner.** `Ast`, `Schema` and `SqlMeaning` give syntax, table metadata and the meaning of
  conditions in three-valued logic. `PlanWhere`, `PlanSelect` and `PlanDml` model the planner and prove
  when replacing a SELECT by a keyed lookup keeps its answer; `TouchedRows` says which rows a guarded
  write touches, and `CachedSql` that such a statement is a write of the cache protocol on the key that
  guards it: coherence of the protocol covers the statements that meet its condition.
- **The wire.** `Sequences`, `Bytes`, `Decimal`, `LengthEncoding`, `PacketIO`, `StringRuns`, `FieldCodec`,
  `RowText`, `ResultStream` and `StmtCodec` cover packets, column definitions, text rows, whole result sets
  and statement arguments, as writers, readers and round trips.
- **SQL text.** `Tokenizer` is the scanner with its push-back; `TrackedBuffer` formats syntax trees while
  tracking bind variables and substitutes values later. `SqlReader` reads text back into trees, knowing the
  grammar and not the printer: `ReadBack`, `ConditionReadBack` and `StatementReadBack` show that printed
  operands, conditions and statements are read as what was printed, `BoundText` and `TupleText` that
  substituted values are read as those values, and `KeyedRead` what the text of a keyed lookup asks for.
- **Sessions and pools.** `Session` accounts for every backend connection of a session, `Pool` is the
  idle list with its atomic counter under all interleavings, and `Reload` is configuration reload against
  concurrent sessions.
- **Sharding.** `Sharding` parses numeric and hexadecimal specs and says when they are partitions.

Objects the program updates in place are classes here, and its loops are loops; each such method is
proved against a function, and the theorems are about those functions. Panics, failed type assertions
and calls that stop the process are results of their own. Where a loop makes two unrelated things at
once it is sometimes split in two.

Some functions take a reader or a parser as a parameter (`StringRuns.ReadRun`, `StmtCodec.Binds`,
`Sharding.ParseParts` and others). The program has one of each; the parameter only keeps proofs about the
loop apart from proofs about one element.

## Where the code does less than its purpose

These properties fail in general. The code is modelled as it is; a lemma shows the failure and another
gives the exact condition under which the property holds.

| property | fails on | holds exactly when |
|---|---|---|
| packets come back | lengths that are multiples of MaxPayloadLen | `PacketIO.RoundTripIff` |
| column definitions come back | most default values | `FieldCodec.RoundTripIff` |
| built result sets arrive | numbers after the first row, floating-point numbers longer than sixteen decimals | `ResultStream.ValuesDeliveredIff` |
| a hit sends what the fill sent | column classes that differ | `RowText.HitEqualsFillIff` |
| cached rows are current | rows that share a cache key | `RowCacheProtocol.CoherentIff`, `CacheKey.SplitKeyIff` |
| writes outside the protocol are harmless | a cached row, or one on its way to the cache | `RowCacheProtocol.BypassIff` |
| a keyed lookup is the query | repeated columns, octal-looking numbers, LIMIT 0, IN lists | `PlanSelect.CachedIff` |
| a guarded UPDATE or DELETE touches its key only | octal-looking numbers, lists of several values (`TouchedRows.OctalDelete`, `ListDelete`) | `TouchedRows.TouchedIff` |
| a guarded REPLACE writes its key only | the same, several rows, key columns left to the database (`TouchedRows.LeftOutReplace`) | `TouchedRows.ReplaceIff` |
| number literals mean the same on both sides | leading zeros | `SqlMeaning.LeadingZeroIff` |
| an encoded string scans back | a quote right after it | `Tokenizer.LiteralRoundTripIff` |
| a word scans as written | a final x | `Tokenizer.WordExactIff` |
| connections are given back | getConn failing part-way | `Session.SettledIff` |
| hexadecimal specs are partitions | mixed letter case | `Sharding.SpecIff` |

## Model

| member | source | states |
|---|---|---|
| `RowCacheProtocol.CoherentIff` | proxy/conn_query.go:377-425 | In every interleaving of any number of clients doing cached selects, fills, updates, deletes, replaces and inserts, with entries evicted or expiring and calls failing at any point, a live cached row is the database's current row; this holds of all runs if and only if distinct cacheable rows have distinct cache keys |
| `RowCacheProtocol.StepKeepsInv` | proxy/conn_query.go:521-578 | Every single step of every client keeps coherence, the lock discipline, and what clients in the middle of a call rely on |
| `RowCacheProtocol.RunKeepsInv` | vt/tabletserver/rowcache.go:83-122 | Every state of every run satisfies the invariant |
| `RowCacheProtocol.CollidingKeysRun` | proxy/conn_query.go:298-310 | A concrete run that makes the cache wrong whenever two rows share a cache key |
| `RowCacheProtocol.SelectReturnsCurrentRow` | proxy/conn_query.go:467-500 | Every select, answered by a hit or by a fill, returns the row the database held at some instant between the call and its return |
| `RowCacheProtocol.AnswerInstant` | vt/tabletserver/rowcache.go:45-81 | The instant at which an answer was settled, with the client inside the same call ever since |
| `RowCacheProtocol.StepRefines` | proxy/conn_query.go:377-425 | Each step of the cached system is a step of the same system without cache and locks, or invisible to it; the outcome of every write is part of both |
| `RowCacheProtocol.RunRefines` | proxy/conn_query.go:467-578 | Every run of the cached proxy is a run of the uncached one |
| `RowCacheProtocol.InsertRuns` | proxy/conn_query.go:560-578 | An INSERT that the database runs puts its row under a key that had none, and the client is told so; one of an existing key, or one that fails, changes nothing and the client is told that; no other key changes |
| `RowCacheProtocol.WriteRuns` | proxy/conn_query.go:560-578 | An UPDATE, DELETE or REPLACE that the database runs leaves under every key the row it should, one that fails changes nothing, and the client is told which |
| `RowCacheProtocol.BypassIff` | proxy/conn_query.go:33-38 | A write outside the protocol (upsert, unparsed statement), whatever rows it changes, leaves every later state of every continuation coherent if and only if no cacheable row it made out of date is in the cache or on its way there |
| `RowCacheProtocol.OutdatedFill` | proxy/conn_query.go:412-420 | A fill that carries an outdated row makes the cache wrong once the entry in its way is evicted |
| `RowCacheProtocol.StaleHit` | proxy/conn_query.go:33-38 | A concrete run: a fill, an upsert, and a later SELECT answered with the old row |
| `RowCache.Cache.Get` | vt/tabletserver/rowcache.go:45-81 | Exactly the askable keys that hold something are in the result; tombstones give no row |
| `RowCache.Cache.Set` | vt/tabletserver/rowcache.go:83-106 | A row is stored only where nothing, not even a tombstone, is; nothing else changes |
| `RowCache.Cache.Delete` | vt/tabletserver/rowcache.go:108-122 | The tombstone replaces whatever is there; nothing else changes |
| `RowCache.PrefixesApart` | vt/tabletserver/rowcache.go:40-43 | Caches of different tables never use the same memcached key |
| `CacheKey.PkValuesToStrings` | proxy/conn_query.go:282-317 | The keys composed by the loop, and exactly when it stops the process |
| `CacheKey.OneKey` | proxy/conn_query.go:286-297 | One literal per primary-key column gives exactly one key |
| `CacheKey.ListKey` | proxy/conn_query.go:282-317 | For any number of columns, literals and lists collapse to one key, that of all their texts in order |
| `CacheKey.ListNamesRowIff` | proxy/conn_query.go:298-310 | The key made of safe plan values is a row's key if and only if all their texts, in order, are the texts of that row |
| `CacheKey.SplitKeyIff` | proxy/conn_query.go:290-296 | A row can be read back from its key if and only if no component has a space, a double dash, or a dash at its end |
| `CacheKey.KeyInjective` | proxy/conn_query.go:290-296 | Rows with such components have different keys when they differ |
| `CacheKey.Collisions` | proxy/conn_query.go:290-296 | Each of the three conditions is needed: three colliding pairs |
| `CacheKey.IntegersAreSafe` | proxy/conn_query.go:290-296 | Every normalised integer, negative ones included, is such a component |
| `CacheKey.SafeTableCoherent` | proxy/conn_query.go:377-578 | A table with such keys keeps its cache coherent in every run, however keys hash to locks |
| `Schema.TableInfo.SetPK` | vt/tabletserver/table_info.go:82-108 | The primary index ends up first, agrees with PKColumns, and the other indexes keep their order; an unknown column changes nothing |
| `Schema.AddColumn` | vt/schema/schema.go:145-151 | Appends a column; no cardinality is ever zero |
| `SqlMeaning.LeadingZeroIff` | sqltypes/sqltypes.go:232-247 | A decimal literal with a leading zero, of any length and with or without a minus, means the same to planner and database if and only if it is zeros followed by one digit below eight |
| `SqlMeaning.PlainNumberIff` | sqltypes/sqltypes.go:232-247 | Without a leading zero both read the same number if and only if it fits 64 bits |
| `SqlMeaning.OctalExample` | sqltypes/sqltypes.go:232-247 | 010 is eight to one side and ten to the other |
| `PlanWhere.FlattenKeepsMeaning` | vt/tabletserver/planbuilder/select.go:181-230 | The flattened list of conditions has the truth value of the WHERE tree on every row, in three-valued logic |
| `PlanWhere.FlattenIff` | vt/tabletserver/planbuilder/select.go:181-230 | A WHERE is flattened if and only if it is a conjunction of simple column conditions, in whatever parentheses, with at most one IN |
| `PlanWhere.FlattenShape` | sqlparser/analyzer.go:47-83 | The list is never empty, holds only simple column conditions, and at most one IN |
| `PlanWhere.IndexScore.FindMatch` | vt/tabletserver/planbuilder/index_analysis.go:30-44 | Which column is marked and when matching fails for good |
| `PlanWhere.IndexScore.GetScore` | vt/tabletserver/planbuilder/index_analysis.go:46-59 | No match, a perfect score, or the cardinality of the last of the leading matched columns |
| `PlanWhere.PerfectIff` | vt/tabletserver/planbuilder/index_analysis.go:46-59 | The score is perfect if and only if nothing failed and every column is marked: no cardinality reads as zero |
| `PlanWhere.GetPKValues` | vt/tabletserver/planbuilder/index_analysis.go:69-101 | The extraction loop computes the specified values, no plan, or error |
| `PlanWhere.PkValuesMeaning` | vt/tabletserver/planbuilder/index_analysis.go:69-101 | Values are found if and only if every condition is an = or IN on a primary-key column, converts, and every column is covered; each value is that of the column's last condition |
| `PlanWhere.FailedIff` | vt/tabletserver/planbuilder/index_analysis.go:69-101 | The extraction fails if and only if, after convertible tests of primary-key columns only, such a column is tested against a value that does not convert |
| `PlanWhere.PkTestHolds` | vt/tabletserver/planbuilder/index_analysis.go:69-101 | A condition on a primary-key column depends on nothing else in the row |
| `PlanWhere.PassingRows` | vt/tabletserver/planbuilder/index_analysis.go:84-94 | When the conditions accept the planned key, the rows that pass are exactly the rows with that key |
| `PlanWhere.OneTestPerColumn` | vt/tabletserver/planbuilder/index_analysis.go:84-94 | With one condition per column they accept the planned key if and only if every literal reads alike on both sides |
| `PlanSelect.AnalyzeSelectExprs` | vt/tabletserver/planbuilder/select.go:141-166 | The loop computes the column numbers, or the same early exit |
| `PlanSelect.ProjectionIsSelectList` | vt/tabletserver/planbuilder/select.go:141-166 | Projecting any row by the column numbers shows exactly what the select list asks for |
| `PlanSelect.ApplyFilter` | proxy/conn_query.go:22-31 | The loop computes the projection |
| `PlanSelect.GenerateSelectSql` | proxy/conn_query.go:350-375 | The text of the keyed statement; an error exactly on a length mismatch, a failed type assertion exactly when some value is not a literal |
| `KeyedRead.LookupReads` | proxy/conn_query.go:350-375 | Read by SqlReader, the text of the keyed statement is: all columns of the table, where each primary-key column equals its literal, joined by AND; it cannot be read exactly when a column is called not |
| `KeyedRead.SentTextIff` | proxy/conn_query.go:350-375 | Stated on what is read from the text that is sent: with plain names the cached path answers every table content as the database would if and only if it has a literal for every primary-key column, the WHERE accepts their key and the LIMIT lets a row through; and where the plan itself is right, the text is right if and only if no primary-key column is called not or null |
| `KeyedRead.NullKeyIsLost` | proxy/conn_query.go:356-372 | On a table whose key is called null the planned row is never found: the name is written bare |
| `PlanSelect.NumberReadsBack` | sqltypes/sqltypes.go:249-257 | A normalised number written into SQL reads back as itself |
| `PlanSelect.KeyTestsSelect` | proxy/conn_query.go:356-372 | The keyed statement selects exactly the rows whose primary key is the planned one |
| `PlanSelect.CachedIff` | vt/tabletserver/planbuilder/select.go:14-105 | For every keyed plan, the cached path answers every table content as the database would if and only if it has a literal for every primary-key column, the WHERE accepts the key they make, and the LIMIT lets a row through |
| `PlanSelect.LookupIff` | vt/tabletserver/planbuilder/select.go:14-105 | A SELECT is planned as a lookup if and only if it is on one read-write cached table, has no DISTINCT, grouping, HAVING, order, offset, lock or bind variable in its list, known columns and stars only, an acceptable row count, and a WHERE that tests the primary key, all of it and nothing else |
| `PlanSelect.LimitOkIff` | vt/tabletserver/planbuilder/select.go:91-104 | A number is accepted as a row count if and only if it is not negative and fits 64 bits |
| `PlanSelect.NoFieldQueryIff` | vt/tabletserver/planbuilder/query_gen.go:21-28 | There is no field query if and only if a bind variable is printed in the select list or the FROM clause |
| `PlanSelect.KeyedIsPlain` | vt/tabletserver/planbuilder/select.go:14-105 | Only a SELECT on one read-write cached table, with no DISTINCT, grouping, HAVING, order, offset, lock or bind variable in its list, and with a WHERE covering the primary key, is planned as a lookup |
| `PlanSelect.PlannedSelectIsKept` | vt/tabletserver/planbuilder/select.go:14-105 | From the whole planner: one = per primary-key column, literals that read alike and no LIMIT below one give the same rows as the original SELECT on every table content |
| `PlanSelect.OverwriteDiffers` | vt/tabletserver/planbuilder/index_analysis.go:84-94 | id = 1 and id = 2 is looked up as row two |
| `PlanSelect.OctalDiffers` | sqlparser/analyzer.go:107-112 | id = 010 is looked up as row eight |
| `PlanSelect.LimitZeroDiffers` | vt/tabletserver/planbuilder/select.go:91-104 | LIMIT 0 is answered with a row |
| `PlanSelect.ListFails` | proxy/conn_query.go:350-375 | id in (1, 2) is planned as a lookup and then has no answer |
| `PlanDml.AnalyzeUpdateExpressions` | vt/tabletserver/planbuilder/dml.go:130-150 | The loop computes the assigned primary-key values or the same failure |
| `PlanDml.AssignedMeaning` | vt/tabletserver/planbuilder/dml.go:130-150 | An UPDATE keeps its plan if and only if it assigns only convertible values to primary-key columns |
| `PlanDml.GetInsertPKColumns` | vt/tabletserver/planbuilder/insert.go:146-163 | The loop computes where each primary-key column stands in the column list |
| `PlanDml.GetInsertPKValues` | vt/tabletserver/planbuilder/insert.go:165-199 | The nested loops compute the values, defaults and lists, or the same failure |
| `PlanDml.OnlyDeterminedRuns` | proxy/conn_query.go:527-557 | On a cached table no UPDATE, DELETE or REPLACE bypasses the cache; an UPDATE or DELETE goes to the database only when its WHERE determines the whole primary key; a DELETE is refused if and only if it does not, an UPDATE if and only if it does not or assigns something else than a value to the key |
| `PlanDml.UncachedPasses` | proxy/conn_query.go:541 | On a table that is not cached nothing is locked or invalidated; a DELETE, or an UPDATE that assigns values only, is sent on as it is, unless its WHERE tests the key against a value that does not convert: this is refused |
| `PlanDml.UpdateMovesByValue` | vt/tabletserver/planbuilder/dml.go:38-45 | An UPDATE on a cached table goes to the database only when it assigns nothing but convertible values to primary-key columns |
| `PlanDml.ReplaceListsValues` | vt/tabletserver/planbuilder/insert.go:37-78 | A REPLACE on a cached table goes to the database only as listed rows of values, never as an upsert, with values that can be keyed for every primary-key column, and under the one key that spells them all in column order |
| `PlanDml.GuardedKey` | proxy/conn_query.go:551-556 | With values that can be keyed, lists included, the statement goes on under the lock and tombstone of the one key that spells them all; otherwise the process stops |
| `TouchedRows.TouchedIff` | vt/tabletserver/planbuilder/dml.go:16-105 | Every row the WHERE lets through has the primary key that the guarding key spells if and only if the WHERE accepts no key at all, or the last test of every primary-key column lists a single literal that reads alike on both sides |
| `TouchedRows.OneTestTouchedIff` | vt/tabletserver/planbuilder/dml.go:16-105 | With one test per column: if and only if some IN list is empty, or every test lists a single literal that reads alike |
| `TouchedRows.SafeTouchIff` | proxy/conn_query.go:551-556 | On a table with safe keys that is to touch only rows whose cache key is the guarding key |
| `TouchedRows.AlikeTouchesOnlyKey` | vt/tabletserver/planbuilder/dml.go:49-59 | Tests with single literals that read alike on both sides touch only the guarding key |
| `TouchedRows.OctalDelete` | vt/tabletserver/planbuilder/dml.go:90-100 | delete where id = 010 is guarded by 8-- and deletes row ten |
| `TouchedRows.ListDelete` | proxy/conn_query.go:298-310 | delete where id in (1, 2) is guarded by 1--2-- and deletes row one |
| `TouchedRows.ReplaceIff` | vt/tabletserver/planbuilder/insert.go:16-79 | A REPLACE whose values can be keyed writes only rows with the primary key that the guarding key spells if and only if it has no rows, or it keeps one literal per column (a single row, or the whole key left to the database) and every row writes just that: literals that read alike, and defaults the database fills in as the planner spells them |
| `TouchedRows.LeftOutReplace` | vt/tabletserver/planbuilder/insert.go:165-199 | replace into t (v) values (1) is guarded by the key of an empty text, and a database that fills in a number writes another row |
| `CachedSql.GuardedIsWrite` | proxy/conn_query.go:521-578 | A guarded UPDATE, DELETE or REPLACE that meets that condition does to every table content what one write of the cache protocol does on the primary key whose cache key guards it, or nothing |
| `CachedSql.ExactIff` | proxy/conn_query.go:551-556 | The condition on the statement's text is the property of touching and writing only the guarded key |
| `CachedSql.WriteIsStep` | proxy/conn_query.go:560-578 | One write on a key is the statement step of a client that holds the lock and has written the tombstone |
| `CachedSql.DeleteIsWrite` | proxy/conn_query.go:560-578 | Deleting the rows of one key |
| `CachedSql.UpdateIsWrite` | proxy/conn_query.go:560-578 | Updating the row of one key, which may move it to another; a clash is refused |
| `CachedSql.ReplaceIsWrite` | proxy/conn_query.go:560-578 | Putting rows of one key: the last one stays |
| `Tokenizer.EncodeSql` | sqltypes/sqltypes.go:289-300 | The loop writes the quoted, escaped string |
| `Tokenizer.LiteralRoundTripIff` | sqlparser/token.go:492-520 | Scanning an encoded string gives it back and stops after its closing quote if and only if the next character is not a quote |
| `Tokenizer.ScanEncoded` | sqlparser/token.go:268-369 | The same through the tokenizer: a STRING token equal to the string, and exactly the rest left |
| `Tokenizer.WordExactIff` | sqlparser/token.go:280-300 | A word token is the word that was written if and only if it is not a final x, which reads as xx |
| `Tokenizer.Tokenizer.Next` | sqlparser/token.go:568-576 | Drops one pending character |
| `Tokenizer.Tokenizer.UnReadByte` | sqlparser/token.go:564-566 | The push-back after x |
| `Tokenizer.Tokenizer.ConsumeNext` | sqlparser/token.go:555-562 | Is never reached at end of input |
| `Tokenizer.Tokenizer.ScanIdentifier` | sqlparser/token.go:379-391 | The whole run of identifier characters; a keyword if and only if the table has it |
| `Tokenizer.Tokenizer.ScanLiteralIdentifier` | sqlparser/token.go:393-407 | A back-quoted name; an error exactly when it does not begin with a letter or no quote follows the word |
| `Tokenizer.Tokenizer.ScanBindVar` | sqlparser/token.go:409-427 | One colon makes a value argument, two a list argument, an error exactly without a letter after them; the name is the whole dotted run |
| `Tokenizer.Tokenizer.ScanNumber` | sqlparser/token.go:435-490 | How long the number is, and an error exactly for an integer with a leading zero and a digit that is not octal |
| `Tokenizer.Tokenizer.ScanString` | sqlparser/token.go:492-520 | A string literal up to its closing delimiter |
| `Tokenizer.Tokenizer.ScanHexValue` | sqlparser/token.go:232-266 | The text between the quotes, doubled quotes read as one, or an error at end of input |
| `Tokenizer.Tokenizer.ScanCommentType1` | sqlparser/token.go:522-533 | A comment up to the first newline, included, or to the end |
| `Tokenizer.Tokenizer.ScanCommentType2` | sqlparser/token.go:535-553 | A comment up to its first closing mark; an error exactly when there is none |
| `Tokenizer.Tokenizer.Scan` | sqlparser/token.go:268-369 | From every valid state it ends, keeps validity, every token but the end token strictly reduces what it starts on, push-back included, and each token, operators, punctuation and keywords too, has the type, text and extent that its first characters say |
| `Tokenizer.Tokenizer.Lex` | sqlparser/token.go:205-219 | Skips comments and nothing else, and reads the token after them as Scan does |
| `Tokenizer.Tokenizer.Tokens` | sqlparser/token.go:205-219 | Never more tokens than characters from where the first one starts |
| `Tokenizer.TokensOf` | sqlparser/token.go:205-219 | A statement never has more tokens than characters |
| `TrackedBuffer.Buffer.Myprintf` | sqlparser/tracked_buffer.go:42-92 | The format loop prints text, arguments and child nodes in order and records each bind variable |
| `TrackedBuffer.Buffer.WriteArg` | sqlparser/tracked_buffer.go:95-101 | Records offset and length of the variable just written |
| `TrackedBuffer.Buffer.FormatNode` | sqlparser/ast.go:533-743 | Formatting any tree gives its text and the places of its variables; what the text means is the next rows |
| `ReadBack.OperandReads` | sqlparser/ast.go:653-690 | A printed literal, variable or column, quoted when its name is a keyword, is read back as itself wherever it stands |
| `ReadBack.ItemsRead` | sqlparser/ast.go:285-325 | Printed lists of values, select expressions, assignments and orders are read back item by item |
| `ConditionReadBack.ConditionReadsBack` | sqlparser/ast.go:533-622 | The text of every condition of AND, OR, NOT, parentheses, comparison, IN, LIKE, BETWEEN and IS NULL as the grammar nests them is read back, by a reader that knows precedence and not the printer, as that condition |
| `StatementReadBack.StatementReadsBack` | sqlparser/ast.go:103-224 | The text of every SELECT, UPDATE and DELETE on one table is read back as that statement, every clause in its place |
| `StatementReadBack.SameTextSameStatement` | sqlparser/ast.go:103-224 | Two such statements have the same text if and only if they are the same |
| `StatementReadBack.ImpossibleReadsBack` | vt/tabletserver/planbuilder/query_gen.go:34-37 | The field query of such a SELECT reads as the same columns of the same table where 1 is not 1, and nothing else |
| `TrackedBuffer.LocationsInOrder` | sqlparser/tracked_buffer.go:95-101 | Recorded locations are in bounds, increasing and disjoint, for every tree |
| `TrackedBuffer.GenerateQuery` | sqlparser/parsed_query.go:27-47 | The substitution loop computes the specified text, or ends with the error or the panic of the first variable that has one |
| `TrackedBuffer.TuplesOutcome` | sqlparser/parsed_query.go:92-154 | A tuple list is refused exactly without rows, or with one column and a row of another length; it is indexed out of range exactly with another number of columns and a row that is too short |
| `TupleText.RowsAreText` | sqlparser/parsed_query.go:135-154 | With several columns its text is the printed condition that some row equals the columns: equalities joined by AND in parentheses, joined by OR |
| `TupleText.InIsText` | sqlparser/parsed_query.go:117-133 | With one column it is the printed IN over the rows |
| `TupleText.RowsAreTuples` | sqlparser/parsed_query.go:53-91 | Bound rows of values are written as the tuples that VALUES prints |
| `TrackedBuffer.GeneratedIsFilled` | sqlparser/parsed_query.go:27-100 | For every tree and every way to write its variables, substituting at the recorded offsets gives the tree formatted with each variable replaced by its encoding, or ends as that does |
| `TrackedBuffer.FormatAndGenerate` | sqlparser/tracked_buffer.go:103-105 | The same end to end |
| `BoundText.GeneratedIsBound` | sqlparser/parsed_query.go:27-100 | For every tree, when each variable is given a value or a list of values, the query generated is the printed text of the tree with its variables replaced by those literals and tuples |
| `BoundText.GeneratedReadsBack` | sqlparser/parsed_query.go:27-100 | So the query that is sent is read as the statement with its variables replaced: no string value, whatever its characters, changes the shape of the statement |
| `LengthEncoding.PutLengthEncodedInt` | mysql/util.go:101-118 | Leading byte: never the NULL or error mark, zero only for zero, 0xfe only above 0xffffff |
| `LengthEncoding.IntRoundTrip` | mysql/util.go:66-118 | Every 64-bit integer is read back with its width, whatever follows |
| `LengthEncoding.StringRoundTrip` | mysql/util.go:120-158 | Every string is read back, whatever follows, and reading stops after it |
| `PacketIO.PacketIO.SendChunk` | mysql/packetio.go:68-81 | One header over the four bytes before a chunk; the chunk itself is untouched |
| `PacketIO.PacketIO.WritePacket` | mysql/packetio.go:64-98 | Sends the specified frames although each later header overwrites the tail of the chunk just sent |
| `PacketIO.PacketIO.ReadPacket` | mysql/packetio.go:26-62 | Reads one payload and leaves exactly the bytes after it |
| `PacketIO.ReadFrames` | mysql/packetio.go:26-98 | What the reader makes of any payload and any following bytes |
| `PacketIO.RoundTripIff` | mysql/packetio.go:32-36 | The payload comes back, with both counters equal, if and only if its length is not a multiple of MaxPayloadLen |
| `FieldCodec.Parse` | mysql/field.go:28-118 | The cursor method computes the specified field, error or panic, an end of the default value that wraps around included |
| `FieldCodec.Dump` | mysql/field.go:122-156 | The appended bytes |
| `FieldCodec.ParseDumped` | mysql/field.go:28-156 | Everything but the default value survives, whatever the default value does |
| `FieldCodec.RoundTripIff` | mysql/field.go:101-155 | Dump and Parse are inverse if and only if the default value is absent, or is zero bytes only, at most 250 or exactly 255 of them, with the matching length |
| `FieldCodec.DefaultLost` | mysql/field.go:150-153 | A one-byte default comes back changed |
| `StringRuns.ReadLoop` | mysql/resultset.go:69-83 | The reading loop shared by rows and column names |
| `StringRuns.RunRoundTrip` | mysql/util.go:120-158 | Encoded strings are read back in order, each converted as it is read |
| `RowText.ParseText` | mysql/resultset.go:61-106 | The values of a row, or the first failure |
| `RowText.RowRoundTripIff` | mysql/resultset.go:17-106 | Parsing a built row gives back its values if and only if each value is of its column's kind and its floating-point numbers survive sixteen decimals |
| `RowText.BuildRow` | proxy/conn_resultset.go:44-67 | The inner loop computes the row bytes |
| `RowText.BuildResultset` | proxy/conn_resultset.go:33-71 | The outer loop computes fields and rows, nil fields without rows, or the first failure; what the fields say is ResultStream.ValuesDeliveredIff |
| `RowText.ClientSeesRow` | proxy/conn_resultset.go:33-71 | A single row of the columns' kinds, parsed with the definitions sent along, gives the same values if and only if its floating-point numbers survive sixteen decimals |
| `RowText.BlankFieldIff` | proxy/conn_resultset.go:46-62 | After the first row a value is still written as it should be if and only if it is NULL or a byte string |
| `RowText.LaterRowIff` | proxy/conn_resultset.go:46-62 | A later row reaches the client as itself if and only if it holds no number; otherwise it cannot be parsed |
| `RowText.SecondRowLost` | proxy/conn_resultset.go:46-62 | In every two-row result with an integer column the second row is an empty string that the client cannot parse |
| `RowText.HitEqualsFillIff` | proxy/conn_query.go:327-346 | A hit sends, for every stored row and every choice of columns, what the fill sent if and only if server and schema column classes agree; and so for the decoded values |
| `RowText.AnswersDiffer` | proxy/conn_query.go:400-415 | Where the classes differ a stored 1 is not sent alike; in a column of numbers the fill cannot send it |
| `RowText.SignsDiffer` | vt/tabletserver/rowcache.go:124-141 | An INT that is signed in the schema and unsigned on the server: the hit answers, the fill fails |
| `ResultStream.Writer.WriteResultset` | proxy/conn_resultset.go:73-108 | Sends the packets of the result set in order |
| `ResultStream.EofPacket` | proxy/conn.go:322-333 | Length and header of an EOF packet |
| `ResultStream.ResultReader.ReadColumns` | mysql/conn.go:482-516 | Collects definitions up to their EOF, or ends as specified |
| `ResultStream.ResultReader.ReadRows` | mysql/conn.go:518-541 | Collects rows up to their EOF, or ends as specified |
| `ResultStream.ResultReader.ReadValues` | mysql/conn.go:543-554 | Parses all rows, or ends with the first that does not parse |
| `ResultStream.ResultReader.ReadResult` | mysql/conn.go:640-655 | Interprets exactly the packets of the stream |
| `ResultStream.StreamRoundTrip` | mysql/packetio.go:26-98 | Any packets of admissible lengths are read back in order and the stream after them is untouched |
| `ResultStream.RowNotEof` | mysql/conn.go:573-575 | No row that can be built is taken for an EOF packet |
| `ResultStream.DumpNotEof` | mysql/conn.go:573-575 | No column definition is taken for an EOF packet |
| `ResultStream.CountRead` | mysql/conn.go:646-652 | The column count is never taken for OK, ERR or a file request, and is read back |
| `ResultStream.PacketsDelivered` | mysql/conn.go:452-554 | The packets of a result set with at least one column are interpreted as that result set: definitions and row bytes in order |
| `ResultStream.StreamDelivered` | proxy/conn_resultset.go:73-108 | The same through the byte stream, whatever follows |
| `ResultStream.BuiltDeliveredIff` | proxy/conn_resultset.go:33-108 | A result set built by the proxy arrives whole, values included, if and only if the first row's floating-point numbers survive and no later row holds a number |
| `ResultStream.ValuesDeliveredIff` | proxy/conn_resultset.go:33-108 | The same from values through the byte stream to values, whatever follows; and each column definition the client gets carries the column's name, type and character set, and of a number in the first row that it is one and whether it is unsigned |
| `StmtCodec.Write` | mysql/stmt.go:46-166 | The packet, and exactly when it is refused |
| `StmtCodec.NullBitmap` | mysql/stmt.go:56-68 | The NULL bits set by the argument loop |
| `StmtCodec.BitmapBits` | mysql/stmt.go:64-66 | A bit is set exactly for the arguments that are NULL |
| `StmtCodec.ArgRoundTrip` | proxy/conn_stmt.go:51-155 | Each argument is read back widened and its bytes are consumed exactly, whatever follows |
| `StmtCodec.ExecuteRoundTrip` | mysql/stmt.go:134-161 | A sent packet, cut by the protocol's offsets and bound, gives back the statement's number and every argument widened, and leaves whatever follows |
| `StmtCodec.SentIsExecute` | mysql/stmt.go:135-144 | Every sent packet carries the protocol's command, no cursor and one execution |
| `StmtCodec.Stmt.BindStmtArgs` | proxy/conn_stmt.go:35-159 | Arguments are written in place; on failure those already read stay |
| `StmtCodec.BindRoundTrip` | proxy/conn_stmt.go:35-159 | For every list of supported arguments and NULLs, binding gives the arguments back widened and consumes the value bytes exactly |
| `Pool.StepKeepsInv` | mysql/db.go:83-131 | Every atomic step of any call of PopConn or PushConn keeps the invariant |
| `Pool.RunIsSound` | mysql/db.go:83-131 | In every interleaving the counter plus pending increments less pending decrements is the number of idle and checked-out connections (in 32 bits), the list keeps its bound, and no connection is idle and checked out, or idle twice |
| `Pool.QuietCount` | mysql/db.go:70-72 | With no call in progress the counter is exact |
| `Pool.PopQuiet` | mysql/db.go:83-103 | The steps of a whole PopConn keep the invariant and leave no call in progress |
| `Pool.PushQuiet` | mysql/db.go:105-131 | The same for PushConn |
| `Pool.DB.PopConn` | mysql/db.go:83-103 | Takes the oldest idle connection, or counts a new one; list and counter are those of its steps run one after the other |
| `Pool.DB.PushConn` | mysql/db.go:105-131 | Conserves connections: the newest stays, at most the oldest goes, and is counted off; list and counter are those of its steps run one after the other |
| `Pool.SqlConn.Close` | mysql/db.go:142-147 | Pushes the first time and does nothing after that |
| `Session.RunKeepsInv` | proxy/conn_tx.go:16-79 | In every run connections are kept only while a transaction needs them; each kept one was begun once and neither ended nor given back; each other was given back once, after exactly one commit or rollback if begun; one transaction uses one connection per shard |
| `Session.StatusKept` | proxy/conn_tx.go:77-79 | No command leaves kept connections outside a transaction |
| `Session.LivesKept` | proxy/conn_tx.go:41-71 | Every command keeps the account of every connection |
| `Session.RunsKept` | proxy/conn_query.go:95-130 | Every command keeps one connection per shard and transaction |
| `Session.CloseSettles` | proxy/conn.go:71-76 | After Close of a run without a failure part-way every connection ever taken has been given back exactly once, the kept ones after a rollback; closing again does nothing |
| `Session.SettledIff` | proxy/conn.go:71-76 | Over whole runs: after Close every connection ever taken has been given back, and ended if begun, if and only if no getConn of the run failed part-way |
| `Session.EndsAsAsked` | proxy/conn_tx.go:41-71 | COMMIT commits and ROLLBACK rolls back: every connection the transaction keeps is ended once, as asked, and given back, and the account of every other connection stays as it was |
| `Session.TransactionEnds` | proxy/conn_tx.go:24-38 | Over whole runs: a connection that is kept when a COMMIT runs has been committed, once and for good; one that is kept when a ROLLBACK runs has been rolled back |
| `Session.DoneStays` | proxy/conn_query.go:95-130 | No command changes the account of a connection that no transaction keeps: what was given back stays so, and a lost one is never given back |
| `Session.LosesIff` | proxy/conn_query.go:95-130 | In any state, a statement loses the connection it takes if and only if set-up fails outside a transaction or BEGIN fails inside one |
| `Session.FirstStatementLoses` | proxy/conn_query.go:121-127 | The very first statement can lose its connection |
| `Session.Begun` | proxy/conn_tx.go:18 | Sets the transaction bit and keeps every other bit of the status |
| `Session.Conn.HandleBegin` | proxy/conn_tx.go:16-21 | Begin as specified |
| `Session.Conn.HandleSetAutoCommit` | proxy/conn_set.go:35-55 | The first character decides; turning autocommit on changes nothing |
| `Session.Conn.GetConn` | proxy/conn_query.go:95-130 | State and result as specified, failures included |
| `Session.Conn.CloseShardConns` | proxy/conn_query.go:189-197 | Gives back all connections, or none inside a transaction |
| `Session.Conn.Execute` | proxy/conn_query.go:560-577 | A statement as specified |
| `Session.Conn.EndTransaction` | proxy/conn_tx.go:41-71 | The map loop ends and gives back each connection once, by commit or rollback as asked, in whatever order the map is walked |
| `Session.Conn.Close` | proxy/conn.go:71-76 | Close as specified |
| `Reload.StepKeepsInv` | proxy/server.go:270-311 | Every step of any session or reload keeps the invariant |
| `Reload.NeverStale` | proxy/server.go:339-360 | In every interleaving no session uses a connection from a pool a reload has closed, or gives one back to it, and a reload that goes through finds no session keeping one |
| `Reload.SwapFinds` | proxy/conn.go:170-226 | When every client has been checked no session keeps or holds a connection, sessions ending without the lock included |
| `Sharding.SplitJoin` | router/key.go:181 | Splitting a spec loses nothing |
| `Sharding.ParseNumParts` | router/numkey.go:41-76 | Accepts exactly the parts that are numbers in increasing order, open only at the ends, and gives their ranges |
| `Sharding.ParseNumShardingSpec` | router/numkey.go:36-77 | The same from the spec |
| `Sharding.NumPartition` | router/numkey.go:24-77 | A key is within the limits of an accepted spec if and only if it is in a range, and then in exactly one; an open spec covers every key |
| `Sharding.KeyCarriers` | router/shard.go:63-86 | Every 64-bit number is the same key as a signed value, as the unsigned value with the same bits and written out in decimal |
| `Sharding.FindNum` | router/shard.go:110-118 | In chained ranges, the one range that holds the key, and there is one exactly when the key is within the limits; a panic exactly when there is none or the key is a text that is no number |
| `Sharding.KeyRangesOverlap` | router/key.go:155-174 | The overlap, or an error exactly when the ranges do not intersect |
| `Sharding.OverlapIsBoth` | router/key.go:148-174 | A key is in the overlap if and only if it is in both ranges; ranges that do not intersect have no common key |
| `Sharding.BigEndianOrder` | router/key.go:40-49 | Uint64Key keeps the numeric order |
| `Sharding.HexOrder` | router/key.go:55-61 | Lower-cased hexadecimal texts compare as the bytes they stand for |
| `Sharding.ParseParts` | router/key.go:185-206 | Accepts exactly hexadecimal limits in increasing text order, open only at the ends, and gives their ranges |
| `Sharding.ParseShardingSpec` | router/key.go:180-207 | The same from the spec |
| `Sharding.KeyPartition` | router/key.go:116-118 | In chained ranges a key is within the limits if and only if it is in a range, and then in exactly one |
| `Sharding.SpecIff` | router/key.go:188-205 | An accepted spec is a partition, every range holding some key, if and only if its limits increase with letter case ignored |
| `Sharding.OneCaseSpec` | router/key.go:192-194 | Specs in one letter case are partitions: their ranges are chained |
| `Sharding.MixedCase` | router/key.go:192-194 | B0-a0 is accepted and is no partition |
| `Sharding.NumbersInOrder` | router/shard.go:30-43 | Encoded numbers compare as unsigned numbers, so a negative key lies above the others |
| `Sharding.FindForKey` | router/shard.go:133-141 | In chained ranges, the one range that holds the encoded key, and there is one exactly when the key is within the limits; a panic exactly when there is none |

## Left out

- The parser tables (sqlparser/sql.y, sqlparser/sql.go): models start from syntax trees. `SqlReader` is a reader of its own for the fragment the read-back theorems cover; it has no table of keywords, so a bare word is a name to it unless a clause needs that word there.
- StatementReadBack.StatementReadsBack: covers SELECT, UPDATE and DELETE on one table without comments and index hints, whose expressions are operands; joins, subqueries, arithmetic, function calls, CASE, EXISTS, tuples on the left of a comparison, INSERT, REPLACE, SET and UNION are printed by the model and not read back.
- ReadBack.ItemsRead: an alias, and the table before a star, are printed bare, so they are read back when they are words and no keywords.
- Sockets, buffered input and output, memcached itself, the lock ring's hashing, the arena allocator and the resource pool: only mutual exclusion, the meaning of `add`, and bytes arriving in order are used.
- Type coercion and collation: values compare by exact equality, so a string literal against an integer column, or case-insensitive text keys, are outside the planner theorems.
- Transactions of several statements in the coherence theorem: they depend on tombstone expiry and on the isolation level of the database.
- Tables of type CACHE_W, and writes of several keys (IN lists, several rows), in the coherence theorem: `TouchedRows` shows that the code invalidates one composite key for all their rows.
- Which value the database puts into a column that a REPLACE leaves to it: it depends on its mode, so it is a parameter of the statements about it.
- Dates and the binary row format: they depend on library formatting.
- Which decimals stand for which floating-point number: `RowText` takes any reader and writer of such texts, knowing only that the empty text is no number, 1 is one, and a written number is neither empty nor long.
- Column aliases: the cached path names result columns after the table's columns.
- Plans that never read the cache (subquery plans, covering indexes): they are one case, PassSelect, here.
- More than one shard per statement: getShardList returns at most the first.
- Handshake, passwords, error and character-set tables, statistics, configuration and command-line programs: constant tables, library calls or plumbing.
- limitSelectResult: its only call is commented out.
- RowCacheProtocol.CoherentIff: a REPLACE writes the row of its own primary key only, so the primary key is taken to be the only unique key of the table; and the statement of a call that failed is taken never to run later.
- PlanSelect.KeyTestsSelect: speaks of the conditions the generated text spells; what that text reads as is `KeyedRead.SentTextIff`, for tables and columns whose names are words.
- ResultStream.ValuesDeliveredIff: its packets are of lengths that come back, by `PacketIO.RoundTripIff`.
- StmtCodec.ExecuteRoundTrip: the proxy refuses COM_STMT_EXECUTE, so the cut is made by the offsets of the MySQL protocol that the sender follows, not by code of the proxy.
- Session.RunKeepsInv: a transaction's statements are on one shard each, as the code issues them.
- Pool.RunIsSound: a call in progress is known by the connection in its hands, not by a thread number; DB.Close is not part of it.
