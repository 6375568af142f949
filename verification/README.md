# liquibase-auto-rollback, modelled in Dafny

This project models the core of liquibase-auto-rollback: the
compensating-statement ledger (the `DATABASECHANGELOGRB` table) and the two
drivers that fill and drain it.

- **Precomputation** (`persistRollbackStatements`). Before the migration
  engine applies the changesets it has not run yet, the driver derives the SQL
  that would undo each one. It stores that SQL in the ledger under the key
  `(changeset id, checksum)`, numbered by statement order.
- **Drift reversal** (`rollbackUnexpectedChangeSets`). Some changesets are
  recorded as applied but are no longer in the changelog. The driver visits
  them most recently executed first. For each one it looks up the stored
  statements by the exact key, replays them in order, deletes the changeset's
  changelog row and its ledger rows, and commits.
- **The entry point** (`customize`). It creates the ledger table (with its
  unique index on `(CHANGELOGID, CHANGELOGCHKSUM, ROLLBACKSTMTORDER)`) if the
  table is missing, then runs reversal, then precomputation.
- **The SELECT statement and its SQL generator.** Reversal uses them to read
  the ledger.

The whole database is one immutable value `Ledger.Db`. It holds:

- whether the ledger table exists;
- the ledger rows, in insertion order (the order of the auto-incremented
  surrogate `ID`);
- the changelog rows;
- the trace of compensating statements executed against the target schema.

A driver either returns `Completed(db)` or `Aborted(failure, committed,
uncommitted)`. A commit is a snapshot point. When a run aborts, `committed` is
the state as of the last commit, and `uncommitted` holds the statements that
ran after that commit. The inputs from the migration engine are plain values
(`Changesets.UnrunChangeSet`, `Changesets.UnexpectedChangeSet`). These are the
changeset lists, checksums, and the SQL its generator produces for each
change. Whether replaying a statement fails is a parameter `fails`. Identifier
escaping and placeholder substitution belong to the database dialect and are
the parameter `SelectGenerator.Database`.

The modules follow the program:

| module | file | models |
|---|---|---|
| `Common` | common.dfy | `Option` (Java `null`), reversal, flattening, ASCII lower-casing |
| `Sorting` | sorting.dfy | a stable sort on an integer key (`ORDER BY`, `Comparator.comparingInt(...).reversed()`) |
| `SelectStatements` | select_statement.dfy | `SelectStatement`: constructor, getters, builders |
| `SelectGenerator` | select_generator.dfy | `SelectGenerator.validate`, `generateSql`, `getAffectedTable` |
| `Ledger` | ledger.dfy | table creation, insert, lookup, deletes, the unique index |
| `Changesets` | changesets.dfy | the engine's changesets and the derived rollback |
| `Customizer` | customizer.dfy | both drivers, `customize`, the lookup query |
| `Findings` | findings.dfy | two ways the index refuses the driver's inserts, and corrected storage |

## Behaviour worth knowing

Line numbers in this section refer to `LiquibaseRollbackCustomizer.java`.

- **Order of calls.** `customize` runs reversal before precomputation (lines
  68-70). As a result, a run replays only rows stored by earlier runs
  (`Customizer.CustomizeReplaysOnlyEarlierRows`).
- **Missing checksum.** An unexpected changeset without a checksum is not
  skipped. Line 122 only logs, and line 132 then dereferences the null
  checksum, so the whole run aborts (`Failure.MissingChecksum`).
- **Replay failure.** A failing replay statement ends the whole run, not just
  that changeset. The `RuntimeException` thrown at line 141 is not caught. Any
  changeset already committed stays committed (`Customizer.AbortKeepsEarlierCommits`).
- **Precomputation commit.** Precomputation commits once, after every unrun
  changeset (line 210). An insert the unique index refuses therefore aborts the
  run with nothing of the precomputation committed.
- **Custom rollback numbering.** Each custom rollback change is inserted by its
  own call, and each call numbers from 1 (lines 186-189 and 228). The unique
  index over `(CHANGELOGID, CHANGELOGCHKSUM, ROLLBACKSTMTORDER)` (lines 98-102)
  then refuses the second row numbered 1 under the same key. See Findings.

## Model

| member | source | states |
|---|---|---|
| `Common.Reverse` | src/main/java/com/whisperinggarden/lar/LiquibaseRollbackCustomizer.java:191-192 | the copy reversed by `Collections.reverse`: same length, element i is element n-1-i of the input |
| `Common.ReverseAppend` | src/main/java/com/whisperinggarden/lar/LiquibaseRollbackCustomizer.java:191-192 | reversing `a + b` gives the reverse of `b` followed by the reverse of `a` |
| `Common.FlattenAppend` | src/main/java/com/whisperinggarden/lar/LiquibaseRollbackCustomizer.java:193-205 | `flatMap` over a concatenation is the concatenation of the two `flatMap`s |
| `Sorting.InsertByKey` | src/main/java/com/whisperinggarden/lar/LiquibaseRollbackCustomizer.java:119 | inserting into a key-sorted list keeps it sorted, and the result holds exactly the old elements plus the new one |
| `Sorting.SortByKey` | src/main/java/com/whisperinggarden/lar/LiquibaseRollbackCustomizer.java:119 | the stream sort: the result is sorted by the key and is a permutation of the input |
| `Sorting.SortSortedIsIdentity` | src/main/java/com/whisperinggarden/lar/LiquibaseRollbackCustomizer.java:133 | a list already in key order comes back unchanged from the sort |
| `SelectStatements.NewSelectStatement` | src/main/java/com/whisperinggarden/lar/SelectStatement.java:26-40 | the constructor keeps catalog, schema and table names as given; the three lists start empty; `where` and `orderBy` start null |
| `SelectStatements.AddColumnsToSelect` | src/main/java/com/whisperinggarden/lar/SelectStatement.java:42-45 | the names are appended after the existing columns, in order; every other field is unchanged |
| `SelectStatements.SetWhere` | src/main/java/com/whisperinggarden/lar/SelectStatement.java:47-50 | `where` becomes the value given; every other field is unchanged |
| `SelectStatements.AddWhereColumnNames` | src/main/java/com/whisperinggarden/lar/SelectStatement.java:52-55 | the names are appended after the existing WHERE column names; every other field is unchanged |
| `SelectStatements.AddWhereParameters` | src/main/java/com/whisperinggarden/lar/SelectStatement.java:57-60 | the parameters are appended after the existing ones; every other field is unchanged |
| `SelectStatements.SetOrderBy` | src/main/java/com/whisperinggarden/lar/SelectStatement.java:62-65 | `orderBy` becomes the value given; every other field is unchanged |
| `SelectStatements.AddColumnsToSelectTwice` | src/main/java/com/whisperinggarden/lar/SelectStatement.java:42-45 | two `addColumnsToSelect` calls equal one call with both argument lists concatenated |
| `SelectStatements.AddWhereColumnNamesTwice` | src/main/java/com/whisperinggarden/lar/SelectStatement.java:52-55 | two `addWhereColumnNames` calls equal one call with both lists concatenated |
| `SelectStatements.AddWhereParametersTwice` | src/main/java/com/whisperinggarden/lar/SelectStatement.java:57-60 | two `addWhereParameters` calls equal one call with both lists concatenated |
| `SelectStatements.SetWhereTwice` | src/main/java/com/whisperinggarden/lar/SelectStatement.java:47-50 | the setter overwrites: after two `setWhere` calls only the last value remains |
| `SelectStatements.SetOrderByTwice` | src/main/java/com/whisperinggarden/lar/SelectStatement.java:62-65 | after two `setOrderBy` calls only the last value remains |
| `SelectStatements.BuildersOnDistinctFieldsCommute` | src/main/java/com/whisperinggarden/lar/SelectStatement.java:42-65 | any two builder calls on different fields commute (all ten pairs of the five builders), so in a chain only the order of calls on the same field matters |
| `SelectStatements.ChainedBuilderReadsBack` | src/test/java/com/whisperinggarden/lar/SelectStatementTests.java:27-42 | the chain of the builder test reads back the table, the one column, `where`, the WHERE column, the parameter 123 and `orderBy` |
| `SelectGenerator.Validate` | src/main/java/com/whisperinggarden/lar/SelectGenerator.java:19-34 | each of the four messages is reported exactly when its condition holds (null table name; empty column list; WHERE columns or parameters without `where`); nothing else is reported; no errors exactly when the statement is well formed |
| `SelectGenerator.GenerateSql` | src/main/java/com/whisperinggarden/lar/SelectGenerator.java:37-61 | the `StringBuilder` loop produces one SQL whose text is the reference `SelectText` (escaped columns joined by `, `, escaped table, then the WHERE and ORDER BY clauses when set) and whose affected table is the statement's table |
| `SelectGenerator.BareHeadIffNoClauses` | src/main/java/com/whisperinggarden/lar/SelectGenerator.java:51-58 | the text is just `SELECT … FROM …` exactly when neither `where` nor `orderBy` is set |
| `SelectGenerator.SetOrderByAppendsClause` | src/main/java/com/whisperinggarden/lar/SelectGenerator.java:56-58 | setting `orderBy` on a statement without one appends exactly ` ORDER BY <escaped column>` |
| `SelectGenerator.SetWhereInsertsBeforeOrderBy` | src/main/java/com/whisperinggarden/lar/SelectGenerator.java:51-54 | setting `where` inserts ` WHERE <substituted predicate>` between the head and any ORDER BY clause |
| `SelectGenerator.AddColumnExtendsSelectList` | src/main/java/com/whisperinggarden/lar/SelectGenerator.java:44-47 | adding a column to a non-empty list extends the select list by `, <escaped column>` and changes nothing else |
| `SelectGenerator.JoinThree` | src/main/java/com/whisperinggarden/lar/SelectGenerator.java:45-47 | `Collectors.joining` of three parts puts the separator between neighbours only |
| `SelectGenerator.ThreeColumnQuery` | src/main/java/com/whisperinggarden/lar/SelectGenerator.java:44-58 | for any three columns, schema, table, predicate and ordering column, under an engine that qualifies the table by schema, the text is `SELECT c1, c2, c3 FROM schema.table WHERE … ORDER BY …` |
| `SelectGenerator.GeneratorTestStatement` | src/test/java/com/whisperinggarden/lar/SelectGeneratorTests.java:54-59 | the generator test's builder chain yields the expected statement value |
| `SelectGenerator.GeneratorTestStatementValidates` | src/main/java/com/whisperinggarden/lar/SelectGenerator.java:19-34 | the generator test's statement passes validation |
| `SelectGenerator.GeneratorTestQuery` | src/test/java/com/whisperinggarden/lar/SelectGeneratorTests.java:52-70 | the generator test's statement renders to `SELECT col1, col2, col3 FROM PUBLIC.DBRB WHERE … ORDER BY stmt_order`, up to the dialect's placeholder substitution |
| `Ledger.CreateRollbackTable` | src/main/java/com/whisperinggarden/lar/LiquibaseRollbackCustomizer.java:75-108 | afterwards the table exists; an existing table is left as it is; a new table is empty; the changelog and the executed trace do not change |
| `Ledger.CreateRollbackTableIdempotent` | src/main/java/com/whisperinggarden/lar/LiquibaseRollbackCustomizer.java:77-79 | creating the table a second time changes nothing |
| `Ledger.InsertFrom` | src/main/java/com/whisperinggarden/lar/LiquibaseRollbackCustomizer.java:228-241 | the row-by-row insert loop, counter starting at `order`, appends exactly the statements numbered `order, order+1, …` behind the existing rows |
| `Ledger.InsertRollbackStatements` | src/main/java/com/whisperinggarden/lar/LiquibaseRollbackCustomizer.java:224-242 | one row is appended per statement; the k-th row carries the key, the k-th statement and order k+1; the old rows are kept as they were |
| `Ledger.Matching` | src/main/java/com/whisperinggarden/lar/LiquibaseRollbackCustomizer.java:127-133 | `WHERE CHANGELOGID = id AND CHANGELOGCHKSUM = checksum`: a row is selected exactly when it is in the table under that exact key |
| `Ledger.MatchingAppend` | src/main/java/com/whisperinggarden/lar/LiquibaseRollbackCustomizer.java:127-133 | selecting by key from a concatenation selects from each part, in order |
| `Ledger.OrderedRows` | src/main/java/com/whisperinggarden/lar/LiquibaseRollbackCustomizer.java:127-133 | `ORDER BY ROLLBACKSTMTORDER`: the key's rows in ascending statement order, a permutation of the selected rows |
| `Ledger.FetchRollbackStatements` | src/main/java/com/whisperinggarden/lar/LiquibaseRollbackCustomizer.java:127-139 | the texts, in order, of the key's rows sorted by ascending statement order: each row under that exact `(id, checksum)` contributes its text once, rows of another checksum never appear, and a text is returned exactly when such a row holds it |
| `Ledger.FetchNumbered` | src/main/java/com/whisperinggarden/lar/LiquibaseRollbackCustomizer.java:127-133 | a key whose rows are exactly one batch numbered from `order` reads back that batch's statements in order |
| `Ledger.FetchAfterInsert` | src/main/java/com/whisperinggarden/lar/LiquibaseRollbackCustomizer.java:224-242 | round trip: inserting statements under a key with no rows and reading the key back returns exactly those statements, in the same order |
| `Ledger.DeleteRollbackRowsMembers` | src/main/java/com/whisperinggarden/lar/LiquibaseRollbackCustomizer.java:153-159 | after the ledger delete a row remains exactly when it was there and is not under the key; as many rows go as the key had |
| `Ledger.DeleteRollbackRowsFrame` | src/main/java/com/whisperinggarden/lar/LiquibaseRollbackCustomizer.java:153-159 | after the delete the key has no rows, and every other key has exactly the rows it had, in the same order |
| `Ledger.DeleteRollbackRowsAppend` | src/main/java/com/whisperinggarden/lar/LiquibaseRollbackCustomizer.java:153-159 | deleting a key from a concatenation deletes it from each part |
| `Ledger.DeleteRollbackRowsExact` | src/main/java/com/whisperinggarden/lar/LiquibaseRollbackCustomizer.java:153-159 | a table without the key is left as it is; a table with only that key is emptied |
| `Ledger.DeleteChangelogRows` | src/main/java/com/whisperinggarden/lar/LiquibaseRollbackCustomizer.java:145-151 | a changelog row remains exactly when it was there and does not match both ID and MD5SUM |
| `Ledger.FitsIndexSplit` | src/main/java/com/whisperinggarden/lar/LiquibaseRollbackCustomizer.java:98-102 | rows appended in two steps pass the unique index exactly when each step passes |
| `Ledger.SlotsUniqueCons` | src/main/java/com/whisperinggarden/lar/LiquibaseRollbackCustomizer.java:98-102 | a table with one more row in front satisfies the index exactly when the rest does and the new row clashes with none |
| `Ledger.DeleteRollbackRowsKeepsSlotsUnique` | src/main/java/com/whisperinggarden/lar/LiquibaseRollbackCustomizer.java:153-159 | the ledger delete keeps the unique index invariant |
| `Ledger.InsertFitsIndex` | src/main/java/com/whisperinggarden/lar/LiquibaseRollbackCustomizer.java:228-236 | one insert batch, numbered from 1, under a key with no rows passes the unique index |
| `Changesets.DropRawSql` | src/main/java/com/whisperinggarden/lar/LiquibaseRollbackCustomizer.java:194 | a change survives the filter exactly when it is not raw SQL |
| `Changesets.DropRawSqlAppend` | src/main/java/com/whisperinggarden/lar/LiquibaseRollbackCustomizer.java:194 | the filter distributes over concatenation, keeping order |
| `Changesets.DeriveRollbackAppend` | src/main/java/com/whisperinggarden/lar/LiquibaseRollbackCustomizer.java:191-205 | later changes are undone first: the derived rollback of `a + b` is that of `b` followed by that of `a` |
| `Changesets.DeriveRollbackSingle` | src/main/java/com/whisperinggarden/lar/LiquibaseRollbackCustomizer.java:195-204 | one change contributes exactly its own rollback SQL (nothing for raw SQL or an impossible rollback) |
| `Changesets.DeriveRollbackIsLastFirst` | src/main/java/com/whisperinggarden/lar/LiquibaseRollbackCustomizer.java:191-205 | the stream pipeline equals the reference "undo the last change, then the rest" |
| `Changesets.DeriveRollbackMembership` | src/main/java/com/whisperinggarden/lar/LiquibaseRollbackCustomizer.java:193-205 | a statement is derived exactly when some reversible change generates it |
| `Changesets.DeriveRollbackCount` | src/main/java/com/whisperinggarden/lar/LiquibaseRollbackCustomizer.java:199-203 | partial reversibility: when each reversible change generates one statement, one statement is stored per reversible change and the rest are skipped |
| `Changesets.TwoChangesUndoneInReverse` | src/main/java/com/whisperinggarden/lar/LiquibaseRollbackCustomizer.java:191-192 | forward changes `[add A, add B]` are undone as `[drop B, drop A]` |
| `Changesets.SqlFileTestIgnoresCase` | src/main/java/com/whisperinggarden/lar/LiquibaseRollbackCustomizer.java:190 | the `.sql` file test ignores case (`.SQL`, `.Sql` match; `.yaml` does not) |
| `Customizer.InsertEachRollbackChange` | src/main/java/com/whisperinggarden/lar/LiquibaseRollbackCustomizer.java:186-189 | a custom rollback is stored one insert call per rollback change, in declared order, each change numbered from 1 |
| `Customizer.RestartNumberedShape` | src/main/java/com/whisperinggarden/lar/LiquibaseRollbackCustomizer.java:186-189 | the rows of a custom rollback carry its statements in declared order, all under the changeset's key |
| `Customizer.PersistChangeSet` | src/main/java/com/whisperinggarden/lar/LiquibaseRollbackCustomizer.java:184-208 | rows are only appended, all under the changeset's key; their texts are the changeset's compensation (custom rollback, nothing for a `.sql` file, or the derived rollback); a derived rollback is numbered 1..n |
| `Customizer.Precompute` | src/main/java/com/whisperinggarden/lar/LiquibaseRollbackCustomizer.java:181-209 | the old rows are kept in front, and the appended texts are the compensations of the unrun changesets in plan order |
| `Customizer.PersistChangeSetShift` | src/main/java/com/whisperinggarden/lar/LiquibaseRollbackCustomizer.java:184-208 | the rows a changeset stores do not depend on the rows already in the table: they are appended unchanged |
| `Customizer.PrecomputeIsPlanRows` | src/main/java/com/whisperinggarden/lar/LiquibaseRollbackCustomizer.java:181-209 | precomputation appends, changeset by changeset in plan order, exactly the rows each changeset stores on its own, under its own key and with its own numbering |
| `Customizer.PrecomputeStep` | src/main/java/com/whisperinggarden/lar/LiquibaseRollbackCustomizer.java:181-210 | the inserts of all changesets pass the index exactly when the first changeset's pass and the rest's pass after them |
| `Customizer.PrecomputeKeys` | src/main/java/com/whisperinggarden/lar/LiquibaseRollbackCustomizer.java:181-209 | every row precomputation appends is keyed by one of the unrun changesets |
| `Customizer.PersistAll` | src/main/java/com/whisperinggarden/lar/LiquibaseRollbackCustomizer.java:181-210 | the inserts all pass exactly when the appended rows fit the unique index, and then the table is the precomputed one; otherwise the refused changeset is one of the list |
| `Customizer.FirstFailing` | src/main/java/com/whisperinggarden/lar/LiquibaseRollbackCustomizer.java:135-143 | replay stops at the first statement that fails: every earlier one succeeds |
| `Customizer.ReverseChangeSet` | src/main/java/com/whisperinggarden/lar/LiquibaseRollbackCustomizer.java:120-168 | one unexpected changeset completes exactly when it has a checksum and none of its stored statements fails; a null checksum aborts with `MissingChecksum`; with a checksum, an abort is always `ReplayFailed`, and it names the first failing statement; the statements run before it all succeed, form the prefix before it, and no commit covers them; an abort keeps the state of the last commit; with no rows nothing changes; otherwise its statements run in order, and its changelog row and ledger rows are deleted |
| `Customizer.AbortKeepsEarlierCommits` | src/main/java/com/whisperinggarden/lar/LiquibaseRollbackCustomizer.java:161 | per-changeset commits: when reversal aborts at changeset k, the committed state is what completing exactly the changesets before k produces, and visiting changeset k from that state is the abort itself |
| `Customizer.ReverseChangeSetEffects` | src/main/java/com/whisperinggarden/lar/LiquibaseRollbackCustomizer.java:134-161 | one reversal only removes rows and only replays texts of ledger rows that existed before |
| `Customizer.ReverseAllEffects` | src/main/java/com/whisperinggarden/lar/LiquibaseRollbackCustomizer.java:117-169 | the same holds over the whole list, for a completed run and for the committed state of an aborted one |
| `Customizer.ReverseAllFrame` | src/main/java/com/whisperinggarden/lar/LiquibaseRollbackCustomizer.java:145-159 | a key no unexpected changeset names keeps exactly its ledger rows, and its changelog rows stay |
| `Customizer.ReverseChangeSetClearsKey` | src/main/java/com/whisperinggarden/lar/LiquibaseRollbackCustomizer.java:153-159 | after a completed visit the visited key has no ledger rows |
| `Customizer.ReverseAllKeepsKeyCleared` | src/main/java/com/whisperinggarden/lar/LiquibaseRollbackCustomizer.java:145-161 | reversal never adds ledger rows: a key with no rows has none afterwards |
| `Customizer.ReverseAllClearsTargets` | src/main/java/com/whisperinggarden/lar/LiquibaseRollbackCustomizer.java:117-169 | a completed reversal leaves no ledger row under the exact key of any changeset it visited, and every one of them had a checksum |
| `Customizer.FetchAllAfterDelete` | src/main/java/com/whisperinggarden/lar/LiquibaseRollbackCustomizer.java:153-159 | deleting one key's rows does not change what the other keys read back |
| `Customizer.ReverseAllReplaysInOrder` | src/main/java/com/whisperinggarden/lar/LiquibaseRollbackCustomizer.java:117-143 | a completed reversal over distinct keys appends to the trace exactly each visited changeset's stored statements, in visiting order, as the table held them at the start |
| `Customizer.ProcessingOrderReplays` | src/main/java/com/whisperinggarden/lar/LiquibaseRollbackCustomizer.java:117-143 | the same holds for the descending execution order of line 119 |
| `Customizer.ProcessingOrder` | src/main/java/com/whisperinggarden/lar/LiquibaseRollbackCustomizer.java:119 | the unexpected changesets are visited as a permutation of the list, in descending execution order |
| `Customizer.RollbackUnexpectedChangeSets` | src/main/java/com/whisperinggarden/lar/LiquibaseRollbackCustomizer.java:110-173 | reversal, completed or aborted, only deletes rows and only replays statements stored before it began; a completed run leaves no ledger row under the key of any unexpected changeset; with distinct keys it replays exactly each changeset's stored statements, most recently executed changeset first |
| `Customizer.PersistRollbackStatements` | src/main/java/com/whisperinggarden/lar/LiquibaseRollbackCustomizer.java:175-214 | completes exactly when the inserts fit the unique index; then the ledger is the old rows followed by each unrun changeset's own rows (its key, its numbering) in plan order, their texts are the compensations, and the changelog and trace are unchanged; the index invariant is kept; a refused insert aborts with nothing committed |
| `Customizer.Customize` | src/main/java/com/whisperinggarden/lar/LiquibaseRollbackCustomizer.java:65-73 | a completed run leaves the table in place; an aborted run commits no ledger row that was not there when the run started |
| `Customizer.CustomizeReplaysOnlyEarlierRows` | src/main/java/com/whisperinggarden/lar/LiquibaseRollbackCustomizer.java:68-70 | a completed run only replays statements stored before it started, and never a row it persists itself |
| `Customizer.CustomizeKeepsPersistedRows` | src/main/java/com/whisperinggarden/lar/LiquibaseRollbackCustomizer.java:68-70 | after a completed run the ledger is surviving old rows followed by the compensations of the unrun changesets |
| `Customizer.ReverseAllKeepsSlotsUnique` | src/main/java/com/whisperinggarden/lar/LiquibaseRollbackCustomizer.java:145-161 | reversal keeps the unique index invariant, for a completed run and for an aborted one |
| `Customizer.CustomizeKeepsSlotsUnique` | src/main/java/com/whisperinggarden/lar/LiquibaseRollbackCustomizer.java:65-73 | a run that starts from a table satisfying the unique index leaves one that does, whatever the outcome |
| `Customizer.PersistDerivedRows` | src/main/java/com/whisperinggarden/lar/LiquibaseRollbackCustomizer.java:190-207 | without custom rollback, a changeset's rows are its compensation numbered from 1 |
| `Customizer.ReverseNumbered` | src/main/java/com/whisperinggarden/lar/LiquibaseRollbackCustomizer.java:127-161 | reversing a key whose rows are one batch numbered from 1 replays that batch in order and leaves exactly the other rows |
| `Customizer.PersistThenReverse` | src/main/java/com/whisperinggarden/lar/LiquibaseRollbackCustomizer.java:110-214 | round trip: persist a changeset without custom rollback, then reverse it under the same checksum; exactly its compensation is replayed in stored order and the ledger is restored |
| `Customizer.ProcessingOrderScenario` | src/main/java/com/whisperinggarden/lar/LiquibaseRollbackCustomizer.java:119 | of two unexpected changesets with execution orders 5 and 7, the one with 7 is reversed first |
| `Customizer.DriftScenario` | src/main/java/com/whisperinggarden/lar/LiquibaseRollbackCustomizer.java:117-169 | ID-03 (order 7, nothing stored) is visited first and left alone; ID-02's `[drop B, drop A]` is replayed in that order; its changelog row and ledger rows are gone |
| `Customizer.DriftScenarioUnstored` | src/main/java/com/whisperinggarden/lar/LiquibaseRollbackCustomizer.java:162-165 | a changeset with no rows under its key completes and changes nothing |
| `Customizer.DriftScenarioStored` | src/main/java/com/whisperinggarden/lar/LiquibaseRollbackCustomizer.java:134-161 | the stored changeset's statements run in stored order, and its ledger and changelog rows are deleted |
| `Customizer.LookupQuery` | src/main/java/com/whisperinggarden/lar/LiquibaseRollbackCustomizer.java:127-133 | the lookup statement validates, selects `ROLLBACKSTMT`, matches `CHANGELOGID` and `CHANGELOGCHKSUM` against id and checksum, and orders by `ROLLBACKSTMTORDER` |
| `Customizer.LookupQueryText` | src/main/java/com/whisperinggarden/lar/LiquibaseRollbackCustomizer.java:127-133 | the lookup's SQL is `SELECT <stmt column> FROM <table> WHERE <key predicate> ORDER BY <order column>` |
| `Findings.CustomRollbackRejected` | src/main/java/com/whisperinggarden/lar/LiquibaseRollbackCustomizer.java:186-189 | as written: a custom rollback of two changes with one statement each is refused by the unique index, and the run aborts |
| `Findings.PersistChangeSetNumbered` | src/main/java/com/whisperinggarden/lar/LiquibaseRollbackCustomizer.java:186-189 | corrected: the whole compensation is one batch numbered 1..n; under a fresh key it fits the index and reads back exactly |
| `Findings.NumberedAgreesWithoutCustomRollback` | src/main/java/com/whisperinggarden/lar/LiquibaseRollbackCustomizer.java:190-207 | without custom rollback the corrected storage is the one the driver has |
| `Findings.RestartNumberedStartsAtOne` | src/main/java/com/whisperinggarden/lar/LiquibaseRollbackCustomizer.java:228 | the first row a custom rollback stores is numbered 1 |
| `Findings.FirstStoredRow` | src/main/java/com/whisperinggarden/lar/LiquibaseRollbackCustomizer.java:184-208 | whatever a changeset stores, its first new row is under its key with order 1 |
| `Findings.RepersistRejected` | src/main/java/com/whisperinggarden/lar/LiquibaseRollbackCustomizer.java:181-208 | as written: persisting a changeset whose rows are already stored is refused by the unique index, and the run aborts |
| `Findings.PersistChangeSetOnce` | src/main/java/com/whisperinggarden/lar/LiquibaseRollbackCustomizer.java:181-208 | corrected: a key that already has rows is left alone, otherwise one numbered batch is inserted; it always fits the index |
| `Findings.PersistChangeSetOnceIdempotent` | src/main/java/com/whisperinggarden/lar/LiquibaseRollbackCustomizer.java:181-208 | with the corrected storage, persisting the same changeset again changes nothing |
| `Findings.PrecomputeOnce` | src/main/java/com/whisperinggarden/lar/LiquibaseRollbackCustomizer.java:181-210 | with the corrected storage, precomputation keeps the old rows and never has an insert refused |
| `Findings.CorrectedPersistThenReverse` | src/main/java/com/whisperinggarden/lar/LiquibaseRollbackCustomizer.java:110-214 | with the corrected storage the round trip holds for every changeset, custom rollback included |

## Left out

- Logging and `logUpdatedRecords` are left out. They have no effect on state.
- `getExecutor`, JDBC and the `Scope` lookup are left out. Executing a
  statement is modelled as appending it to the trace.
- Checksum generation (`generateCheckSum(ChecksumVersion.latest())`) is left
  out. Checksums are given strings.
- The engine's changeset listings are left out. The unrun and unexpected lists
  are inputs.
- The dialect SQL generator (`generateSql` for a change,
  `generateRollbackStatements`) is left out. Its output per change is an input,
  and `None` stands for `RollbackImpossibleException`.
- Identifier escaping and `replacePredicatePlaceholders` are left out. They
  belong to the dialect and are function parameters.
- `hasTable` is left out. Table existence is the boolean `Db.tableExists`.
- Column types, lengths and NOT NULL constraints of the ledger table are left
  out. Statement text is not truncated to the configured maximum length.
- The surrogate `ID` column is the position of a row in the sequence.
- Database failures other than a unique index refusing an insert are left out.
  This covers a failing create, query, delete or commit, and the
  `UnexpectedLiquibaseException` wrappers at lines 105-107, 166-167, 170-171,
  211-212 and 237-240. A replay failure is modelled through `fails`.
- A failure of the listing calls (`LiquibaseException`) is left out.
- The configuration properties, the auto-configuration and the enabled flag
  are not part of this model.
- `Ledger.FetchRollbackStatements`: under one key, rows with equal statement
  order come back in insertion order. SQL leaves that order unspecified. A
  table that satisfies the unique index has no such ties.
- `SelectGenerator.Validate`: Liquibase's `checkRequiredField` is not part of
  this model. Only a null table name and an empty column list are reported.
  Any other check it makes, such as on an empty string, is not modelled.
- `Customizer.ReverseAllReplaysInOrder`: states the trace only when no two
  unexpected changesets share `(id, checksum)`. With a shared key, the second
  visit finds the rows already deleted and replays nothing. The other lemmas
  about reversal hold without this condition.
- `Customizer.Customize`: its contract states only what holds for every run.
  Its effects are stated by the lemmas `CustomizeReplaysOnlyEarlierRows`,
  `CustomizeKeepsPersistedRows` and `CustomizeKeepsSlotsUnique`.
- Java `String.toLowerCase` is modelled for ASCII letters only.

## Findings

| source | as written | input that shows it | evidently intended | confidence | as-written member | corrected member |
|---|---|---|---|---|---|---|
| src/main/java/com/whisperinggarden/lar/LiquibaseRollbackCustomizer.java:186-189 | each custom rollback change is stored by its own `insertRollbackStatements` call, and that call numbers its statements from 1 (line 228) | an unrun changeset whose custom rollback has two changes that generate one statement each: rows `(id, ck, s1, 1)` and `(id, ck, s2, 1)`; the unique index on `(CHANGELOGID, CHANGELOGCHKSUM, ROLLBACKSTMTORDER)` refuses the second, so the run aborts | the whole custom rollback stored as one batch numbered 1..n, so order is unique and contiguous per key | not executed | `Findings.CustomRollbackRejected` | `Findings.PersistChangeSetNumbered` |
| src/main/java/com/whisperinggarden/lar/LiquibaseRollbackCustomizer.java:181-208 | every unrun changeset is stored on every run, even when rows for its `(id, checksum)` are already in the table | a changeset stored by one run that is still unrun at the next run, for example because the update failed after `customize`; the next run inserts `(id, ck, first statement, 1)` again, the index refuses it, and every later run aborts the same way | a key's compensation written once: a key that already has rows is left as it is | not executed | `Findings.RepersistRejected` | `Findings.PersistChangeSetOnce` |

`Customizer.Customize` and the drivers model the code as written. The
corrected members in `Findings` (`PersistChangeSetNumbered`,
`PersistChangeSetOnce`, `PrecomputeOnce`) carry the intended storage and its
properties: it always fits the index, the round trip holds for custom rollback
too, and storing twice is idempotent.
