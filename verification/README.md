# Verification of myschema's plans

myschema compares a current MySQL schema with a desired one and prints the DDL that turns the first into the
second. This project models the parts of it that decide whether that script is right, and proves what the script
does when MySQL runs it. Each part pairs the program's own algorithm with an independent model of MySQL.

* **Partitions** (`Partition*.dfy`). `PartitionModel` says what a legal layout is, where each row lives, and what
  REORGANIZE, ADD and DROP PARTITION do. `PartitionSpec` is the plan without loops; `PartitionDiff` computes it loop by
  loop, and `PartitionNodes` compares two definitions by changing them in place and restoring them. `PartitionRewrite`,
  `PartitionMatch`, `PartitionChecks` and `PartitionPlan` prove what every prefix of the emitted script does to layout and rows;
  `PartitionVerdicts` says which pairs of clauses are refused and which partitions a plan rewrites, in terms of the clauses alone.
* **Views** (`View*.dfy`). References form a graph. `ViewSort` holds Kahn's algorithm and the argument that it fails exactly on
  a cycle; `ViewDiff` the diff; `ViewMigration` runs the drops and the creates one by one.
* **Tables** (`Schema*.dfy`). `SchemaModel` is a database (ordered columns, primary key, indexes, foreign keys) and the effect
  and precondition of each statement. `SchemaSpec` is the plan as a function; `SchemaDiff` and `SchemaDiffTables` compute it on a
  current schema whose maps are re-keyed and whose entries are overwritten in place. `SchemaLegal` shows that every accepted
  statement keeps the database well-formed. `SchemaLocal` and `SchemaOrder` treat the statements of one table, `SchemaRename`
  and `SchemaRenamed` the renames, `SchemaStages`, `SchemaState`, `SchemaSteps`, `SchemaBuckets` and `SchemaAdds` the buckets in
  the order the program concatenates them; `SchemaPlan` and `SchemaFinal` put them together, for every drop policy.
  `SchemaRefusals` says which rename directives are refused and with which error.
  `SchemaPermits` shows that nothing is dropped without permission, `SchemaReplan` plans again after the run,
  `SchemaPureRename` is about plans that only rename, `SchemaFold` about the specs of one table folded into a single ALTER, and
  `SchemaLimits` holds inputs on which the plan falls short.
* **Statement text** (`IdentText`, `StatementText`, `BulkAlter`, `SpecWords`, `LiteralText`, `CheckDef`, `TextTrim`). Real
  character sequences: printing and scanning identifiers, splicing hints, folding ALTER statements, literals and escapes, CHECK
  clauses. `SpecWords` spells out the keywords that decide where hints go and what may be folded.

`Common` and `SortedNames` hold shared vocabulary. Partition names, keywords and CHECK suffixes are compared with ASCII case
folding. Table, column, index and foreign key names are compared exactly, as the program's maps do. The whole-plan results
assume (`SchemaPlan.Given`) that no two column or index names of a table and no two foreign key names, current or desired,
differ in case only, so that this is MySQL's comparison too (`SchemaPlan.ExactIsFolded`).

What the code does not guarantee is stated as exactly as what it does:

* A RANGE or LIST partition script runs to its end exactly when the desired names are distinct and a rewrite does not lower
  the last RANGE bound (`PartitionPlan.PlanDelivers`; witnesses `RepeatedNewNameIsRefused`, `LoweredLastBoundIsRefused`).
* A HASH or KEY plan reaches the desired number of partitions exactly when both sides state it or both leave it out alike; a
  count left out on one side is subtracted as if it were a number (`PartitionVerdicts.CountPlanDelivers`; witness
  `UnstatedCountIsMisread`).
* A table script is refused in four cases and no others (`SchemaPlan.PlanRuns`, for every drop policy). A table changes a primary
  key of which every column is dropped: DROP COLUMN comes first and takes the key with it, so DROP PRIMARY KEY fails (witness
  `SchemaLimits.KeyMovesOffDroppedColumn`). Or a foreign key that is left over for lack of permission to drop it names a dropped
  column (witness `SchemaLimits.KeptForeignKeyHoldsColumn`), points at a dropped table, or holds a name about to be added. With
  permission to drop tables and foreign keys only the first can happen (`SchemaPlan.OnlyTraps`), and not even that one when the
  table's statements are folded into one ALTER (`SchemaFold.FoldingKeepsMeaning`).
* Planning again is empty exactly when the directives inside newly created tables are consistent; nothing checks them while
  the table is new (`SchemaReplan.SecondPlan`; witness `SchemaLimits.UncheckedDirective`).
* Added columns land where desired has them exactly when the surviving columns already stood in desired's order
  (`SchemaFinal.PlanOrdersColumns`).
* A CHECK clause is cut correctly exactly when its parentheses balance counting those inside string literals, which the
  scan does not skip (`CheckDef.SplitIsExact`; witness `CheckDef.LiteralParenthesisMisleads`).

## Model

| member | source | states |
|---|---|---|
| PartitionNodes.PartitionDefEqual | diff/partitions.go:1051-1101 | Sorting both constant lists and overwriting a name for the comparison decides equality up to name case and constant order, and both definitions read as before afterwards, even when they are the same object |
| PartitionNodes.PartitionValueRangeEqual | diff/partitions.go:1010-1049 | The same for the value ranges alone |
| PartitionNodes.SortedMeansSame | diff/partitions.go:1097-1101 | Two constant lists sort alike exactly when they hold the same constants equally often |
| PartitionDiff.FindDuplicateListValue | diff/partitions.go:957-973 | Reports a constant exactly when one is listed twice, together with two partitions that list it |
| PartitionDiff.ValidateDesiredRangeMonotonic | diff/partitions.go:805-850 | The one-pass scan refuses exactly when neighbouring bounds fail to ascend |
| PartitionDiff.FindDiscardedListValue | diff/partitions.go:913-928 | Finds a current constant no desired partition lists, exactly when there is one |
| PartitionDiff.ListChangedSlotsAreSuperset | diff/partitions.go:774-784 | True exactly when no changed partition loses a constant |
| PartitionDiff.FormatReorganizeRun | diff/partitions.go:730-756 | A run names the catalog's partitions and restates unchanged ones as the catalog has them |
| PartitionDiff.RangeRuns | diff/partitions.go:360-376 | The RANGE loop emits one statement per run of changed slots, cascading by one slot when the run's upper bound moved |
| PartitionDiff.ListRuns | diff/partitions.go:379-390 | The LIST loop emits one statement per run of changed slots |
| PartitionDiff.MatchSlots | diff/partitions.go:311-321 | One walk marks the equal slots and finds the first and last changed one |
| PartitionDiff.PartitionByNameOrderPreserving | diff/partitions.go:561-574 | The walk returns the partitions greedy matching leaves over on either side |
| PartitionDiff.DetectCatchAllInteriorInsert | diff/partitions.go:643-689 | Recognises exactly a layout that slices the MAXVALUE partition and keeps everything else |
| PartitionDiff.DiffPartitions | diff/partitions.go:78-486 | The whole diff, guards in their order, is the plan the lemmas below are about |
| PartitionChecks.MonotonicCheckIsExact | diff/partitions.go:805-850 | For integer and MAXVALUE bounds, comparing neighbours accepts exactly the strictly increasing lists |
| PartitionChecks.MaxvalueIsLast | diff/partitions.go:805-850 | A MAXVALUE bound anywhere but last is refused |
| PartitionChecks.DuplicateCheckIsExact | diff/partitions.go:884-890 | No constant is listed twice exactly when the partitions' constant sets are disjoint and free of repeats |
| PartitionRewrite.CascadeKeepsEdge | diff/partitions.go:366-373 | After a run and its cascade the bound at the run's upper edge is the old one, unless the run reaches the last slot |
| PartitionRewrite.RangeScriptExecutes | diff/partitions.go:359-376 | From any legal table every prefix of the RANGE script leaves ascending bounds and all rows, and the script ends in the desired layout, exactly when the last bound does not shrink; then only the last statement is refused |
| PartitionRewrite.ListScriptExecutes | diff/partitions.go:377-390 | With growing slots every intermediate LIST layout is disjoint, no row moves out of reach, and the end is desired up to constant order |
| PartitionRewrite.EveryPrefix | diff/partitions.go:358-395 | Running a prefix of such a script leaves a legal table with the rows it had |
| PartitionPlan.SpanExecutes | diff/partitions.go:391-393 | The single LIST span runs, ends in the desired layout, and keeps exactly the rows whose constant desired still lists |
| PartitionMatch.GreedyIsOptimal | diff/partitions.go:561-574 | The matched count is the longest prefix of desired that is a subsequence of current |
| PartitionMatch.NoDropsIffPrefix | diff/partitions.go:561-574 | Nothing is dropped exactly when current is a prefix of desired |
| PartitionMatch.NoAddsIffSubsequence | diff/partitions.go:561-574 | Nothing is added exactly when desired is a subsequence of current |
| PartitionMatch.DropExecutes | diff/partitions.go:466-483 | DROP PARTITION runs, leaves a legal table in the desired layout and loses the dropped partitions' rows only |
| PartitionMatch.AddExecutes | diff/partitions.go:449-464 | ADD PARTITION runs and reaches the desired layout exactly when the desired names are distinct |
| PartitionPlan.CatchAllExecutes | diff/partitions.go:432-434 | Slicing the catch-all runs, keeps every row, and yields the desired layout with distinct names |
| PartitionPlan.NoAddAfterMaxvalue | diff/partitions.go:436-464 | No plan adds behind a MAXVALUE partition: the order check has refused it |
| PartitionPlan.PlanDelivers | diff/partitions.go:78-486 | Main result: every statement of any RANGE or LIST plan runs, through legal layouts, to desired, exactly when names are distinct and a rewrite does not lower the last bound; without drop permission no row is lost at any step |
| PartitionVerdicts.EndsAsDesired | diff/partitions.go:113-486 | When a plan's statements have run, the table's scheme (kind, LINEAR, algorithm, expression, columns) is desired's, and each partition has desired's name up to case, bound or set of constants, and options |
| PartitionVerdicts.RefusalIs | diff/partitions.go:113-486 | Which pairs of clauses are refused and why, by the clauses alone: a constant listed twice, bounds that do not ascend, any difference in the scheme, a LIST constant lost without permission, or a change that neither appends, drops, rewrites nor slices the last partition |
| PartitionVerdicts.ClauseVerdict | diff/partitions.go:78-100 | A clause on one side only is refused, each direction with its own error; equal texts need nothing |
| PartitionVerdicts.AlikeIs | diff/partitions.go:1051-1101 | Two definitions count as equal exactly when names agree up to case, options and bounds agree, and each constant is listed equally often |
| PartitionPlan.SchemeIs | diff/partitions.go:493-514 | Two headers count as equal exactly when kind, LINEAR, algorithm and expression agree and the column lists agree up to case |
| PartitionVerdicts.RewritesAreLocal | diff/partitions.go:311-395 | A RANGE rewrite, and a LIST rewrite in which no partition loses a constant, touches changed partitions only, but for the one the cascade adds; otherwise one statement spans exactly the first to the last change |
| PartitionVerdicts.RunRestates | diff/partitions.go:730-756 | REORGANIZE names the catalog's partitions and states desired's definition exactly where the two differ |
| PartitionVerdicts.GrowthStates | diff/partitions.go:432-464 | Appending adds desired's partitions as they are; slicing restates the catalog's own last partition behind the new ones |
| PartitionVerdicts.CountPlanDelivers | diff/partitions.go:164-180 | The number of HASH or KEY partitions ends as desired exactly when both sides state it or both leave it out alike; without permission a shrinking plan is only reported |
| PartitionVerdicts.UnstatedCountIsMisread | diff/partitions.go:164-171 | From a clause without a count to one with four partitions the plan adds too many |
| PartitionPlan.ReplanIsEmpty | diff/partitions.go:306-333 | Planning again from a layout equal to desired emits nothing |
| PartitionPlan.RepeatedNewNameIsRefused | diff/partitions.go:449-464 | Two new partitions with one name are planned and refused by MySQL |
| PartitionPlan.LoweredLastBoundIsRefused | diff/partitions.go:366-374 | A lowered last bound is planned and refused by MySQL |
| ViewSort.TopoSortViews | diff/views.go:87-149 | Succeeds exactly when the references, self-references aside, have no cycle; its result does not depend on the order the map is walked in |
| ViewSort.BuildGraph | diff/views.go:97-118 | After the loops each view's in-degree counts its distinct dependencies among the views, and the reverse map lists its dependants once |
| ViewSort.PutOut | diff/views.go:120-143 | The queue loop with decrementing counts puts out what Kahn's algorithm on the graph puts out |
| ViewSort.OrderIsTopological | diff/views.go:120-148 | The order lists each view after its dependencies and is complete exactly when the graph is acyclic |
| ViewSort.StuckHasCycle | diff/views.go:145-147 | Views that each wait for another waiting view contain a cycle (pigeonhole on a long walk) |
| ViewDiff.DiffViews | diff/views.go:35-80 | Creates changed views in dependency order and drops absent ones in reverse order, or fails on a cycle on either side |
| ViewDiff.ViewEqualIs | diff/views.go:168-205 | Two views count as equal exactly when their check options agree, none and NONE being one, and their definitions agree or have one normal form |
| ViewDiff.PlanSays | diff/views.go:49-77 | A view is created exactly when there is none that says the same, dropped exactly when desired lacks it and drops are permitted, and reported exactly when they are not |
| ViewDiff.CircleIs | diff/views.go:97-118 | What is refused as circular is a closed chain of different views of the set each reading the next; reading oneself, a table or a view outside does not count |
| ViewMigration.MidwayAcyclic | diff/views.go:49-62 | With some desired views created and the rest still old, the live views never form a cycle |
| ViewMigration.MigrationRuns | diff/views.go:35-80 | Main result: drops run with no dropped view still read by another one to be dropped; creates run exactly when each reads only tables and desired views, and then finds them in final form; all states are acyclic, and at the end each desired view is live with its check option (none is NONE) and its definition, up to normal form |
| ViewMigration.ReplanIsEmpty | diff/views.go:35-80 | After a whole run with drops allowed exactly the desired views are live, each saying what desired says, and planning again succeeds and emits nothing, whatever the drop permission then is |
| SchemaDiff.HasDuplicateSource | diff/rename.go:396-408 | True exactly when two entries name one source |
| SchemaDiff.ColumnRenameMap | diff/rename.go:527-539 | The loop builds the substitution of which SchemaRename.RenAllIsSub proves the meaning |
| SchemaDiff.ValidateForeignKeyRenames | diff/rename.go:451-477 | The guard's loop accepts and refuses as its recursive form, with the same error |
| SchemaDiff.CurrentTable.ApplyColumnRenames | diff/rename.go:106-143 | Re-keys the column map entry by entry, and returns the accepted renames or the first error |
| SchemaDiff.CurrentTable.ApplyIndexRenames | diff/rename.go:336-369 | The same for indexes |
| SchemaDiff.CurrentTable.RewriteIndexColumnRefs | diff/rename.go:160-171 | Overwriting parts in place is the substitution in every index |
| SchemaDiff.CurrentTable.RewriteFKColumnRefs | diff/rename.go:284-302 | Own columns, and referenced columns of self-references, are substituted in every foreign key |
| SchemaDiff.CurrentTable.RewriteConstraintColumnRefs | diff/rename.go:232-269 | The primary key's parts have their columns substituted and their modifiers kept |
| SchemaDiff.CurrentTable.DiffColumns | diff/tables.go:352-390 | The anchor variable always is the desired predecessor; adds and changes come in desired order, drops in current order |
| SchemaDiff.CurrentTable.DiffConstraints | diff/tables.go:618-642 | The PRIMARY KEY cases of both loops: dropped when it differs, if permitted or replaced, then added as desired has it |
| SchemaDiff.CurrentTable.DiffIndexes | diff/tables.go:698-737 | Drops of unequal indexes, except those whose every part is a dropped column, then creates |
| SchemaDiff.CurrentTable.DiffForeignKeys | diff/tables.go:786-809 | Drops and adds of unequal foreign keys |
| SchemaDiff.CurrentTable.DiffTable | diff/tables.go:173-298 | One table's renames, columns, key, indexes and foreign keys, diffed in their order on the mutated table, are its part of the plan |
| SchemaDiff.DroppedColumns | diff/tables.go:342-350 | The current columns desired lacks, in current order |
| SchemaDiff.PartsAllDropped | diff/tables.go:743-753 | True exactly when every part is a dropped column and there is one |
| SchemaDiffTables.CurrentSchema.RewriteFKRefTable | diff/rename.go:85-94 | Every foreign key that pointed at the old table name points at the new one, and no other changes |
| SchemaDiffTables.CurrentSchema.ApplyTableRenames | diff/rename.go:23-79 | Re-keys tables and retargets foreign keys entry by entry, or returns the first error |
| SchemaDiffTables.CurrentSchema.RewriteCrossTableFKRefCols | diff/rename.go:311-330 | Referenced columns are substituted in the other tables' foreign keys to the given table |
| SchemaDiffTables.PassesAddUp | diff/tables.go:106-200 | The cross-table passes and a table's own pass together substitute each name once, by its own table's map |
| SchemaDiffTables.CurrentSchema.DiffTables | diff/tables.go:41-164 | Renames, new, changed and dropped tables on the mutated current schema give the plan the lemmas below are about |
| SchemaRename.LoopAccepts | diff/rename.go:106-143 | Accepted renames have existing, distinct sources that are not declared and new, distinct targets, and none that applies is left out |
| SchemaRefusals.RenamesAre | diff/rename.go:106-143 | Directives are accepted exactly when no two entries name one source and each other source is undeclared, with exactly one of old and new name in use; the renames are then those whose source exists |
| SchemaRefusals.RefusalIs | diff/rename.go:106-143 | Otherwise the error is that of a contested source or else of the first wrong entry: declared as well, missing, or with its target taken; foreign key directives are judged alike |
| SchemaRefusals.DiffRefuses | diff/tables.go:41-200 | The diff fails exactly when the table directives are refused or else some common table's column, index or foreign key directives are, with the first such error, whatever may be dropped |
| SchemaRefusals.MisspeltColumnIsRefused | diff/rename.go:127-133 | A directive whose source is neither there nor already renamed never becomes an added and a dropped column |
| SchemaRename.AcceptedArePairing | diff/rename.go:106-143 | Hence sources and targets are disjoint |
| SchemaRename.SequentialIsSimultaneous | diff/rename.go:111-141 | Running the renames one after another is one substitution |
| SchemaRename.AnyOrder | diff/rename.go:111-141 | The order of the rename statements does not matter |
| SchemaRename.RenAllInjective | diff/rename.go:111-141 | No two names end up equal |
| SchemaRename.RenAllIsSub | diff/rename.go:527-539 | On every existing name the statements do what columnRenameMap says |
| SchemaRename.ColumnRenamesRun | diff/rename.go:137-140 | Every RENAME COLUMN runs, and columns, key, indexes and foreign keys on both sides carry the new names |
| SchemaRenamed.TableRenamesRun | diff/rename.go:63-77 | Every RENAME TO runs, and the database then is the schema the planner goes on with |
| SchemaRenamed.RenamedOk | diff/tables.go:187-200 | The schema the planner goes on with after a table's renames is well-formed |
| SchemaLegal.ExecKeepsDBOk | diff_all.go:77-84 | Any statement MySQL accepts leaves every index and foreign key on existing columns and tables, every table with a column, and foreign key names unique |
| SchemaLegal.EveryPrefixIsLegal | diff_all.go:77-84 | A script that runs passes through well-formed databases only |
| SchemaLocal.AddStep | diff/tables.go:367-379 | When its turn comes, ADD COLUMN finds its AFTER anchor in the table and lands right behind it, and MODIFY finds its column; the definitions merged so far are as planned |
| SchemaLocal.AddsRun | diff/tables.go:367-379 | All adds and changes run and leave exactly the merged definitions |
| SchemaLocal.DropsRun | diff/tables.go:381-388 | All column drops run, none being the last column, and strip key and indexes as MySQL does |
| SchemaLocal.StripsToNothing | diff/tables.go:743-753 | An index vanishes with its columns exactly when each of its parts is a dropped column |
| SchemaLocal.IndexDropsRun | diff/tables.go:701-725 | Every DROP INDEX hits an index that still exists |
| SchemaLocal.IndexCreatesRun | diff/tables.go:726-735 | Every CREATE INDEX uses a free name and existing columns |
| SchemaLocal.IndexesAddUp | diff/tables.go:698-753 | What the columns took, what is dropped and what is created add up to the final indexes, under any drop policy |
| SchemaLocal.KeyRuns | diff/tables.go:618-642 | The key statements run exactly when the key is not trapped by column drops, and leave the final key |
| SchemaLocal.LocalRuns | diff/tables.go:264-290 | All statements of one table after its renames run exactly when its key is not trapped, and leave the final table |
| SchemaOrder.ColumnOrder | diff/tables.go:352-390 | The columns end in desired's sequence exactly when the surviving ones already stood in its order |
| SchemaSteps.InUseInMid | diff/tables.go:122-136 | While tables change, a column that goes is named by a foreign key exactly when a left-over one names it: none that stays or was dropped in time does |
| SchemaSteps.TableStage | diff/tables.go:122-136 | All of one table's statements run on the database exactly when its key is not trapped and no left-over foreign key holds a column it drops; other tables change only in foreign keys that follow its renames |
| SchemaBuckets.ChangedDropsRun | diff/tables.go:132 | Every foreign key drop of a changed table hits an existing one |
| SchemaBuckets.GoneDropsRun | diff/tables.go:140-159 | Every foreign key drop of a dropped table hits an existing one |
| SchemaBuckets.NewTablesRun | diff/tables.go:59-104 | Every CREATE TABLE has a free name, and its indexes follow |
| SchemaBuckets.ChangedStmtsRun | diff/tables.go:122-136 | The bucket of table changes runs exactly when none of its tables is stuck that way |
| SchemaBuckets.TableDropStmtsRun | diff/tables.go:138-161 | The table drops run exactly when no left-over foreign key of another table points at a dropped one |
| SchemaAdds.NewAddsRun | diff/tables.go:101-103 | Every foreign key of a new table finds its tables and columns, and a free name unless a left-over foreign key holds it |
| SchemaAdds.ChangedAddsRun | diff/tables.go:134 | So does every foreign key added to a common table |
| SchemaAdds.AddsBlocked | diff/tables.go:101-134 | If a left-over foreign key holds a name that is to be added, wherever it stands in the list, the adds do not run to their end |
| SchemaPlan.TableRenameStage | diff/tables.go:52-56 | The table renames take the database to the schema the planner goes on with |
| SchemaPlan.PlanRuns | diff_all.go:77-84 | Under every policy the five buckets in order run exactly when no key is trapped and no left-over foreign key names a dropped column, a dropped table or an added name; the end state is given |
| SchemaPlan.OnlyTraps | diff_all.go:77-84 | With table and foreign key drops permitted only a trapped key stops the script |
| SchemaFinal.PlanDelivers | diff_all.go:77-84 | Main result, under every policy: unless one of those cases stops it, each prefix of the script leaves a well-formed database, the tables at the end include desired's with all their content, and with all drops allowed tables, columns, keys, indexes and foreign keys are desired's |
| SchemaFinal.PlanOrdersColumns | diff/tables.go:352-390 | The final column order is desired's, in a common table exactly when the surviving columns already had it |
| SchemaFinal.FinalKeepsColumns | diff/tables.go:381-388 | Without permission to drop columns every current column is still there under its new name |
| SchemaFinal.FinalCovers | diff/tables.go:41-164 | Whatever may not be dropped, everything desired declares is there in the end as declared |
| SchemaFinal.FinalUsesDrops | diff/tables.go:264-290 | Each permission is used in full whatever the others are: with it columns, key, indexes or foreign keys of a declared table are exactly desired's |
| SchemaFinal.FinalKeepsIndexes | diff/tables.go:719-723 | Without permission to drop columns and indexes every current index is still there under its new name, with its own renamed parts or, if desired declares that name, as declared |
| SchemaFinal.FinalKeepsForeignKeys | diff/tables.go:786-809 | A left-over foreign key is still there in the end, following every rename |
| SchemaFinal.FinalKeepsTables | diff/tables.go:138-161 | Without permission to drop tables an undeclared table stays as it was, its foreign keys following the renames |
| SchemaPermits.OnlyPermittedDrops | diff/tables.go:138-161 | Under every policy the script drops a table, column, index, key or foreign key only with its permission, or to put a redefined one of the same name in its place |
| SchemaReplan.SettledPlan | diff/tables.go:41-164 | Against a database that is as desired the plan is empty, or a directive is refused, exactly when directives contradict the declarations |
| SchemaReplan.SecondPlan | diff/tables.go:58-104 | After the plan has run, planning again is empty exactly when the directives of the tables it created are consistent |
| SchemaPureRename.PureRename | diff/tables.go:41-164 | If desired is current under new table, column and index names, the plan under any policy is the RENAME statements and nothing else |
| SchemaPureRename.KeysForth | diff/rename.go:284-330 | Foreign keys then compare equal: own columns, target table and referenced columns all follow |
| SchemaLimits.KeyMovesOffDroppedColumn | diff/tables.go:264-270 | A table whose key moves to another column while its old column is dropped gets a script MySQL refuses |
| SchemaLimits.KeptForeignKeyHoldsColumn | diff/tables.go:794-797 | With foreign key drops forbidden and column drops permitted, a column is dropped under a kept foreign key, and MySQL refuses the script |
| SchemaLimits.UncheckedDirective | diff/tables.go:58-104 | A new table with a directive naming its own column is created, and the next plan is refused |
| IdentText.SkipIdentifier | diff_all.go:312-340 | The two loops stop where the recursive scanners do |
| IdentText.SkipQualifiedIdentifier | diff_all.go:300-310 | So does the loop over a dotted chain |
| IdentText.IdentScans | diff_all.go:300-340 | On any printed name followed by a space the scan stops exactly behind the name, whatever backticks and dots it holds |
| IdentText.NameReadsBack | model/util.go:70-87 | MySQL reads a printed name as the name: anything but a plain word that is not reserved stands in backticks, with its own backticks doubled |
| IdentText.QuoteIdentInjective | model/util.go:70-85 | No two names print alike, for any list of reserved words |
| IdentText.IdentInjective | model/util.go:59-68 | Nor do two dotted chains of non-empty names |
| StatementText.PartitionOpInsertPos | diff_all.go:262-277 | The loops return the splice point of the recursive definition, or -1 |
| StatementText.SplicePoint | diff_all.go:262-277 | The splice point is the word behind the table name, exactly when that word starts a partition operation |
| StatementText.LaterTextIsIgnored | diff_all.go:253-277 | Text after the first twenty characters of the spec never matters |
| StatementText.AppendAlterHints | diff_all.go:190-199 | Without hints the statements come back as they are, with hints each one is treated on its own |
| StatementText.HintsInPlace | diff_all.go:215-243 | A hinted ALTER TABLE is the statement with only the hints inserted, at the splice point or before the semicolon |
| SpecWords.AlterHints | diff_all.go:206-243 | ALGORITHM=... and LOCK=... stand in front of REORGANIZE, ADD, DROP, COALESCE, TRUNCATE and EXCHANGE PARTITION, in any letter case, and behind every other spec |
| SpecWords.PlainHints | diff_all.go:226-234 | In particular they stand behind the specs the diff emits for columns, keys, indexes, constraints and comments |
| SpecWords.IndexHints | diff_all.go:236-240 | On CREATE, CREATE UNIQUE, CREATE FULLTEXT and CREATE SPATIAL INDEX, in any letter case, they stand before the semicolon without commas |
| SpecWords.OthersAreUnhinted | diff_all.go:241-243 | Every other statement is left alone |
| StatementText.HintsOnIndex | diff_all.go:236-240 | A hinted CREATE INDEX of any kind is the statement with only the hints inserted before the semicolon |
| BulkAlter.SplitCombinableAlter | bulk_alter.go:119-157 | The scan splits as its functional form does |
| BulkAlter.SplitUndoesEmit | bulk_alter.go:119-157 | Splitting an emitted statement gives back the printed name and the spec, or none for partition operations and renames of columns or indexes |
| SpecWords.SplitByWord | bulk_alter.go:119-157 | An emitted statement is taken apart exactly when its spec begins with none of the six partition operations nor RENAME COLUMN or RENAME INDEX, in any letter case |
| SpecWords.PlainSplits | bulk_alter.go:119-157 | The specs the diff emits for columns, keys, indexes, constraints and comments are all combined |
| SpecWords.RenamePasses | bulk_alter.go:153-155 | RENAME COLUMN and RENAME INDEX pass through |
| SpecWords.NoRenameIsFolded | bulk_alter.go:48-102 | No combined statement holds a rename of a column or index, whatever the input |
| SpecWords.RenameIsKeptApart | bulk_alter.go:20-27 | A rename and the statement behind it come out as they went in |
| BulkAlter.CombineSameTableAlters | bulk_alter.go:48-102 | The loop with its open group emits the text of the combined pieces |
| BulkAlter.Conserved | bulk_alter.go:48-102 | The combined pieces hold the input's specs and other statements, in order |
| BulkAlter.ConservedInText | bulk_alter.go:48-102 | So do the emitted texts: each, split again, gives a group of the input's specs on one table or one untouched statement, and the groups in order are the input |
| BulkAlter.Maximal | bulk_alter.go:91-98 | No two neighbouring outputs are on one table |
| BulkAlter.CombinedTwice | bulk_alter.go:48-102 | Combining the combined text changes nothing |
| BulkAlter.OneIsItself | bulk_alter.go:49-51 | The shortcut for a single statement returns what the loop would |
| SchemaFold.FoldedRuns | bulk_alter.go:48-102 | One ALTER holding all of a table's combinable specs, each resolved against the original table, always runs and leaves the planned table |
| SchemaFold.FoldingKeepsMeaning | bulk_alter.go:48-102 | Whenever the statements run one by one the folded ALTER gives the same table; one by one they run exactly when no key is trapped |
| SchemaFold.RenameDoesNotFold | bulk_alter.go:20-27 | Folding RENAME COLUMN with a change of the renamed column fails, though the two run one by one |
| SchemaFold.IndexRenameDoesNotFold | bulk_alter.go:20-27 | Nor does RENAME INDEX fold with a drop under the new name |
| LiteralText.QuoteLiteralInjective | model/util.go:89-93 | No two strings are quoted alike |
| LiteralText.QuoteReadsBack | model/util.go:89-93 | MySQL reads a quoted literal as the string that was quoted |
| LiteralText.DecodeUndoesStored | catalog/tables.go:666-696 | The two passes invert MySQL's encoding of every generated-column body |
| LiteralText.LowerOutsideStringLiterals | diff/expr.go:78-123 | The scan lowers every character outside literals and copies the rest |
| LiteralText.LiteralIsUnits | diff/expr.go:99-119 | Behind an opening quote the scan passes whole characters, escapes and doubled quotes up to a quote that is none of these, or to the end of the text |
| LiteralText.LiteralEndIs | diff/expr.go:99-119 | And wherever a literal can be read to close that way, the scan stops there |
| LiteralText.LowersPlainParts | diff/expr.go:78-123 | In every text of plain parts and closed literals in turn, the plain parts are lowered and the literals, content and quotes, are not |
| LiteralText.LoweredTwice | diff/expr.go:78-123 | Lowering is idempotent |
| LiteralText.LoweredAlike | diff/expr.go:60-123 | Two texts lower alike exactly when their literals coincide in place and content and the rest differs in case only |
| LiteralText.QuotedPassesThrough | diff/expr.go:94-119 | Text written by QuoteLiteral is one literal to the scan and comes out unchanged |
| CheckDef.SplitCheckDef | diff/expr.go:191-223 | The depth loop cuts where the recursive scan does |
| CheckDef.SplitIsExact | diff/expr.go:191-223 | CHECK (e), in any letter case and spacing, splits into e and its suffix exactly when the parentheses of e balance |
| CheckDef.OthersAreWhole | diff/expr.go:191-195 | A definition that does not begin with CHECK is not cut |
| CheckDef.BalancedCounts | diff/expr.go:200-214 | That is: as many of one kind as of the other, and never more closing ones on the way |
| TextTrim.SqueezedKeepsWords | diff/expr.go:222 | The suffix keeps its words, with single spaces between them |
| CheckDef.EqualWhenBalanced | diff/expr.go:147-186 | Then two definitions are equal exactly when the expressions agree, or have one canonical form, and the folded suffixes agree |
| CheckDef.LiteralParenthesisMisleads | diff/expr.go:203-221 | A parenthesis in a literal makes two different constraints compare equal |

## Left out

- PartitionVerdicts.CountPlanDelivers: how the parser writes a count that is left out is not part of this model; any number below one is meant.
- PartitionPlan.PlanDelivers: for bounds that are expressions assumes that desired's order is right, since only neighbouring equal texts are refused (diff/partitions.go:838-840).
- ViewMigration.MigrationRuns: assumes that views judged equal have the same references, and that no desired view reads a live view that desired lacks, which can only be there when drops are not permitted.
- SchemaDiff.CurrentTable.RewriteConstraintColumnRefs: the key is its parts; rebuilding the definition text from the PRIMARY index and its loose textual comparison are not modelled.
- SchemaDiff.CurrentTable.DiffConstraints: CHECK constraints, the other half of both loops, are not modelled, nor is MySQL's refusal to drop a column one of them names.
- SchemaDiff.CurrentTable.DiffTable: the statements for partitions, character set and comment, and the guard for a unique key that must cover the partition columns, are not modelled.
- SchemaDiffTables.CurrentSchema.DiffTables: the partition checks on a created table and the comments for skipped drops are not modelled.
- The order of view statements relative to table statements: the database of the table model has no views.
- Tables as objects: a table being diffed is an object with mutable fields, the tables waiting for their turn are values in a mutable map.
- Character sets, collations and comments of tables.
- Functional index parts: kept as parts without a column name; the program does not rewrite them either.
- Cross-database foreign keys, MySQL's demand for an index under a foreign key, names that differ in case only, and servers that fold the case of table names.
- Column attributes, index options and referential actions are compared as one opaque value each; vitess's parsing and printing of expressions, views and partition definitions is taken as given.
- The value a RANGE COLUMNS tuple orders by, SUBPARTITION, and rows moving between HASH or KEY partitions.
- Failures that depend on a table's rows outside partitioning: duplicate keys, values that do not fit a changed column.
- Rows are sets of partition keys: two rows with one key count once.
- The list of reserved words, in lower case, and the character lowering are parameters; case folding elsewhere is ASCII, and white space is ASCII plus U+0085 and U+00A0.
- Error texts, skipped-statement comments of the table diff, name filters, execute directives, and everything that talks to MySQL or the file system.
