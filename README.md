# efcore-ext bulk MERGE / DELETE compiler, modelled in Dafny

This project models the core of the bulk-operation extension for Entity Framework Core: how a `Merge` call
(upsert / synchronize a table from a query or from an in-memory list) is compiled into a MERGE statement tree
with its parameters, and the helpers around it:
- the nullability and cache-safety pass over the extension's own statement nodes;
- the `DeleteExpression` node, with its child visitor and printer;
- the entity column maps.

A reference semantics of what a MERGE does to a keyed table proves the outcomes the `Upsert` and `Synchronize`
tests assert.

Modules, one per source part:

| file | module | models |
|---|---|---|
| wrappers.dfy | `Wrappers` | `Option`, `Result` and the .NET exceptions the core can throw |
| text.dfy | `Text` | decimal rendering of counters (with injectivity), `StartsWith`, line counting |
| enumerable.dfy | `Enumerable` | `ToDictionary` (duplicate key throws), `Distinct`, stable sort by an integer key |
| sql_tree.dfy | `SqlTree` | the SQL tree nodes the core reads or builds; `Visited<T>` models reference identity |
| merge_result.dfy | `MergeResultBinder` | `MergeResult`: the `(t, s) => new Result { Update = …, Insert = … }` projection |
| merge_into.dfy | `MergeInto` | `GetSqlMerge`: source checks, shape check, read-back projections, the parameter grid, column routing |
| nullability.dfy | `Nullability` | `XysSqlNullabilityProcessor` and `XysParameterBasedSqlProcessor.Optimize` |
| delete_expression.dfy | `DeleteExpressions` | the `DeleteExpression` constructor, `VisitChildren` and `Prints` |
| column_map.dfy | `ColumnMap` | `GetColumns` and `GetValueConverters` |
| merge_semantics.dfy | `MergeScenarios` | reference MERGE semantics, the test fixture and the two scenarios |

Reference identity in the C# code (`x != original`, "return this") is modelled by
`Visited<T> = Same | New(value)`:
- `Same` means the very same reference came back.
- `New` carries a freshly built node, which may be structurally equal to the original.

The change flags in the nullability pass and in `VisitChildren` compare references, so the model keeps this
distinction instead of comparing values.

Host components are function-valued parameters:
- the base `SqlNullabilityProcessor`;
- the `ExpressionVisitor` handed to `VisitChildren`;
- the `ExpressionPrinter`'s rendering of child nodes;
- the query translator (`TranslationStrategy.Go` together with the mapper it exposes);
- the VALUES parameter expander.

Thrown exceptions become `Err` values carrying the exception kind and, where the source sets one, its message; a duplicate-key `ArgumentException` carries the key its message names.

Imperative parts are imperative here:
- `GetSqlMerge` is a method that fills a two-dimensional `array2` of parameter cells in nested loops, growing the
  `QueryContext`'s parameter list. That list is a `seq` field of a class.
- The column routing and the list visitors are loops.
- `DoNotCache` clears a field of the processor class.
- `Prints` appends to the printer's text.

Each method is proved equal to a specification function, and the properties are lemmas about those functions.

## Model

| member | source | states |
|---|---|---|
| MergeInto.GetSqlMerge | src/MergeInto.cs:48-161 | the method (source checks including the null list, translation, in-memory rewrite, column map and routing, each failure returned as the exception the source throws) yields exactly the specification `CompileMerge` |
| MergeInto.NonAnonymousSourceRejected | src/MergeInto.cs:60-66 | an in-memory source whose element type is not anonymous fails with the default `InvalidOperationException`, whatever the other inputs, even when the list is empty or null |
| MergeInto.NullSourceRejected | src/MergeInto.cs:60-67 | a null in-memory list of an anonymous type fails with `ArgumentNullException` for the parameter `source`, whatever the other inputs |
| MergeInto.EmptySourceShortCircuits | src/MergeInto.cs:69-72 | an empty anonymous in-memory source gives `TRUNCATE TABLE [<table>]` when `delete` is set and `SELECT 0` otherwise, with no parameters; the result does not depend on the translator, the entity type or the branches |
| MergeInto.UnsupportedShapeRejected | src/MergeInto.cs:94-98 | past the source checks, compilation fails with `NotSupportedException("Unknown entity configured.")` if and only if the plan is not two tables, an inner join second, a plain table first and no predicate |
| MergeInto.CompileMergeStatement | src/MergeInto.cs:94-109 | a produced MERGE has a supported plan and a valid column map; it takes the join predicate, target and limit from the plan; `NotMatchedBySource == delete`; `Matched` exists iff an update is given and `NotMatchedByTarget` iff an insert is given |
| MergeInto.CompileMergeRouting | src/MergeInto.cs:142-156 | in a produced MERGE every mapper entry passed all its checks, and `Matched` holds exactly the `Update.` entries and `NotMatchedByTarget` exactly the `Insert.` entries, in mapper order, each the plan projection at the mapped index aliased by its column |
| MergeInto.CompileMergeSource | src/MergeInto.cs:100-140 | a query source keeps the join source and the translator's parameters, with no table or column changes; an in-memory source becomes a VALUES table with one row per element, `TableChanges` set to the subquery, `ColumnChanges` set and the grid parameters appended after the translator's |
| MergeInto.CompileMergeParameters | src/MergeInto.cs:125-135 | the compiled parameters are the translator's for a query source; for an in-memory source they are followed by the grid, and none of the R×C generated names was already taken |
| MergeInto.MaterializeShape | src/MergeInto.cs:111-140 | a successful in-memory rewrite replaces the source by a VALUES table with one row per element, records the subquery and the column changes, leaves the action lists, join, target, limit and delete flag unchanged, and appends exactly the grid parameters; it read back one project per subquery projection and, after the sort, passed the `Last().i + 1 == Count` gate |
| MergeInto.CompileMergeCellsBoundToValues | src/MergeInto.cs:125-138 | in the compiled VALUES table, cell (i, j) is the parameter at position n0 + i*C + j of the parameter list, and that parameter holds property j of element i |
| MergeInto.CompileMergeUniqueParameters | src/MergeInto.cs:129-132 | when the translator's parameters have distinct names, so do the compiled parameters |
| MergeInto.Materialize | src/MergeInto.cs:111-140 | the in-memory block yields exactly `MaterializeOutcome` of the parameters before it: a non-subquery join source fails "Translate failed."; read-back failures give their exception; an empty list gives "Sequence contains no elements"; a non-contiguous index gives "Translate failed."; then the grid and the column-change dictionary |
| MergeInto.MaterializeCells | src/MergeInto.cs:125-138 | the VALUES cell (i, j) of a successful rewrite is a parameter reference named `__ap_{n0 + i*C + j}` |
| MergeInto.BuildProjects | src/MergeInto.cs:117-121 | the projects list succeeds iff every projection is a constant whose read-back index is an in-range integer; it then holds one project per projection, in order; otherwise the first failing projection's exception is thrown |
| MergeInto.BuildProjectsIndices | src/MergeInto.cs:117-121 | every project's index is within the property list and names that property |
| MergeInto.ContiguityOnDistinctIndices | src/MergeInto.cs:122-124 | on sorted, distinct, non-negative indices, "last + 1 == count" holds iff the indices are exactly 0 … n − 1 |
| MergeInto.ContiguityAdmitsRepeatedIndex | src/MergeInto.cs:122-124 | the check as written accepts the sorted indices 0, 0, 2, which are not contiguous |
| MergeInto.QueryContext.AddParameter | src/MergeInto.cs:132 | a name already present throws the duplicate-key `ArgumentException` of Dictionary.Add naming that key and leaves the parameters unchanged; otherwise the parameter is appended; distinct names stay distinct |
| MergeInto.AddNextParameter | src/MergeInto.cs:131-132 | the cell's parameter is named `__ap_{count}` after the current count; registration fails with the duplicate-key `ArgumentException` naming `__ap_{count}` iff that name was among the translator's parameters; otherwise the parameter is appended and the counter naming and freedom from clashes are kept |
| MergeInto.FillRow | src/MergeInto.cs:129-134 | the inner loop for row i registers `__ap_{start + j}` for each cell j and writes that parameter into `items[i, j]`; a clash with an earlier name stops it with the duplicate-key `ArgumentException` naming the first taken name of the grid's range, a missing `projects[j]` with `ArgumentOutOfRangeException`; other rows of `items` are untouched |
| MergeInto.FillGrid | src/MergeInto.cs:125-135 | the nested loops yield exactly `GridOutcome`: R×C parameters appended in row-major order, each cell bound to its parameter, or the first failure: the duplicate-key `ArgumentException` naming the first generated name already taken, or index-out-of-range |
| MergeInto.FillGridRow | src/MergeInto.cs:127-134 | one pass of the outer loop: a failure of row i is the grid's outcome; otherwise the parameters are those of the first i + 1 rows, still free of clashes, and row i's cells refer to `__ap_{n0 + i*C + j}`; other rows of `items` are untouched |
| MergeInto.ClashKeyAt | src/MergeInto.cs:131-132 | when the first taken name of a counter range is at position q, the key the duplicate-key exception reports is `__ap_{q}` |
| MergeInto.GridParametersNames | src/MergeInto.cs:125-135 | the grid adds exactly R×C parameters, and the k-th is named `__ap_{n0 + k}` |
| MergeInto.GridParametersCell | src/MergeInto.cs:127-134 | parameter i*C + j of the grid is `(__ap_{n0 + i*C + j}, row i's value j)` |
| MergeInto.GridParametersUnique | src/MergeInto.cs:131 | the generated names are pairwise distinct |
| MergeInto.ApNameInjective | src/MergeInto.cs:131 | distinct counters give distinct `__ap_` names |
| MergeInto.RouteColumns | src/MergeInto.cs:144-156 | the routing loop returns exactly `RouteAll` over the mapper entries |
| MergeInto.RouteAllOutcome | src/MergeInto.cs:144-156 | routing succeeds iff every entry passes its checks. The checks, in order: non-constant throws `NotSupportedException("Wrong query.")`; a name with neither `Insert.` nor `Update.` throws "Translate failed."; then the cast, the projection index, `columns[name[7..]]` and the target list. Otherwise the first failing entry's exception is the result; list presence is kept |
| MergeInto.RouteAllLists | src/MergeInto.cs:149-153 | after successful routing, `Matched` is the old list plus the `Update.` entries and `NotMatchedByTarget` the old list plus the `Insert.` entries. Each entry is in mapper order and is the plan projection at the mapped index, aliased `columns[name[7..]]` |
| MergeInto.RouteFailsAt | src/MergeInto.cs:144-156 | an entry that fails its checks after a successful prefix makes the whole routing fail with that entry's exception |
| MergeResultBinder.MergeResult | src/MergeInto.cs:170-196 | the lambda has parameters (t, s) and a `Result` initialiser. `Update` is bound iff an update is given, with the update body rebound to (t, s). `Insert` is bound iff an insert is given, with the insert body rebound to s. `Update` comes before `Insert` |
| MergeResultBinder.MergeResultScoped | src/MergeInto.cs:179-192 | for well-scoped inputs the merged body refers only to t and s, the insert binding only to s, and the update body is kept as written |
| MergeResultBinder.RebindRefs | src/MergeInto.cs:182-191 | parameter replacement sends the referenced parameters exactly through the mapping (their image) and adds none |
| MergeResultBinder.RebindIdentity | src/MergeInto.cs:182-185 | sending (0, 1) to (t, s) leaves a two-parameter body unchanged |
| Nullability.TryGetBoolConstantValue | src/RelationalSpecified/RelationalParameterBasedSqlProcessorFactory.cs:153-157 | a value iff the expression is a constant holding a bool, and then that bool |
| Nullability.NullabilityProcessor.VisitSql | src/RelationalSpecified/RelationalParameterBasedSqlProcessorFactory.cs:159-180 | a scalar visit returns exactly `SqlResult`: the custom leaves through `VisitCustomSqlExpression`, other kinds through the base; the cache flag becomes the old flag and `SqlKeepsCache`, so only the base can clear it here |
| Nullability.NullabilityProcessor.VisitPredicate | src/RelationalSpecified/RelationalParameterBasedSqlProcessorFactory.cs:93 | a null predicate stays null and keeps the flag; otherwise the predicate is visited as a scalar, with its cache effect |
| Nullability.VisitCustomSqlExpression | src/RelationalSpecified/RelationalParameterBasedSqlProcessorFactory.cs:159-180 | `AffectedRows` comes back unchanged and non-nullable; `ExcludedTableColumn` unchanged with its own `IsNullable`; anything else goes to the base processor |
| Nullability.ProjectionsResult | src/RelationalSpecified/RelationalParameterBasedSqlProcessorFactory.cs:56-70 | null maps to null; the original list is returned iff every projection came back as the same reference; otherwise a list of the same length holding each visited projection |
| Nullability.NullabilityProcessor.VisitProjections | src/RelationalSpecified/RelationalParameterBasedSqlProcessorFactory.cs:56-70 | the copy-and-overwrite loop returns exactly `ProjectionsResult`; the cache flag becomes the old flag and the cache bits of every projection's scalar visit |
| Nullability.TablesResult | src/RelationalSpecified/RelationalParameterBasedSqlProcessorFactory.cs:72-83 | the original list iff no table changed; otherwise the same count, each element the visited table in order |
| Nullability.NullabilityProcessor.VisitTables | src/RelationalSpecified/RelationalParameterBasedSqlProcessorFactory.cs:72-83 | the loop returns exactly `TablesResult`; the cache flag becomes the old flag and `TablesKeepCache`: it survives only if every table's visit keeps caching allowed; by `CacheDecisionTables` it is cleared whenever a table reaches a VALUES node |
| Nullability.NullabilityProcessor.VisitTable | src/RelationalSpecified/RelationalParameterBasedSqlProcessorFactory.cs:32-54 | the dispatch returns exactly `TableResult`: VALUES comes back unchanged and clears the cache flag; DELETE, UPDATE, SELECT INTO and UPSERT go to their own visits; any other node goes to the base, whose visit of its nested sources re-enters this dispatch. The flag becomes the old flag and `TableKeepsCache`, which also counts the base's own `DoNotCache` calls |
| Nullability.NullabilityProcessor.DoNotCache | src/RelationalSpecified/RelationalParameterBasedSqlProcessorFactory.cs:37 | clears the processor's cache flag |
| Nullability.NullabilityProcessor.VisitDelete | src/RelationalSpecified/RelationalParameterBasedSqlProcessorFactory.cs:85-105 | returns exactly `DeleteResult`, the change flag as written; the cache flag becomes the old flag and the cache bits of the joined tables and the predicate |
| Nullability.DeleteRebuiltWhenMainTableUnchanged | src/RelationalSpecified/RelationalParameterBasedSqlProcessorFactory.cs:87-88 | because the flag starts as `mainTable == Table`, a DELETE whose main table comes back unchanged is always rebuilt |
| Nullability.DeleteDiscardsRewrittenMainTable | src/RelationalSpecified/RelationalParameterBasedSqlProcessorFactory.cs:87-104 | when only the main table was rewritten, the original node is returned and the rewritten main table is lost |
| Nullability.DeleteDropsTruePredicate | src/RelationalSpecified/RelationalParameterBasedSqlProcessorFactory.cs:96-103 | a predicate that folds to constant `true` is replaced by none, and a new node holds the visited main table and joined tables |
| Nullability.NullabilityProcessor.VisitUpdate | src/RelationalSpecified/RelationalParameterBasedSqlProcessorFactory.cs:107-124 | returns exactly `UpdateResult`, with the `==` comparisons and the double visit of the tables as written; the cache flag becomes the old flag and the cache bits of the predicate, the fields and the tables |
| Nullability.UpdateDiscardsRewrittenFieldsAndTables | src/RelationalSpecified/RelationalParameterBasedSqlProcessorFactory.cs:115-123 | an UPDATE whose only changes are in its fields and tables is returned unchanged |
| Nullability.UpdateRebuiltWhenFieldsUnchanged | src/RelationalSpecified/RelationalParameterBasedSqlProcessorFactory.cs:115-122 | an UPDATE whose fields come back unchanged is always rebuilt, keeping its `Expanded` flag and its fields |
| Nullability.NullabilityProcessor.VisitSelectInto | src/RelationalSpecified/RelationalParameterBasedSqlProcessorFactory.cs:126-132 | returns exactly `SelectIntoResult`: rebuilt with the same name and schema iff the base's visit of the inner query (whose FROM sources re-enter this pass) changed it; the cache flag becomes the old flag and `SelectKeepsCache` |
| Nullability.NullabilityProcessor.VisitSelect | src/RelationalSpecified/RelationalParameterBasedSqlProcessorFactory.cs:128 | the base's visit of a SELECT returns exactly `SelectResult`: its FROM sources through this pass's table visit, then the base's own work; the cache flag becomes the old flag, the sources' cache bits and the base's bit |
| Nullability.NullabilityProcessor.VisitUpsert | src/RelationalSpecified/RelationalParameterBasedSqlProcessorFactory.cs:134-151 | returns exactly `UpsertResult`; the cache flag becomes the old flag and the cache bits of the source table and the two projection lists, so it is cleared whenever the source table reaches a VALUES node |
| Nullability.UpsertRebuiltIffPartChanged | src/RelationalSpecified/RelationalParameterBasedSqlProcessorFactory.cs:134-151 | an UPSERT is rebuilt iff the target, the source, the conflict-update list or the columns changed; the rebuilt node holds the visited parts and the same constraint name |
| Nullability.IdentityBaseKeepsContent | src/RelationalSpecified/RelationalParameterBasedSqlProcessorFactory.cs:32-151 | with a base processor that changes nothing and no literal-true DELETE predicate, the pass leaves every tree's content as it was, including the sources nested in SELECT INTO and in host nodes |
| Nullability.CacheDecision | src/RelationalSpecified/RelationalParameterBasedSqlProcessorFactory.cs:32-54 | a table source that reaches a VALUES node (directly, or through joined, updated, upsert-source, SELECT INTO or host-nested sources) never keeps caching allowed; with a base that never calls `DoNotCache`, caching stays allowed exactly when no VALUES node is reached |
| Nullability.CacheDecisionTables | src/RelationalSpecified/RelationalParameterBasedSqlProcessorFactory.cs:72-83 | the same for a list of table sources |
| Nullability.CacheDecisionSelect | src/RelationalSpecified/RelationalParameterBasedSqlProcessorFactory.cs:126-132 | the same for a SELECT, whose decision also includes the base's own bit |
| Nullability.IdentityBaseKeepsTables | src/RelationalSpecified/RelationalParameterBasedSqlProcessorFactory.cs:72-83 | the same for table lists |
| Nullability.NullabilityProcessor.Process | src/RelationalSpecified/RelationalParameterBasedSqlProcessorFactory.cs:192-202 | caching starts allowed; the processed query is the visited root; the reported flag is `SelectKeepsCache` of the root and equals the processor's field; a VALUES node among the sources makes it false |
| Nullability.Optimize | src/RelationalSpecified/RelationalParameterBasedSqlProcessorFactory.cs:212-220 | the nullability pass on a fresh processor runs first, then the rest of the base's Optimize, then the VALUES expansion on that result; caching is allowed iff the nullability pass and the base's other steps both allow it; a VALUES node forbids it, and with a base that never calls `DoNotCache` it is allowed iff no VALUES node is reached and the other steps allow it |
| DeleteExpressions.NewDeleteExpression | src/Relational/Query/SqlExpressions/DeleteExpression.cs:13-21 | fails iff the table is null, the list is null or one of its tables is null, each with its own exception; otherwise the node holds the table, the predicate and an element-wise copy of the list |
| DeleteExpressions.VisitChildren | src/Relational/Query/SqlExpressions/DeleteExpression.cs:39-66 | returns the node itself iff the table, the predicate and every joined table came back unchanged; otherwise a new node of the visited parts, joined tables in the same count and order |
| DeleteExpressions.Prints | src/Relational/Query/SqlExpressions/DeleteExpression.cs:69-92 | appends exactly `DeleteText` to the printer's text |
| DeleteExpressions.PrintJoinedTables | src/Relational/Query/SqlExpressions/DeleteExpression.cs:80-84 | the printing loop appends exactly `JoinedText` |
| DeleteExpressions.PrintFrom | src/Relational/Query/SqlExpressions/DeleteExpression.cs:76-85 | appends nothing without joined tables, otherwise a line break, `FROM ` and the joined tables' text |
| DeleteExpressions.PrintWhere | src/Relational/Query/SqlExpressions/DeleteExpression.cs:87-91 | appends a WHERE line iff a predicate is present |
| DeleteExpressions.DeleteTextShape | src/Relational/Query/SqlExpressions/DeleteExpression.cs:73-85 | the text begins with `DELETE ` and the main table; a FROM line follows iff there are joined tables |
| DeleteExpressions.JoinedTextLineBreaks | src/Relational/Query/SqlExpressions/DeleteExpression.cs:80-84 | for tables that print on one line, the loop emits exactly n − 1 line breaks (after tables 1 … n − 1, not after table 0) |
| DeleteExpressions.FromSectionLineBreaks | src/Relational/Query/SqlExpressions/DeleteExpression.cs:76-85 | for one-line tables the FROM section holds exactly one line break per joined table |
| DeleteExpressions.WhereSectionLineBreaks | src/Relational/Query/SqlExpressions/DeleteExpression.cs:87-91 | the WHERE section holds one line break if a predicate is present and none otherwise |
| DeleteExpressions.DeleteTextLineBreaks | src/Relational/Query/SqlExpressions/DeleteExpression.cs:73-91 | the whole text holds one line break per joined table plus one for a WHERE clause |
| DeleteExpressions.FirstTwoJoinedTablesAdjacent | src/Relational/Query/SqlExpressions/DeleteExpression.cs:80-84 | with two joined tables, the first two are printed with no separator between them |
| ColumnMap.ScalarEntries | src/Relational/RelationalExtensions.cs:21-22 | every scalar property p contributes `p.Name → p.ColumnName`, in order |
| ColumnMap.OwnedEntriesMembers | src/Relational/RelationalExtensions.cs:23-28 | the owned entries are exactly `"nav.col" → col.ColumnName` over owned navigations and their properties |
| ColumnMap.ColumnEntriesMembers | src/Relational/RelationalExtensions.cs:21-29 | the concatenated entries are exactly the scalar and owned pairs |
| ColumnMap.GetColumns | src/Relational/RelationalExtensions.cs:18-31 | succeeds iff no key repeats and no owned navigation without a CLR property is read; when no navigation throws, a repeated key gives the duplicate-key `ArgumentException` naming the first key that repeats an earlier one; when navigation k is the first to throw, the entries before it decide: a repeated key among them gives that `ArgumentException`, otherwise `NullReferenceException`; a built map sends every key to its column, and its key set is the scalar keys plus the owned keys |
| ColumnMap.OwnedEnumerationStops | src/Relational/RelationalExtensions.cs:23-28 | the lazy owned entries throw iff some owned navigation without a CLR property has a property to read; without one they are all the owned entries, otherwise exactly those of the navigations before the first throwing one |
| ColumnMap.FieldOnlyOwnedNavigationThrows | src/Relational/RelationalExtensions.cs:26-28 | an owned navigation backed only by a field, with at least one target property, makes GetColumns throw `NullReferenceException` at `prop.Name` |
| ColumnMap.ColumnKeys | src/Relational/RelationalExtensions.cs:21-30 | a name has a column iff it is a scalar key or an owned key |
| ColumnMap.NonOwnedNavigationIgnored | src/Relational/RelationalExtensions.cs:24-25 | adding a navigation to a non-owned type does not change the result |
| ColumnMap.ScalarShadowingOwnedPathFails | src/Relational/RelationalExtensions.cs:29-30 | a scalar property literally named `nav.col` collides with the owned path and throws |
| ColumnMap.PropertyConverters | src/Relational/RelationalExtensions.cs:39-43 | exactly the scalar properties with a converter contribute `(column, converter)` |
| ColumnMap.OwnedConverters | src/Relational/RelationalExtensions.cs:44-51 | exactly the owned properties with a converter contribute `(column, converter)` |
| ColumnMap.ConverterEntriesMembers | src/Relational/RelationalExtensions.cs:39-52 | the concatenated pairs are exactly the properties, scalar or owned, with a non-null converter |
| ColumnMap.DistinctPairsKeys | src/Relational/RelationalExtensions.cs:52-54 | after `Distinct`, keys are unique iff no key is paired with two different values |
| ColumnMap.ConsistentConvertersIff | src/Relational/RelationalExtensions.cs:52-54 | the converter map can be built iff no column has two different converters |
| ColumnMap.GetValueConverters | src/Relational/RelationalExtensions.cs:36-55 | succeeds iff converters are consistent per column, else the duplicate-key `ArgumentException` naming the first column that repeats an earlier one after `Distinct`; the map holds exactly the columns with a converter, each sent to it |
| Enumerable.ToDictionary | src/Relational/RelationalExtensions.cs:29-30 | succeeds iff keys are distinct, else the duplicate-key `ArgumentException` naming the first key already present among the earlier pairs; the key set and every entry's value are those of the pairs |
| Enumerable.ToDictionaryMembers | src/Relational/RelationalExtensions.cs:29-30 | every entry of a built dictionary is one of the pairs |
| Enumerable.Distinct | src/Relational/RelationalExtensions.cs:53 | the same elements, each once |
| Enumerable.SortByKey | src/MergeInto.cs:122 | sorted by the key and a permutation of the input |
| MergeScenarios.FirstMatch | test/Common/MergeInto.cs:128-129 | the join finds no source row iff the key is absent from the source; a found row has that key |
| MergeScenarios.TargetPartKeys | test/Common/MergeInto.cs:156-178 | the target keys after the matched and not-matched-by-source branches are all target keys, or only those also in the source when `delete` is set |
| MergeScenarios.InsertPartKeys | test/Common/MergeInto.cs:136-145 | the inserted keys are the source keys not in the target, or none without an insert branch |
| MergeScenarios.MergeRowsKeys | test/Common/MergeInto.cs:156-178 | the keys after the merge are the target keys (restricted to source keys when `delete` is set) plus, with an insert branch, the new source keys |
| MergeScenarios.MergeRowsUniqueKeys | test/Common/MergeInto.cs:47-54 | a merge of tables with unique keys keeps the keys unique |
| MergeScenarios.MergeEmptySource | src/MergeInto.cs:69-72 | merging an empty source empties the table when `delete` is set and changes nothing otherwise, which is what TRUNCATE and `SELECT 0` do |
| MergeScenarios.SeedKeysUnique | test/Common/MergeInto.cs:71-93 | the fixture's rows have unique (ContestId, TeamId) keys |
| MergeScenarios.SeedSourceKeys | test/Common/MergeInto.cs:71-73 | the RankSource keys are (2,1) and (1,2) |
| MergeScenarios.UpsertScenario | test/Common/MergeInto.cs:115-149 | the Upsert leaves three rows: (1,2) with only its public fields updated, so TotalTimeRestricted stays 9; (1,3) untouched; (3,4) inserted |
| MergeScenarios.SynchronizeScenario | test/Common/MergeInto.cs:151-187 | the Synchronize leaves two rows which, ordered by (ContestId, TeamId), have TotalTimeRestricted 86 and 100, whether or not the Upsert ran first |
| MergeScenarios.SortPair | test/Common/MergeInto.cs:180-183 | the stable sort of two rows keeps their order unless the second key is smaller |

## Left out

- Command execution: `ExecuteSqlRaw` / `ExecuteSqlRawAsync`, cancellation and the batch operation provider are dispatch to a database executor that the model does not have.
- The rendering of the statement: `GetMergeCommand` and `CreateParameter` are host code. `GetSqlMerge` stops at the MERGE tree and its ordered parameter list.
- `TranslationStrategy.Go`, the mapper `_getMapper` and `AnonymousObjectExpressionFactory` are host components. The translator is one function from the merged lambda to the plan, parameters and mapper. The target and source key selectors and the `Distinct` selector query over an in-memory list enter only through that function.
- Reflection: the element type's "is anonymous" flag, its property names and each row's values are given as data. Rows are assumed to have one value per property, which reflection guarantees.
- `ReadBack`'s body is not part of this model. It is modelled as the unboxing cast `(int)c.Value`: a null value throws `NullReferenceException`, any other non-integer value `InvalidCastException`.
- Text.StartsWith: .NET's `string.StartsWith(string)` compares culture-sensitively, the model compares ordinally. The mapper's member names are generated as the ASCII prefix `Insert.` or `Update.` followed by a property name, and for these the two comparisons agree.
- Enumerable.SortByKey: `List.Sort` is an unstable introsort; the model uses a stable insertion sort. Both give the same multiset, sorted by index, so the contiguity check and the grid behave the same. The order of projects with equal indices may differ.
- The base `SqlNullabilityProcessor`, `SearchConditionBooleanGuard`, `VisitAndConvert`'s type checks and the `ValuesExpressionParameterExpandingVisitor` are host components. They are function parameters or omitted, and their casts are assumed to succeed.
- Nullability.ReachesValues does not descend into scalar subqueries inside SQL expressions: those are the base's to visit, and the base's keep-cache bit for the expression stands for whatever they contain.
- The rest of the base's `Optimize` (the FROM SQL parameter expansion and, for SQL Server, the search-condition conversion) is a host step, the `baseRest` parameter of `Optimize`, returning the rewritten query and its own cache bit.
- `Check.NotNull` on the processor and printer arguments: the model has no null references for them.
- The build-time dialect selection (`#if SQL_SERVER` / `POSTGRE_SQL`) and the dependency-injection wiring (`ApplyServices`, the options extension info, the processor factory) are configuration, not logic.
- The printer's indentation and `Environment.NewLine` (modelled as a single `\n`) belong to the host `ExpressionPrinter`.
- The truncation condition: the code consults only `delete` when the source is empty, even if no update or insert branch is given. The model follows the code.
- MergeScenarios.MergeRows: when several source rows match one target row, the reference semantics takes the first. A real database rejects such a MERGE. The scenarios never have several matches, and the function is a reference over row lists, not a model of a database.
- MergeScenarios.UpsertUpdate and MergeScenarios.SynchronizeUpdate: a `new RankCache { … }` update is modelled as a function on the whole row that keeps the columns the initialiser does not name, as the generated `UPDATE SET` list does.
