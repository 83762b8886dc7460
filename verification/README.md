# Vespertide, modelled and proved in Dafny

Vespertide is a declarative schema-migration tool: models describe the tables, a planner turns the
difference into a plan of actions, plans are replayed to rebuild a schema and compiled into an
embedded runner, and a language server and ORM exporters sit around that. This project models its
hard cores and proves what they promise for every input, every replay and every interleaving.

| file | what it holds |
|---|---|
| `Schema.dfy`, `ColumnView.dfy` | schemas, actions, replay (`apply_action`), and the column view that replay refines |
| `Normalize.dfy` | the loops that promote inline fields to constraints, and which removed constraints they bring back |
| `References.dfy` | what renaming tables does to foreign keys, declared on the table or inline on a column |
| `TableDiff.dfy`, `DropResolution.dfy`, `RenameMeaning.dfy`, `PicksMeaning.dfy` | turning a drop and an add into a rename, in place, and why the rewritten plan means the same, for one choice and for a sequence of them |
| `RenameReplay.dfy`, `RenameFollow.dfy`, `PicksReplay.dfy` | when a rewritten plan replays although it replaces constraints, which further one it finds, and the same for a sequence of choices |
| `Prefix.dfy`, `PrefixExact.dfy`, `PrefixMisses.dfy` | prefixing every table name of a history, and exactly what the prefix does not reach |
| `SqlBlob.dfy`, `Runner.dfy`, `MigrationRaces.dfy` | the embedded runner: encoding, one run, and any number of racing and crashing runs |
| `RingCache.dfy`, `ParseCache.dfy` | the bounded cache and the parse cache under every interleaving of their steps |
| `StaleHits.dfy` | exactly which writers of model files keep the parse cache linearizable |
| `DocStore.dfy`, `Symbols.dfy` | open documents, their fingerprint shortcut, and the three symbol caches stacked on it, one call after another |
| `FingerprintRaces.dfy`, `SearchRaces.dfy` | the same calls in steps, interleaved with edits, disk changes and each other |
| `WorkspaceIndex.dfy` | the two-map table index against a specification over the event history |
| `JsonEdit.dfy` | comma-aware edits against the object grammar of section 4 of RFC 8259 |
| `ScopeNames.dfy`, `RelationNames.dfy` | identifiers and relation names the exporters allocate |
| `Trivia.dfy` | the comment-stripping guard of data migrations |
| `Common.dfy`, `Decimal.dfy`, `Ordering.dfy`, `Text.dfy` | results, numerals, string order and stable sorting, the `str` operations the code uses |

State that the source changes in place is a class whose methods are proved against a function of the
old state; concurrent code is a state machine whose events are its atomic sections, and results about
it hold for every finite sequence of events. Hash functions, parsing, `to_pascal_case`, the answers of
the file system and of the database are parameters: results hold for every choice of them, under
hypotheses stated where a result needs one. Inline fields, their promotion and their clearing are modelled
as they are in the code.

## Where the code does not do what one would expect

Each has a lemma with the inputs that show it, and the exact condition under which the code is right.

- A table cannot be renamed to itself (`RenameToItselfFails`), and a column that is added before it
  is dropped under the same name cannot be renamed (`AddThenDropIsNoRename`).
- A table rename retargets other tables' foreign keys, a drop and create does not. A later
  `ReplaceConstraint` of such a key replays in the original plan and fails in the rewritten one:
  after any plan whose later actions stand apart from the pair it replays if and only if the key does
  not point at the renamed table (`ReplaceAfterTableRename`). A rewritten plan whose replaced
  constraints the rename leaves alone always replays (`TableRenameReplays`).
- Dropping a column shortens the constraints over it, renaming it does not. A later
  `ReplaceConstraint` of the shortened index is missed in the rewritten plan (`ShortenedIndexIsMissed`);
  the constraint is found if and only if following the plan's other actions from the table with its
  column renamed ends with it (`ReplaceAfterColumnRename`, and `ReplaceAfterConstraintChanges` read off
  the actions), and `ColumnRenameReplays` is the plan that always replays.
- Defaults compare as IEEE numbers and are stored as text: `0.0` and `-0.0` are equal but render
  differently, so a rename or diff between them keeps the old text. The column view is reached exactly
  when no such pair occurs (`DiffColumnsCorrect`, `TableRenameExact`, `ColumnRenameExact`).
- Equal views do not make the column diff empty: the integer 1 and the string `"1"` render alike
  (`EqualViewsNonEmptyDiff`). `DiffColumnsEmpty` is the exact condition.
- A prefix misses three things. `RemapEnumValues` is not prefixed (`OnlyRemapMisses`). A foreign key
  declared inline on a column is not either: replacing the constraint promoted from one replays, and the
  prefixed history only under the empty prefix (`InlineReferenceMisses`); after any history, a replaced
  foreign key is found under the prefix if and only if it would be found were no foreign key declared
  inline (`ReplacedUnderPrefix`). And index names stay as they are, though removing an index clears the
  inline field of the column whose generated name `ix_{table}__{column}` it carries: a history that
  relies on that replays, and prefixed only under the empty prefix (`AutoIndexMisses`;
  `RemovedUnderPrefix` is the exact condition on the last removal of a history). `HistoryPrefixed` covers
  the histories with none of the three.
- Clearing inline fields is there so that a removed constraint is not promoted again. It works but for a
  composite constraint without a name whose group spells a generated name itself (`RemovalSticks`, with
  the constraint that comes back in `SpelledGroupComesBack`).
- The runner's comments promise that a changed migration id is detected. Once the stored versions
  decode, a migration that is not skipped has no stored id to differ from (`IdCheckIsDead`).
- Planned versions stay usable exactly while the largest one is below `i32::MAX` (`PlannedHistory`);
  the planner itself saturates at `u32::MAX`.
- The parse cache trusts modification times. A writer that gives a file a time it had before can make a
  call return the text of neither its start nor its end nor anything between (`ReusedStampGoesStale`).
  Every interleaving with given writers is linearizable if and only if a time that shows twice stands for
  one text, as far as the parser takes the texts in between (`LinearizableExactly`).
- A NUL inside a statement breaks the blob round trip (`BlobRoundTrip`).
- The symbol cache is keyed by text and length, not by format. Searches of every session are fresh if
  and only if any two formats that parse a text agree on its symbols (`FormatsExactly`, with the
  failing search in `TwoFormatsCollide`).
- No symbol key mentions the tables on disk, so a model file added between two equal searches is not
  found (`NewFileGoesUnseen`); a search none of whose keys is cached is fresh (`UncachedIsFresh`).
- A document reopened under its old version number with another text of the same length keeps the old
  fingerprint (`ReopenGoesStale`; `AcceptedExactIff` is the exact condition).
- A full fingerprint pass over documents that change meanwhile digests texts that were never open
  together (`TornPass`, where `FullPassIsAMix` is what holds in every interleaving). An accepted slot
  has no such gap as long as versions grow (`AcceptedAtOneInstant`).
- A search takes its fingerprint before it reads the documents. A change in between that is undone
  later leaves its symbols cached under the fingerprint of the undone text, where the next, undisturbed
  search finds them (`UndoneChangeShows`). `FreshExactly` is the condition: the build behind an answer
  must have read what its own call had fingerprinted, which it does when no document changed between
  the two.
- "A table always keeps its natural name" holds exactly when no two table names fold onto one
  identifier (`NaturalTableNames`). A table listed twice in a schema counts as two declarers of its enums.
- Relation names collide exactly when a number absorbs the end of a longer base name
  (`CollisionExactly`, with columns `author_id`, `author`, `author2_id` in `DigitTailsCollide`); and a key
  that repeats a column can pass for a different set of columns (`CoversExactly`).

## Model

| member | source | states |
|---|---|---|
| `Schema.SchemaFromPlans` | crates/vespertide-planner/src/schema.rs:7-15 | the two nested loops return the replay of the concatenated history, or the first error in it |
| `Schema.ReplayConcat` | crates/vespertide-planner/src/schema.rs:9-13 | replaying two stretches is replaying the second on the result of the first, errors included |
| `Schema.ToSql` | crates/vespertide-core/src/schema/str_or_bool.rs:82-95 | a rendered default is never empty |
| `ColumnView.StepRefines` | crates/vespertide-planner/src/apply/mod.rs:29-97 | every action of `apply_action` refines the step on the column view: same view where the step is defined (a missing replace target aside), failure or a repeated column name where it is not |
| `ColumnView.TableRefines` | crates/vespertide-planner/src/apply/column_ops.rs:10-147 | the same for the actions that change one table, column by column |
| `ColumnView.RenameTableRefines` | crates/vespertide-planner/src/apply/table_ops.rs:42-65 | a table rename moves the column map to the new key and touches no other table's view |
| `ColumnView.CleanExactly` | crates/vespertide-planner/src/schema.rs:7-15 | a replay from a well-formed schema stays well formed if and only if it succeeds and the view replay is defined; a rename onto an existing column name, or a created table that lists one twice, makes the difference |
| `ColumnView.ViewReplayRefined` | crates/vespertide-planner/src/schema.rs:7-15 | a replay defined on views is a replay of schemas with that view, unless a `ReplaceConstraint` finds no target |
| `Normalize.Normalized` | crates/vespertide-core/src/schema/table/normalize.rs:19-33 | the four steps in their order, loops and all, promote exactly what `Promote` says of the inline fields and constraints |
| `Normalize.AddPrimaryKey` | crates/vespertide-core/src/schema/table/normalize.rs:35-72 | one primary key over the marked columns, in order, unless there is one |
| `Normalize.CollectGroups` | crates/vespertide-core/src/schema/table/normalize.rs:109-165 | the map and the order list hold each group once, in order of first mention, with the columns that mention it in column order |
| `Normalize.AddGroups` | crates/vespertide-core/src/schema/table/normalize.rs:82-107 | each group becomes a constraint unless one like it is there, counting those just added |
| `Normalize.RemovalSticks` | crates/vespertide-planner/src/apply/constraint_ops.rs:20-79 | on a table with distinct column names, normalizing again after a removal brings the constraint back if and only if it is an unnamed one over several columns that the inline groups still make and none of the remaining ones is like it |
| `Normalize.SpelledGroupComesBack` | crates/vespertide-planner/src/apply/constraint_ops.rs:20-79 | two columns whose inline index spells a generated group name: the removed index is back after normalizing |
| `References.PromoteMapped` | crates/vespertide-core/src/schema/table/normalize.rs:19-33 | promoting inline constraints commutes with renaming the tables foreign keys point at, if no inline foreign key that gets promoted points at a renamed one |
| `References.LocalMapped` | crates/vespertide-planner/src/apply/constraint_ops.rs:6-154 | every action on one table does to the table under another name, its foreign keys retargeted, what it does to the table, errors included, unless it removes or replaces an index whose name starts like one generated for either name |
| `TableDiff.DiffColumnsCorrect` | crates/vespertide-planner/src/drop_resolution.rs:594-656 | every action of the column diff meets its precondition when replayed from the old columns; the result has exactly the new names and is the new view if and only if no shared column swaps one float zero for the other |
| `TableDiff.DiffColumnsEmpty` | crates/vespertide-planner/src/drop_resolution.rs:594-656 | the column diff is empty if and only if both lists name the same columns with equal type, nullability and default |
| `TableDiff.EqualViewsNonEmptyDiff` | crates/vespertide-planner/src/drop_resolution.rs:644-651 | equal rendered views can still give a non-empty diff |
| `TableDiff.EditActionsReplay` | crates/vespertide-planner/src/drop_resolution.rs:468-496 | the property changes after a column rename replay to exactly the merged column |
| `TableDiff.Merged` | crates/vespertide-planner/src/drop_resolution.rs:488-495 | the merged column is the new one unless the defaults are two different float zeros |
| `TableDiff.DiffConstraintsCorrect` | crates/vespertide-planner/src/drop_resolution.rs:661-684 | replaying the constraint diff turns the old constraint set into the new one and leaves the columns alone, inline fields aside; it is empty if and only if the sets agree |
| `DropResolution.FindDropResolutions` | crates/vespertide-planner/src/drop_resolution.rs:132-152 | exactly one resolution per drop, in plan order, each with its own target and its sorted candidates |
| `DropResolution.CandidatesSorted` | crates/vespertide-planner/src/drop_resolution.rs:171-250 | the candidates are every add of the same kind (and table), nothing else, closest match first and then by name |
| `DropResolution.CandidateHasAdd` | crates/vespertide-planner/src/drop_resolution.rs:183-196 | every candidate names an add that the rewrite will find |
| `DropResolution.GradeForetellsFollowUps` | crates/vespertide-planner/src/drop_resolution.rs:252-300 | the grade of a column candidate says what its rename must follow up with: nothing, changes that keep the type, or a type change first |
| `DropResolution.ExactTableKeepsItsColumns` | crates/vespertide-planner/src/drop_resolution.rs:302-339 | a table candidate is graded exact if and only if its rename neither drops nor adds a column |
| `DropResolution.MigrationPlan.ApplyRename` | crates/vespertide-planner/src/drop_resolution.rs:424-590 | the in-place removes and inserts leave exactly the rewritten action list, or the plan untouched and the right error |
| `DropResolution.MigrationPlan.ReplacePair` | crates/vespertide-planner/src/drop_resolution.rs:580-587 | removing the later action, then the earlier, then inserting one by one is one splice |
| `DropResolution.MigrationPlan.ApplyChosen` | crates/vespertide-cli/src/commands/revision/mod.rs:279-284 | the loop over the choices applies them one after another and stops at the first error |
| `DropResolution.RewriteKeepsOrder` | crates/vespertide-planner/src/drop_resolution.rs:580-587 | after a rewrite the rename stands where the earlier of the pair stood, and any two other actions are still there, in their order and on their side of it |
| `DropResolution.RewriteConserves` | crates/vespertide-planner/src/drop_resolution.rs:391-406 | counted as a multiset, the rewritten plan is the plan minus the pair plus the replacement |
| `DropResolution.RewriteKeeps` | crates/vespertide-planner/src/drop_resolution.rs:391-406 | whatever matches neither of the pair's keys can still be found afterwards |
| `DropResolution.PicksApply` | crates/vespertide-planner/src/drop_resolution.rs:391-406 | choices with distinct sources and distinct new names always apply, in any order, although indices shift |
| `DropResolution.FoundPicksOffered` | crates/vespertide-planner/src/drop_resolution.rs:126-152 | choices taken from the discovered candidates meet that lemma's hypothesis |
| `PicksMeaning.PicksPreserveMeaning` | crates/vespertide-cli/src/commands/revision/mod.rs:279-284 | choices that are independent and whose pairs nothing else in the plan names leave, applied one after another, a plan that replays to the original's column view |
| `PicksReplay.PicksReplay` | crates/vespertide-cli/src/commands/revision/mod.rs:279-284 | the plan that such choices leave replays although it replaces constraints, to the same column view, if each choice meets what one rename asks of the other actions and no two renamed tables are tied by foreign keys |
| `RenameMeaning.TableFrameReplay` | crates/vespertide-planner/src/apply/mod.rs:29-97 | a run of actions that never names a set of tables does the same on two views that differ only there, and leaves those tables alone |
| `RenameMeaning.ColumnFrameReplay` | crates/vespertide-planner/src/apply/column_ops.rs:10-147 | the same for a set of columns of one table |
| `RenameMeaning.TableRenamePreservesMeaning` | crates/vespertide-planner/src/drop_resolution.rs:520-590 | if the pair is the only mention of either table up to the later of the two, the rewritten plan replays to the same column view whatever unrelated actions surround it |
| `RenameMeaning.TableRenameExact` | crates/vespertide-planner/src/drop_resolution.rs:520-590 | when no later action names the new table the views agree if and only if no column swaps float zeros |
| `RenameMeaning.ColumnRenamePreservesMeaning` | crates/vespertide-planner/src/drop_resolution.rs:424-516 | if nothing else touches either column up to the later of the pair, the rewritten plan replays to the same column view |
| `RenameMeaning.ColumnRenameExact` | crates/vespertide-planner/src/drop_resolution.rs:424-516 | when no later action touches the new column the views agree if and only if the defaults are not two different float zeros |
| `RenameMeaning.RenameToItselfFails` | crates/vespertide-planner/src/apply/table_ops.rs:42-65 | dropping and recreating one table rewrites to a plan whose replay stops with `TableExists` |
| `RenameMeaning.AddThenDropIsNoRename` | crates/vespertide-planner/src/apply/column_ops.rs:65-80 | a column added and dropped again rewrites to a plan whose replay stops with `ColumnNotFound` |
| `RenameReplay.StepSettled` | crates/vespertide-planner/src/apply/mod.rs:29-97 | no action leaves an inline foreign key without a foreign key constraint on its column |
| `RenameReplay.TableRenameReplays` | crates/vespertide-planner/src/apply/table_ops.rs:42-65 | a rewritten plan replays although it replaces constraints, if the actions behind the pair handle no foreign key to its tables and replace no constraint on them; it ends with the same column view and every other table the same but for its foreign keys, which follow the rename |
| `RenameReplay.ReplaceAfterTableRename` | crates/vespertide-planner/src/apply/table_ops.rs:42-65 | one more replaced constraint of another table is found in the rewritten plan if and only if it is not a foreign key to the renamed table |
| `RenameReplay.ColumnRenameReplays` | crates/vespertide-planner/src/apply/column_ops.rs:46-80 | the same for a column: constraints of other tables may be replaced, and those of the table that mention neither column if the original pair leaves such constraints alone; every other table ends up unchanged |
| `RenameFollow.ReplaceAfterColumnRename` | crates/vespertide-planner/src/apply/column_ops.rs:46-80 | behind any plan that `ColumnRenameReplays` covers, one more replaced constraint of the table is found in the rewritten plan if and only if the constraint is there once the plan's other actions are followed from the table with its column renamed |
| `RenameFollow.ReplaceAfterConstraintChanges` | crates/vespertide-planner/src/apply/column_ops.rs:46-80 | if the other actions behind the pair drop, add and rename no column of the table and replace none of its constraints, it is found if and only if the last of them to add or remove that very constraint adds it, or none does and it is what the rename makes of a constraint the table had before the pair |
| `RenameReplay.ShortenedIndexIsMissed` | crates/vespertide-planner/src/apply/column_ops.rs:46-80 | an index over two columns, one of them dropped: replacing the shortened index replays, in the rewritten plan it is not found |
| `Prefix.PrefixTwice` | crates/vespertide-core/src/action/prefix.rs:23-154 | prefixing by p and then q is prefixing by q + p, on every action |
| `Prefix.HistoryPrefixed` | crates/vespertide-core/src/action/prefix.rs:6-154 | the prefixed history replays exactly when the history does and yields the same column view under prefixed keys, for histories that remap no enum, remove or replace no index whose name starts like one generated for its table before or after prefixing, and replace foreign keys only if none is declared inline; each is read off the actions |
| `PrefixExact.ReplacedUnderPrefix` | crates/vespertide-core/src/action/prefix.rs:6-154 | after any history of the kind `HistoryPrefixed` covers that replaces no foreign key itself, replacing one works under the prefix if and only if it works after the history with its inline foreign keys taken out |
| `PrefixMisses.InlineReferenceMisses` | crates/vespertide-core/src/action/prefix.rs:6-154 | a history that replaces the constraint promoted from an inline foreign key replays, and its prefixed form if and only if the prefix is empty |
| `PrefixMisses.ClearedExactly` | crates/vespertide-planner/src/apply/constraint_ops.rs:121-154 | removing an index by name clears the same fields under two table names if and only if each column for which just one of them generates that name has no other index group |
| `PrefixMisses.RemovedUnderPrefix` | crates/vespertide-planner/src/apply/constraint_ops.rs:20-154 | after any history of the kind `HistoryPrefixed` covers, removing an index by name leaves the prefixed schema if and only if that condition holds of the table's columns |
| `PrefixMisses.AutoIndexMisses` | crates/vespertide-core/src/schema/constraint.rs:212-239 | a history that removes an index by its generated name and replaces a group promoted later replays, and its prefixed form if and only if the prefix is empty |
| `Prefix.OnlyRemapMisses` | crates/vespertide-core/src/action/prefix.rs:113-154 | prefixing commutes with an action's step on every view if and only if the action is not `RemapEnumValues` |
| `SqlBlob.WriteSqlBlob` | crates/vespertide-macro/src/lib.rs:243-251 | the loop writes every statement followed by a NUL, in order |
| `SqlBlob.BlobRoundTrip` | crates/vespertide/src/runtime.rs:70-72 | splitting an encoded blob returns exactly the non-empty statements in order, if and only if none holds a NUL |
| `Runner.EmbeddedStatements` | crates/vespertide/src/runtime.rs:59-72 | an embedded migration runs the statements the macro was given, the empty ones dropped |
| `Runner.CurrentVersionIsMax` | crates/vespertide/src/runtime.rs:268-279 | the version read is the largest stored one if it decodes as a non-negative `i32`, and 0 otherwise |
| `Runner.IdCheckIsDead` | crates/vespertide/src/runtime.rs:281-308 | when every stored version decodes, no migration that is not skipped can fail the id comparison |
| `Runner.Execute` | crates/vespertide/src/runtime.rs:317-329 | statements run in order up to the first the database refuses, which is the one reported |
| `Runner.ApplyPending` | crates/vespertide/src/runtime.rs:293-346 | the loop is the fold that skips covered versions, compares ids, runs statements, inserts the row and stops at a failure |
| `Runner.RunsExactlyPending` | crates/vespertide/src/runtime.rs:293-346 | a loop that goes through ran exactly the pending migrations' statements, in order, and stored exactly their rows |
| `Runner.DivergenceNeedsMismatch` | crates/vespertide/src/runtime.rs:298-308 | the divergence error arises only from a pending migration with a stored, different, non-empty id |
| `Runner.Database.ReadVersion` | crates/vespertide/src/runtime.rs:268-279 | scanning the rows yields that version |
| `Runner.Database.Run` | crates/vespertide/src/runtime.rs:208-353 | when a run succeeds and with which error it fails; a failed run leaves only the version table, a successful one exactly the pending migrations |
| `MigrationRaces.CommittedAtMostOnce` | crates/vespertide/src/runtime.rs:222-352 | in every interleaving of running, crashing and refused runs the committed rows and statements are those of a prefix of the history, each migration once and in order, all owned by finished runs, and every finished run's list is covered |
| `MigrationRaces.OnlyFinishingCommits` | crates/vespertide/src/runtime.rs:348-350 | committed state changes only when a run finishes, and then by its whole transaction |
| `MigrationRaces.CommitExtends` | crates/vespertide/src/runtime.rs:222-224 | a commit that passes the primary-key check continues exactly where the committed history ends |
| `MigrationRaces.RerunIsQuiet` | crates/vespertide/src/runtime.rs:293-296 | after a success, a run of the same or an older build that had not begun sends no migration statement, whatever else happens |
| `MigrationRaces.PlannedHistory` | crates/vespertide-planner/src/plan.rs:20-35 | appending the planned version keeps the history valid for the runner if and only if the largest version is below `i32::MAX` |
| `RingCache.Cache.Get` | crates/vespertide-lsp/src/cache.rs:74-82 | the first locked section returns the cached object if there is one |
| `RingCache.Cache.Put` | crates/vespertide-lsp/src/cache.rs:84-105 | the second locked section keeps an entry that appeared meanwhile, otherwise evicts the oldest when full and appends |
| `RingCache.Cache.GetOrCompute` | crates/vespertide-lsp/src/cache.rs:70-106 | an undisturbed call returns what is now cached under the key and changes the cache only on a miss |
| `RingCache.EveryRunCoherent` | crates/vespertide-lsp/src/cache.rs:70-106 | in every interleaving map and queue hold the same keys once each, at most max(N,1) of them, the queue is the end of the insert log, and every result is the plain computation's |
| `RingCache.OneObjectPerResidency` | crates/vespertide-lsp/src/cache.rs:70-106 | calls ending during one residency of a key all return the same shared object |
| `RingCache.InsertionReturnsItsObject` | crates/vespertide-lsp/src/cache.rs:84-105 | the call that starts a residency returns the object it made resident |
| `ParseCache.WorkspaceTables.CachedParse` | crates/vespertide-lsp/src/workspace_tables.rs:157-191 | an undisturbed call answers from a matching entry or from the file, and stores only what it read and parsed |
| `ParseCache.WorkspaceTables.Install` | crates/vespertide-lsp/src/workspace_tables.rs:72-107 | a refresh replaces the table set and forgets every cached tree |
| `ParseCache.HitJustified` | crates/vespertide-lsp/src/workspace_tables.rs:158-169 | a hit on a modification time names an instant inside the call at which the file had the cached text, if modification times tell what files hold |
| `ParseCache.Linearizable` | crates/vespertide-lsp/src/workspace_tables.rs:157-191 | in every interleaving with refreshes, deletions and writes under any modification times, if those tell what the files hold, as forward-moving ones do, a finished call reports what reading and parsing would have given at one instant between its start and its return |
| `StaleHits.LinearizableExactly` | crates/vespertide-lsp/src/workspace_tables.rs:157-191 | all calls in all interleavings with given writes and deletions are explained so if and only if a modification time that shows twice for a file stands for one text, texts in between that do not parse aside |
| `StaleHits.ReusedStampGoesStale` | crates/vespertide-lsp/src/workspace_tables.rs:157-191 | for any other writers there is a schedule with a stale hit: store between the two, look up after the second |
| `ParseCache.GenerationNeverAhead` | crates/vespertide-lsp/src/workspace_tables.rs:72-115 | whoever reads generation g and then the tables sees at least the g-th installed set |
| `DocStore.DocumentStore.Open` | crates/vespertide-lsp/src/store.rs:35-39 | opening replaces or adds the document |
| `DocStore.DocumentStore.UpdateFull` | crates/vespertide-lsp/src/store.rs:42-46 | a change to a document that is not open is ignored |
| `DocStore.DocumentStore.Close` | crates/vespertide-lsp/src/store.rs:49-51 | closing removes exactly that document |
| `DocStore.DocumentStore.OpenUris` | crates/vespertide-lsp/src/store.rs:96-100 | the result is the one sorted listing of the open uris, whatever order the map yields |
| `DocStore.FingerprintCache.Cached` | crates/vespertide-lsp/src/cache.rs:183-204 | the slot answers if and only if store, document count and every entry's version and length are unchanged |
| `DocStore.FingerprintCache.Fingerprint` | crates/vespertide-lsp/src/cache.rs:162-225 | an accepted slot is returned unchanged, any other is replaced by a full pass whose value is returned |
| `DocStore.AcceptedUris` | crates/vespertide-lsp/src/cache.rs:183-204 | equal count and distinct entries force the same uri list |
| `DocStore.ShortcutIsExact` | crates/vespertide-lsp/src/cache.rs:162-225 | after any session of edits and undisturbed calls in which version and length determine the text, the shortcut returns what hashing every open document returns |
| `DocStore.AcceptedExactIff` | crates/vespertide-lsp/src/cache.rs:183-204 | an accepted slot is exact if and only if no text changed since it was filled |
| `DocStore.ReopenGoesStale` | crates/vespertide-lsp/src/cache.rs:183-204 | open, ask, reopen under the same version with another text of the same length, ask: the slot is accepted and the second answer is the first one |
| `FingerprintRaces.AcceptedAtOneInstant` | crates/vespertide-lsp/src/cache.rs:162-225 | in every interleaving with edits and other calls an accepted slot is the digest of all open documents at one instant of the call, if each change raises a document's version |
| `FingerprintRaces.FullPassIsAMix` | crates/vespertide-lsp/src/cache.rs:206-226 | a full pass digests, in sorted order, documents each of which was open with that text at some instant of the call |
| `FingerprintRaces.ExactOverSteadyDocuments` | crates/vespertide-lsp/src/cache.rs:162-225 | either way the value is the digest of the open documents if they do not change during the call and version and length determine the text |
| `FingerprintRaces.TornPass` | crates/vespertide-lsp/src/cache.rs:206-226 | two documents that change between their turns: the value digests two texts that were never open together |
| `Symbols.AsciiCiContains` | crates/vespertide-lsp/src/symbols.rs:320-338 | the nested loops decide whether the needle occurs, ASCII case aside |
| `Symbols.BuildWorkspaceSymbolList` | crates/vespertide-lsp/src/symbols.rs:160-213 | the two loops over open documents and disk tables yield the sorted list that goes through the symbol cache |
| `Symbols.DirectIsSorted` | crates/vespertide-lsp/src/symbols.rs:111-143 | the reference answer is in order and is exactly the matching symbols of open documents and unopened disk files |
| `Symbols.ComputeSharedExact` | crates/vespertide-lsp/src/symbols.rs:111-143 | one search through correct caches answers like the reference and leaves all three caches correct: to the letter if the formats in play agree to the letter, up to ties otherwise |
| `Symbols.UncachedIsFresh` | crates/vespertide-lsp/src/symbols.rs:111-143 | a search neither of whose keys is cached is fresh whatever the two caches hold |
| `Symbols.SearchesAreFresh` | crates/vespertide-lsp/src/symbols.rs:111-213 | after any session of edits and undisturbed searches, over uris whose formats agree wherever both parse, a search returns the fresh filtered and sorted list |
| `Symbols.FormatsExactly` | crates/vespertide-lsp/src/symbols.rs:160-213 | searches of every session over a set of uris are fresh up to ties if and only if their formats agree on every text both parse |
| `Symbols.TwoFormatsCollide` | crates/vespertide-lsp/src/symbols.rs:160-213 | one text open in two formats that disagree on it: a search for everything is not the fresh one |
| `Symbols.RepeatedSearchIgnoresDisk` | crates/vespertide-lsp/src/symbols.rs:111-143 | a repeated search keeps its answer when only the disk changed |
| `Symbols.NewFileGoesUnseen` | crates/vespertide-lsp/src/symbols.rs:111-143 | search, add a model file, search again: the second answer is empty and the fresh one is not |
| `SearchRaces.AnswersOfOneBuild` | crates/vespertide-lsp/src/symbols.rs:111-213 | in every interleaving with edits, disk changes and other searches, an answer is the fresh list for what one build read, a build of a call with the same fingerprint that read each document and file as it was at an instant after that fingerprint |
| `SearchRaces.FreshExactly` | crates/vespertide-lsp/src/symbols.rs:111-143 | in every interleaving an answer is the fresh one for the fingerprinted documents if nothing changed between the fingerprint and the build of the call it comes from; where different texts show different symbols, if and only if that build read what had been fingerprinted |
| `SearchRaces.FilesOfOneDisk` | crates/vespertide-lsp/src/symbols.rs:183-204 | the files behind an answer are those of the disk if it did not change while they were read |
| `SearchRaces.UndoneChangeShows` | crates/vespertide-lsp/src/symbols.rs:111-143 | a change between fingerprint and build that is undone later: the next, undisturbed search answers with the symbols of the undone text, and is fresh only if both texts show the same |
| `WorkspaceIndex.WorkspaceIndex.Upsert` | crates/vespertide-lsp/src/workspace_index.rs:61-82 | the old name is given up only if it still points at the document, the new one is taken, and the previous name is returned |
| `WorkspaceIndex.WorkspaceIndex.Remove` | crates/vespertide-lsp/src/workspace_index.rs:88-95 | the document and the name it still owns disappear |
| `WorkspaceIndex.WorkspaceIndex.Find` | crates/vespertide-lsp/src/workspace_index.rs:102-108 | the lookup answers from the name map |
| `WorkspaceIndex.HistoryDetermines` | crates/vespertide-lsp/src/workspace_index.rs:61-108 | over every history a lookup finds a document if and only if it was the last to claim the name and nothing has happened to it since; every name entry agrees with the uri map |
| `WorkspaceIndex.OwnershipIsOneToOne` | crates/vespertide-lsp/src/workspace_index.rs:61-108 | a document owns at most one name and a name has at most one owner |
| `JsonEdit.InsertIsCorrect` | crates/vespertide-lsp/src/code_actions.rs:474-498 | insertion turns any well-formed object inside any document into a well-formed one with exactly one more pair, at the end, and changes nothing around it |
| `JsonEdit.RemoveIsCorrect` | crates/vespertide-lsp/src/code_actions.rs:500-535 | removal of any pair leaves a well-formed object with exactly that pair gone and changes nothing around it |
| `JsonEdit.RemoveUndoesInsert` | crates/vespertide-lsp/src/code_actions.rs:474-535 | removing the pair just inserted restores the document |
| `JsonEdit.RemovePairEdit` | crates/vespertide-lsp/src/code_actions.rs:500-535 | the removed range covers the pair and stays inside the object |
| `JsonEdit.PairSpan` | crates/vespertide-lsp/src/code_actions.rs:505-514 | the offsets handed to the removal are those of the pair's own text |
| `ScopeNames.ClaimBinding` | crates/vespertide-exporter/src/utils/common.rs:185-200 | the numbering loop ends, returns the preferred name or its first free numbered form, and records it |
| `ScopeNames.CollectTableEnums` | crates/vespertide-exporter/src/enum_scan.rs:16-27 | the enums of a table, each once, in the order of first declaration |
| `ScopeNames.EnumsOf` | crates/vespertide-exporter/src/enum_scan.rs:16-27 | exactly the declared enums, without repetition |
| `ScopeNames.IdentifiersSharedAcrossTables` | crates/vespertide-exporter/src/scope_names.rs:136-155 | the counting loops return exactly the identifiers two or more schema entries declare |
| `ScopeNames.ScopeNames.Collect` | crates/vespertide-exporter/src/scope_names.rs:41-73 | the loops claim every table and then every table's enums, qualifying those that are shared or taken |
| `ScopeNames.ScopeNames.ClaimMember` | crates/vespertide-exporter/src/scope_names.rs:77-88 | one member is claimed, unless it has a name already |
| `ScopeNames.ScopeNames.ClaimKey` | crates/vespertide-exporter/src/scope_names.rs:92-97 | the first claim for a key stands |
| `ScopeNames.ScopeNames.TableName` | crates/vespertide-exporter/src/scope_names.rs:102-106 | a table outside the schema has no name |
| `ScopeNames.ClaimKeeps` | crates/vespertide-exporter/src/scope_names.rs:92-97 | a claim keeps all identifiers distinct, records exactly those handed out and changes none of them |
| `ScopeNames.IdentifiersAreDistinct` | crates/vespertide-exporter/src/scope_names.rs:41-97 | after collecting and any run of member claims no two things share an identifier, and every table, declared enum and claimed member has one |
| `ScopeNames.TableNamesIgnoreEnums` | crates/vespertide-exporter/src/scope_names.rs:41-97 | table identifiers depend on the list of table names alone and never change later |
| `ScopeNames.NaturalTableNames` | crates/vespertide-exporter/src/scope_names.rs:36-52 | every table keeps its natural name if and only if no two table names fold onto one identifier |
| `ScopeNames.BareEnumsAreUnshared` | crates/vespertide-exporter/src/scope_names.rs:36-71 | an enum carries its bare identifier only if no other entry declares the same one |
| `ScopeNames.BareExactly` | crates/vespertide-exporter/src/scope_names.rs:55-71 | an enum claimed for the first time gets its bare identifier if and only if no other entry shares it and nothing holds it yet |
| `Decimal.NumeralInjective` | crates/vespertide-exporter/src/utils/common.rs:192-199 | distinct numbers have distinct numerals, so numbered candidates never repeat |
| `RelationNames.FkRelationNames` | crates/vespertide-exporter/src/constraint_scan.rs:182-209 | exactly the foreign keys get a name, the base with its place among the keys of the same target and base |
| `RelationNames.CollisionExactly` | crates/vespertide-exporter/src/constraint_scan.rs:182-209 | two foreign keys with one target share a name if and only if the number of one spells the end of the other's longer base name and its number |
| `RelationNames.NamesAreDistinct` | crates/vespertide-exporter/src/constraint_scan.rs:182-209 | names within one target are pairwise distinct when no base name is another followed by digits |
| `RelationNames.DigitTailsCollide` | crates/vespertide-exporter/src/constraint_scan.rs:182-209 | columns `author_id`, `author` and `author2_id` of `post` give two relations the name `PostAuthor2` |
| `RelationNames.CollectBackRelations` | crates/vespertide-exporter/src/constraint_scan.rs:229-302 | the loops list one entry per foreign key to the target, in schema and constraint order, with its columns, referenced columns and reference actions |
| `RelationNames.BothEndsAgree` | crates/vespertide-exporter/src/constraint_scan.rs:229-302 | the returned list has exactly one entry per foreign key to the target, each at its own place, and a name given there is the forward side's |
| `RelationNames.CoversExactly` | crates/vespertide-exporter/src/constraint_scan.rs:265-279 | the one-to-one test means equal column sets for every foreign key if and only if the key lists no column twice |
| `RelationNames.RepeatedKeyColumnMisleads` | crates/vespertide-exporter/src/constraint_scan.rs:265-279 | a key over `a, a` passes for the foreign key over `a, b` |
| `Trivia.StripLeadingTrivia` | crates/vespertide-core/src/action/data_migration.rs:126-138 | the loop ends and computes the recursive stripping |
| `Trivia.Strip` | crates/vespertide-core/src/action/data_migration.rs:126-138 | what is left starts with neither a blank nor a comment opener |
| `Trivia.StripTwice` | crates/vespertide-core/src/action/data_migration.rs:126-138 | stripping is idempotent |
| `Trivia.TriviaIsInvisible` | crates/vespertide-core/src/action/data_migration.rs:126-170 | any run of blanks, newline-ended line comments and closed block comments in front changes neither what is left nor the keyword found |
| `Trivia.OnlyTriviaIsStripped` | crates/vespertide-core/src/action/data_migration.rs:126-138 | conversely, what was stripped is such a run, or it ends in a comment that never closes and nothing is left |
| `Trivia.OneKeywordMatches` | crates/vespertide-core/src/action/data_migration.rs:144-170 | a keyword is reported if and only if the stripped text opens with it as a whole token; no two ever match |
| `Trivia.NestedCommentHides` | crates/vespertide-core/src/action/data_migration.rs:120-138 | comments do not nest, so the rest of an outer one hides any keyword behind it |

## Left out

- RenameMeaning.TableRenamePreservesMeaning: speaks of the column view; comments and column order are not compared. A plan holding a `ReplaceConstraint` may stop at it; `RenameReplay` says when it does not.
- RenameMeaning.ColumnRenamePreservesMeaning: speaks of the column view in the same way.
- RenameMeaning.TableRenameExact: asks that no later action name the new table, because one may overwrite the differing default; likewise for `ColumnRenameExact` and the new column.
- RenameReplay.TableRenameReplays: speaks of the actions behind the earlier of the pair as they are in the plan; a later action on one of the two tables is left to `TableRenamePreservesMeaning`. Every inline foreign key of the baseline must have been promoted, as replay always does (`StepSettled`).
- PicksMeaning.PicksPreserveMeaning: says nothing of a plan that replaces constraints and stops at one; `PicksReplay` says when none does.
- PicksReplay.PicksReplay: leaves choices between tables tied by foreign keys aside, where one rename retargets the keys another handles, and asks that no constraint be replaced on the table of a chosen column.
- PrefixExact.ReplacedUnderPrefix: asks that no inline foreign key name a table that starts with the prefix already, which under the prefix it would be taken for.
- Prefix.HistoryPrefixed: leaves histories with `RemapEnumValues`, with a replaced foreign key and an inline one, or with an index that goes under a name starting like a generated one, to the lemmas that show them fail.
- RelationNames.NamesAreDistinct: is the documented sufficient condition; `CollisionExactly` is the exact one.
- ScopeNames.BareEnumsAreUnshared: the converse needs that no other table or enum has taken the bare identifier first, which `BareExactly` states at the moment of the claim.
- JsonEdit.InsertIsCorrect: pairs are opaque texts and offsets count characters, where the source counts bytes of the same positions.
- DocStore.ShortcutIsExact: a call is one event; `FingerprintRaces` has it in steps, and likewise `SearchRaces` for Symbols.SearchesAreFresh.
- Symbols.SearchesAreFresh: a search is one event and the disk is fixed; `SearchRaces` splits it up and lets the disk change.
- DocStore.FingerprintCache.Fingerprint: is the undisturbed call; the locked and the unlocked part are separate events in `FingerprintRaces`.
- FingerprintRaces.AcceptedAtOneInstant: counting the open documents and listing their uris are atomic here, where the concurrent map visits its shards one after another; reading one entry is atomic in both.
- SearchRaces.AnswersOfOneBuild: the three cache steps and each read of a document or file are atomic; reading a file through the parse cache is one plain read, which `ParseCache.Linearizable` justifies; table files are listed by uri, and each is the file of one table.
- MigrationRaces.CommittedAtMostOnce: a transaction is a private copy with a primary-key check at commit, so databases whose schema statements commit implicitly (MySQL) are outside it.
- Inline fields that do not normalize (a foreign key text that does not parse, an index group that lists a column twice) are a flag of the column that makes creating or adding it fail; two columns of one name in one index group, which fail too, are not told from others.
- `diff_schemas`, the validators, SQL generation and the fill strategies of actions: separate subjects that the modelled results do not need.
- `swap_reversed_between` and `literal_greater`: one-step literal comparisons that would add easy members.
- The rendered type and difference texts of candidates, `sql_preview`, timeouts, logging and error texts.
- tree-sitter parsing, symbol extraction and UTF-16 positions: parameters.
- Lock poisoning, memory exhaustion and the overflow of machine-sized counters.
