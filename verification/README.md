# Verified model of the analysis backend's persistence, answers and tooling

This project models the parts of the repository whose correctness is hard to see from any one
function, and proves what they are for.

- **The stored database** (`Relational`, `Schemas`, `Revisions`, `Ownership`, `UpgradeChain`,
  `DeclaredSchema`, `Migrations`, `UpgradeRun`). Tables are rows under constraints: NOT NULL, primary keys, uniques,
  partial unique indexes, foreign keys, one CHECK. Each Alembic revision is a partial function on
  databases, and the class `Database` carries the revisions out step by step against it.
- **The optimistic commit protocol** (`MemoryStore`, `Turns`, `TurnHistory`, `MemoryRepository`,
  `MemoryTable`, `OwnerSimulation`). A commit of the SQLite repository is a check and a later write, with the
  steps of any other turns in between; the in-memory repository does the same under one lock.
- **The offline sales oracle** (`Numerals`, `Decimals`, `FixedPoint`, `RetailColumns`,
  `Reconciliation`, `RetailProfile`, `RetailGroups`, `LongPrices`, `HugePrices`): int64 columns with
  wrap-around, the two overflow guards, grouping, and an independent loop in decimals rounded to 28
  digits.
- **Text machines** (`HistoricalSections`, `Annotations`). `Selections` speaks of the elements at
  increasing positions of a sequence.
- **Answers from an untrusted model** (`AnswerContexts`, `AnswerService`, `NaturalAnswer`). A
  provider is any function from everything it was asked so far to a reply.
- **The API projection** (`PercentEncoding`, `PublicProduct`) and **the drain protocol** of the
  acceptance run (`DrainProtocol`).

`dafny verify dfyconfig.toml` checks everything.

## What the proofs bring to light

Where the code differs from what its comments say, the model follows the code.

- `mark_failed` asks for no status. On a committed row below the latest it leaves a gap in the
  version chain (`ChainKeptIff`), and between the check and the write of a commit on the same row it
  is overwritten (`FailedStaysIff`). Turns that follow the pipeline do neither.
- The index revision notes that pending rows always have version 0. `create_pending` stores whatever
  version its caller passes; it is the pipeline that passes 0. No result here needs it, because the
  index covers committed rows only.
- The initial single-column foreign key accepts a child whose conversation is of the other mode;
  the composite one does not, and the upgrade itself does not notice, since enforcement is off. It
  is the foreign key check at the end of the ownership revision that stops such a database.
- The revisions and the ORM models agree on every constraint but differ in two things that no
  constraint depends on: the models put the conversation before the mode in the primary key of the
  conversations, and declare the single-column indexes without the owner, where the migrated ones
  have it in front (`ChainEndsInDeclaredSchema`).
- The guards of the sales oracle take absolute values in int64, where that of -2^63 is itself. A
  quantity of -2^63 therefore passes them; `AmountsExactIff` gives the exact condition.
- Decimal products are rounded to 28 digits. A price of 29 digits can therefore pass the price check
  with units it does not have, and then the reconciliation may raise. `PriceCheckIff` gives the exact
  condition for the check, and `AlwaysReconcilesIff` the exact condition on rows for tables made of
  them always to reconcile.
- The cast of the price units to int64 does not refuse units from 2^63 to 2^64 - 1 in a column without
  negative ones: it stores them as negative numbers. On a counted row the reconciliation then raises
  (`MisfitRaises`); on a cancelled one a wrong raw amount is printed (`CancelledHugePriceWraps`).
- A cut cell is 103 characters long, so a context rebuilt from its own rows has the same rows but
  reports truncation again, exactly when a cell had been cut.
- A teardown of the acceptance run that is cancelled while it waits does not restore `execute`.

## Model

| member | source | states |
|---|---|---|
| `Ownership.OwnershipFactors` | backend/alembic/versions/f63a1b2c3d40_m6_3_resource_ownership.py:42-72 | For every schema the loop can process and every database in its migrated form: all constraints hold if and only if every owner's slice satisfies the constraints from before, every row's owner is registered, the surrogate primary keys left outside COMPOSITE_PK are unique across owners, and the owners' table is valid |
| `Ownership.KeyFactors` | backend/alembic/versions/f63a1b2c3d40_m6_3_resource_ownership.py:54-60 | A key prefixed with owner_id is unique if and only if the unprefixed key is unique within every owner's rows |
| `Ownership.ForeignFactors` | backend/alembic/versions/f63a1b2c3d40_m6_3_resource_ownership.py:61-68 | Prefixed references resolve if and only if they resolve within every owner's own rows |
| `Ownership.MigrationIsLegacySlice` | backend/alembic/versions/f63a1b2c3d40_m6_3_resource_ownership.py:38-53 | The migrated rows are exactly the old ones in the local:legacy slice; every other owner's slice is empty |
| `Ownership.MigrationCheckPasses` | backend/alembic/versions/f63a1b2c3d40_m6_3_resource_ownership.py:73-74 | The closing foreign key check passes exactly when the foreign keys held before the revision |
| `Ownership.MigrationKeepsValidity` | backend/alembic/versions/f63a1b2c3d40_m6_3_resource_ownership.py:42-74 | The migrated database satisfies every constraint exactly when the original one did |
| `Ownership.TargetsStayKeyed` | backend/alembic/versions/f63a1b2c3d40_m6_3_resource_ownership.py:54-67 | Prefixed foreign keys still name a key of their parent exactly when none of them referred to a surrogate key that the loop leaves unprefixed |
| `Ownership.MergeIsSafeIffDisjoint` | backend/alembic/versions/f63a1b2c3d40_m6_3_resource_ownership.py:3-4 | Dropping owner_id again leaves a valid database if and only if no two owners use the same value of any key, hence forward-only |
| `Migrations.Database.ScopeTable` | backend/alembic/versions/f63a1b2c3d40_m6_3_resource_ownership.py:42-72 | One pass of the loop body, constraint by constraint, replaces one table by its owner-scoped form and touches no other |
| `Migrations.Database.UpgradeOwnership` | backend/alembic/versions/f63a1b2c3d40_m6_3_resource_ownership.py:25-74 | The loop over TABLES, in order, ends in the owner-scoped database, where every primary key has the owner in front of it except those of work_memories, pending_clarifications and result_snapshots; it is accepted exactly when the foreign keys resolve |
| `Schemas.UpgradeKeepsRows` | backend/alembic/versions/01dc0d90d920_m4_0_corrective_composite_conversation_.py:105-183 | On a database that satisfies the old keys the composite-key upgrade never fails, keeps every row of every table, and satisfies all new keys |
| `Schemas.UpgradeForeignsIff` | backend/alembic/versions/01dc0d90d920_m4_0_corrective_composite_conversation_.py:112-183 | After the upgrade the composite foreign keys hold if and only if every memory, snapshot and clarification has a conversation with its own runtime_mode |
| `Schemas.SingleKeyAllowsCrossMode` | backend/alembic/versions/42821213393c_m4_0_initial_schema_conversations_work_.py:72-98 | A database that is fully valid under the initial single-column foreign keys, yet has a child whose conversation is of the other mode |
| `Schemas.DowngradeIff` | backend/alembic/versions/01dc0d90d920_m4_0_corrective_composite_conversation_.py:188-260 | The downgrade succeeds if and only if no conversation_id is used in two modes, and then keeps every row |
| `Schemas.DowngradeKeepsValidity` | backend/alembic/versions/01dc0d90d920_m4_0_corrective_composite_conversation_.py:188-260 | A downgrade that succeeds on a valid database ends in a valid one |
| `Schemas.DowngradeUndoesUpgrade` | backend/alembic/versions/01dc0d90d920_m4_0_corrective_composite_conversation_.py:89-260 | Downgrading after upgrading gives back the very same database, constraints and rows |
| `Migrations.Database.RebuildTable` | backend/alembic/versions/01dc0d90d920_m4_0_corrective_composite_conversation_.py:59-86 | Create, copy, drop, rename and re-index: fails exactly when the copied rows break the new table's own constraints, and otherwise replaces that table alone |
| `Migrations.Database.UpgradeToCompositeKeys` | backend/alembic/versions/01dc0d90d920_m4_0_corrective_composite_conversation_.py:99-183 | The four rebuilds in order give the composite-key database, and none of them fails |
| `Migrations.Database.DowngradeToSingleKeys` | backend/alembic/versions/01dc0d90d920_m4_0_corrective_composite_conversation_.py:188-260 | The rebuilds in reverse order succeed exactly when no conversation_id is used in two modes |
| `Revisions.CommittedIndexIff` | backend/alembic/versions/ab8d7df39a02_m4_1_corrective_partial_unique_index_on_.py:49-53 | Creating the partial unique index succeeds if and only if no version of a conversation has two committed rows |
| `Revisions.FilterIsNeeded` | backend/alembic/versions/ab8d7df39a02_m4_1_corrective_partial_unique_index_on_.py:17-21 | Without its WHERE clause the prefixed index would reject any two uncommitted rows of one conversation that share a version, and with it such a row is not even covered |
| `Migrations.Database.AddCommittedIndex` | backend/alembic/versions/ab8d7df39a02_m4_1_corrective_partial_unique_index_on_.py:41-53 | Succeeds if and only if no mode, conversation and version has two committed rows; a refusal changes nothing, and success changes no row, no other table and nothing but the index list, leaving the table valid if it was; the memories then have a unique key on mode, conversation and version among their committed rows |
| `Revisions.BackfillMarks` | backend/alembic/versions/c2e4f6a8b130_m5_6_failed_conversation_resources.py:45-67 | A conversation becomes failed if and only if a snapshot of the same mode and conversation has a non-empty error; the recorded error is that of the greatest such snapshot by (created_at, id); nothing else in the row changes |
| `Migrations.Database.LatestError` | backend/alembic/versions/c2e4f6a8b130_m5_6_failed_conversation_resources.py:49-57 | Looking at the snapshots in any order finds the error that ORDER BY ... LIMIT 1 selects, or none |
| `Migrations.Database.BackfillFailures` | backend/alembic/versions/c2e4f6a8b130_m5_6_failed_conversation_resources.py:21-67 | After the UPDATE every conversation of which no stored answer failed is ready and without an error, and every other is failed with the error of its last failed answer, by creation time and then id; no conversation is added or lost |
| `Migrations.Database.FoldFailures` | backend/alembic/versions/c2e4f6a8b130_m5_6_failed_conversation_resources.py:45-67 | One pass over the snapshots, in any order, builds a table that gives for every conversation the snapshot the correlated query would pick |
| `Revisions.OnePresentationPerArtifact` | backend/alembic/versions/a4f6b8c2d190_m5_4_report_presentations.py:55-80 | Every artifact has exactly one presentation, which carries its id, mode, conversation, request and creation time, is available, and counts as last updated when the artifact was created |
| `Migrations.Database.BackfillPresentations` | backend/alembic/versions/a4f6b8c2d190_m5_4_report_presentations.py:21-80 | Row by row, the INSERT ... SELECT gives every artifact one presentation with the artifact's own columns, the default title and the available status, and makes no other; all other tables stay |
| `UpgradeChain.PresentationsValid` | backend/alembic/versions/a4f6b8c2d190_m5_4_report_presentations.py:47-80 | The copied presentations satisfy the new table's NOT NULL columns and its primary key, because the artifacts satisfied theirs |
| `UpgradeChain.WidenedProgress` | backend/alembic/versions/f4c3a2b1907d_m4_3_conversation_archive_query_indexes.py:20-53 | All revisions between the index and the owners keep every stored value and every key and foreign key, and leave tables valid that were valid |
| `UpgradeChain.ChainSucceedsIff` | backend/alembic/versions/f63a1b2c3d40_m6_3_resource_ownership.py:38-74 | From the initial schema through ownership the chain succeeds if and only if no version was committed twice and every child row has a conversation in its own mode; its result is then valid |
| `UpgradeChain.ChainKeepsRows` | backend/alembic/versions/f63a1b2c3d40_m6_3_resource_ownership.py:38-74 | Where it succeeds, every original value is kept in a row owned by local:legacy, and every foreign key of the result refers to a key |
| `UpgradeRun.UpgradeToOwnership` | backend/alembic/versions/42821213393c_m4_0_initial_schema_conversations_work_.py:21-100 | The stored database taken statement by statement through every revision in order: accepted if and only if no version was committed twice and every child row has a conversation in its own mode, and then the result of the chain: valid, in the declared schema, with every old row kept for local:legacy, every key of an owned table led by the owner unless it is a row number, the committed-version key in place, every conversation marked as its last failed answer says, and one presentation for each report |
| `DeclaredSchema.ChainEndsInDeclaredSchema` | backend/app/persistence/models.py:61-595 | The revisions end in the tables that the ORM models declare, in columns, NOT NULLs, keys, uniques, indexes, foreign keys and CHECK, and with the one owner row; only the column order of one primary key and the owner column before the single-column indexes differ |
| `DeclaredSchema.KeysStartWithOwner` | backend/alembic/versions/f63a1b2c3d40_m6_3_resource_ownership.py:19-60 | In the migrated schema every primary key, unique constraint and unique index of an owned table starts with owner_id, but for the id of the three tables that number their rows |
| `DeclaredSchema.OwnersNeverCollide` | backend/alembic/versions/f63a1b2c3d40_m6_3_resource_ownership.py:54-72 | So two rows of different owners violate no key of their table, whatever their other columns hold, as long as their row numbers differ |
| `DeclaredSchema.CommittedVersionsKeyed` | backend/alembic/versions/ab8d7df39a02_m4_1_corrective_partial_unique_index_on_.py:49-53 | The migrated work_memories have a unique key on owner, mode, conversation and version among committed rows, and no other partial one |
| `DeclaredSchema.ChainBackfills` | backend/alembic/versions/c2e4f6a8b130_m5_6_failed_conversation_resources.py:45-67 | After the whole chain a conversation is failed, with the error of its last failed answer, or ready without one, as its own stored answers say |
| `DeclaredSchema.ChainPresents` | backend/alembic/versions/a4f6b8c2d190_m5_4_report_presentations.py:55-80 | And every report of the initial database has one presentation, and there are no others |
| `MemoryStore.VersionsStayDistinct` | backend/alembic/versions/ab8d7df39a02_m4_1_corrective_partial_unique_index_on_.py:9-15 | Under any steps of any callers in any order, a version of a conversation is committed at most once: the partial unique index alone sees to it |
| `MemoryStore.VersionsAreRange` | backend/alembic/versions/ab8d7df39a02_m4_1_corrective_partial_unique_index_on_.py:9-15 | Where no version is missing below a committed one, a version is committed exactly when it is one of 1..N for the latest N |
| `MemoryStore.OneTurnPerVersion` | backend/alembic/versions/ab8d7df39a02_m4_1_corrective_partial_unique_index_on_.py:9-15 | The committed versions of a conversation are 1..N, and exactly N rows committed them |
| `MemoryStore.ChainKeptIff` | backend/app/persistence/repositories/memory.py:531-570 | A step keeps every conversation's committed versions gapless if and only if it is neither a write that skips a version nor a mark_failed on a committed row below the latest |
| `MemoryStore.MarkFailedCanBreakChain` | backend/app/persistence/repositories/memory.py:531-570 | mark_failed asks for no status: on the first of two committed rows it leaves version 2 without version 1 |
| `MemoryStore.FailedStaysIff` | backend/app/persistence/repositories/memory.py:456-475 | A failed row stays failed after a step of any caller if and only if the step is not the accepted write of a commit that was checked on that row before: the UPDATE does not look at the status |
| `MemoryStore.FailedForGood` | backend/app/persistence/repositories/memory.py:367-371 | With no commit checked and unwritten on it, a failed row stays failed under any steps of any callers |
| `MemoryStore.WriteOverridesMarkFailed` | backend/app/persistence/repositories/memory.py:367-475 | The write exists: a row that passed its check, was then marked failed and is written at once ends committed with version base + 1 |
| `MemoryStore.TakenIsTheIndex` | backend/alembic/versions/ab8d7df39a02_m4_1_corrective_partial_unique_index_on_.py:49-53 | Setting a row to committed keeps committed versions distinct if and only if no other committed row of its conversation has that version |
| `MemoryStore.CommitExtendsIff` | backend/app/persistence/repositories/memory.py:454-475 | Committing a row leaves the chain gapless if and only if its version is at most one above the latest |
| `MemoryStore.UncommitIff` | backend/app/persistence/repositories/memory.py:531-570 | Taking a committed row back leaves the chain gapless if and only if it was the latest |
| `Turns.WriteAcceptedIff` | backend/alembic/versions/ab8d7df39a02_m4_1_corrective_partial_unique_index_on_.py:11-15 | At the write: accepted if and only if the turn's base is still the latest version, a conflict if and only if base + 1 has been committed by then |
| `Turns.LockConflictIff` | backend/app/persistence/repositories/common.py:188-270 | A write that met a lock and rolled back is, at the later fresh read, reported as a conflict exactly when the index would refuse it at that moment |
| `Turns.LockedThenReread` | backend/app/persistence/repositories/common.py:196-205 | With any events of other turns between the lock and the fresh read: the report is a conflict if and only if the index would have refused the write at the lock, or its version was committed in between |
| `Turns.NextKeepsInv` | backend/app/persistence/repositories/memory.py:307-570 | Every event of any turn keeps the invariant of store, tickets and turns, and changes nothing outside that turn's row |
| `Turns.RunKeepsInv` | backend/app/persistence/repositories/memory.py:229-570 | The invariant holds after every interleaving of any number of turns |
| `Turns.VersionsOfRun` | backend/alembic/versions/ab8d7df39a02_m4_1_corrective_partial_unique_index_on_.py:9-15 | After every interleaving the committed versions of every conversation are exactly 1..N, each committed by one turn |
| `Turns.CommitsAreFinal` | backend/app/persistence/repositories/memory.py:307-570 | A committed row is never changed again in any continuation of turns that follow the pipeline |
| `Turns.FailuresAreFinal` | backend/app/persistence/repositories/memory.py:307-570 | Nor does a failed row ever leave that status: turns that follow the pipeline do not make the write that could undo it |
| `Turns.RaceIsDecided` | backend/alembic/versions/ab8d7df39a02_m4_1_corrective_partial_unique_index_on_.py:11-15 | Two winners in one conversation hold different versions; a turn refused with a conflict was refused because the version after its base is committed |
| `TurnHistory.AskAcceptedIff` | backend/app/persistence/repositories/memory.py:359-418 | At its check a turn proceeds if and only if its evidence is complete and its base is the latest version; incomplete evidence is always a denial, and nothing but a proceeding check leaves a ticket behind |
| `TurnHistory.WinnerFollowedProtocol` | backend/app/persistence/repositories/memory.py:229-485 | In every interleaving, a turn that won looked, opened its row, asked with complete evidence and wrote, in this order; what is committed is its payload, one version above the base it read |
| `TurnHistory.CommittedIffBeforeOrWon` | backend/app/persistence/repositories/memory.py:229-570 | After any run the committed rows are exactly those from before, unchanged, and the rows of the turns that won |
| `TurnHistory.AloneWinsIff` | backend/app/persistence/repositories/memory.py:229-485 | An undisturbed turn commits the next version if and only if its request is new and its evidence complete; a request that is already stored changes nothing |
| `MemoryRepository.InMemoryMemoryRepository.CreatePending` | backend/app/memory/repository.py:157-177 | Adds the pending memory to both dictionaries, or reports a duplicate and changes nothing |
| `MemoryRepository.InMemoryMemoryRepository.LatestOther` | backend/app/memory/repository.py:204-303 | The loop over a conversation's other memories finds the latest committed version of that mode |
| `MemoryRepository.InMemoryMemoryRepository.Commit` | backend/app/memory/repository.py:204-303 | The locked commit is the atomic commit of the protocol |
| `MemoryRepository.InMemoryMemoryRepository.MarkFailed` | backend/app/memory/repository.py:305-316 | Marks the row failed whatever its status |
| `MemoryRepository.TwoStepsAreAtomic` | backend/app/persistence/repositories/memory.py:307-529 | The SQLite commit in two steps decides as the in-memory commit in one: its check lets through exactly what the atomic commit would accept at that moment, and refuses alike; its write does what the atomic commit would do then, whatever happened in between |
| `MemoryTable.IndexIsDistinctVersions` | backend/alembic/versions/f63a1b2c3d40_m6_3_resource_ownership.py:69-72 | The owner-prefixed partial index holds of the stored rows if and only if no version of an owner's conversation is committed twice |
| `MemoryTable.IndexDecidesWrite` | backend/app/persistence/repositories/memory.py:456-485 | On the stored rows, the UPDATE of a commit violates the prefixed partial index if and only if the protocol finds its version taken |
| `MemoryTable.UnfilteredIndexForbidsPendingPairs` | backend/alembic/versions/ab8d7df39a02_m4_1_corrective_partial_unique_index_on_.py:17-21 | Had prefixing dropped the WHERE clause, two pending rows of one conversation with the same version, which is how the pipeline creates them, could not both be stored |
| `MemoryTable.MigratedTableDecides` | backend/alembic/versions/f63a1b2c3d40_m6_3_resource_ownership.py:54-72 | The work_memories table that the revisions leave behind takes the store's memories as its rows if and only if no version of an owner's conversation is committed twice |
| `OwnerSimulation.StepIsSimulated` | backend/alembic/versions/f63a1b2c3d40_m6_3_resource_ownership.py:42-72 | One step of a shared store is, for its owner, the same step on that owner's store with the same answer, and invisible to all others |
| `OwnerSimulation.RunIsSimulated` | backend/alembic/versions/f63a1b2c3d40_m6_3_resource_ownership.py:42-72 | Any run of many owners projected onto one of them is that owner's own run, with the same outcome at each step; its steps are those at the positions of its own calls, in order |
| `FixedPoint.PriceCheckIff` | scripts/profile_online_retail_ii.py:36-41 | With products rounded to 28 digits: the units that the check gives are the price's own if and only if the price has at most 28 significant digits (none below 10^-1000030), and a price that it refuses has none |
| `FixedPoint.StoredIff` | scripts/profile_online_retail_ii.py:113-113 | The int64 cast of a column of units keeps a unit if and only if it is below 2^63, and stores any greater one that it lets through as a negative number |
| `FixedPoint.LargePrice` | scripts/profile_online_retail_ii.py:113-114 | A price whose units are not below 2^63 is at least half a unit above every int64 amount, whether or not its units are exact |
| `FixedPoint.LongPriceIsNotExact` | scripts/profile_online_retail_ii.py:38-41 | A longer price is refused, or accepted with units that it does not have |
| `Decimals.RoundedExactIff` | scripts/profile_online_retail_ii.py:38-38 | Rounding in the decimal context keeps a number if and only if it has at most 28 significant digits, none below the last place |
| `Decimals.RoundedIsHalfEven` | scripts/profile_online_retail_ii.py:38-38 | Rounding drops digits only where there are more than 28 or places below 10^-1000026, no more than it must, to the nearest number and to the even one of two equally near |
| `Decimals.SmallIsExact` | scripts/profile_online_retail_ii.py:184-186 | A number of ten-thousandths below 10^24 is not rounded, however its text is written |
| `FixedPoint.AmountRoundTripIff` | scripts/profile_online_retail_ii.py:44-45 | Reading the printed four-decimal amount gives back the units if and only if these have at most 28 significant digits |
| `FixedPoint.AmountRoundTrip` | scripts/profile_online_retail_ii.py:44-45 | So it does for every amount of the int64 column |
| `RetailColumns.AnyOrderIsExact` | scripts/profile_online_retail_ii.py:118-119 | If the absolute values of a column fit an int64 together, no wrapped sum of any of its rows in any order and grouping differs from the true sum |
| `RetailColumns.AmountsExactIff` | scripts/profile_online_retail_ii.py:112-118 | On tables that pass the guards, every wrapped product is the true product if and only if -2^63 is multiplied by nothing but zero |
| `RetailColumns.ExtremeQuantitySlipsThrough` | scripts/profile_online_retail_ii.py:114-120 | A quantity of -2^63 passes both guards with an amount of 0 |
| `RetailColumns.GuardsSuffice` | scripts/profile_online_retail_ii.py:114-140 | The two guards make every later sum of amounts exact, and every sum of quantities over eligible rows, in any order and grouping |
| `RetailColumns.SelectionExact` | scripts/profile_online_retail_ii.py:166-169 | Over any selected rows of a table that the guards let through, the int64 sum of amounts is exact and its text reads back as it |
| `Reconciliation.RowsExactTotal` | scripts/profile_online_retail_ii.py:183-188 | If every row's rounded product (nothing for a row the loop does not count) is its units product (nothing for a row that is not eligible), the loop's sum is the column total and the reconciliation passes |
| `Reconciliation.OneRowReconcilesIff` | scripts/profile_online_retail_ii.py:183-188 | A one-row table reconciles if and only if that holds of its row |
| `Reconciliation.AlwaysReconcilesIff` | scripts/profile_online_retail_ii.py:183-188 | No accepted table made of the given rows, repeated and ordered at will, fails to reconcile if and only if it holds of each of them |
| `Reconciliation.ReconciliationPasses` | scripts/profile_online_retail_ii.py:183-188 | On every accepted table whose counted prices have at most 28 significant digits and units below 2^63, each row's rounded product is its units product, the loop's sum is the column total, and the reconciliation does not raise |
| `Reconciliation.MisfitRaises` | scripts/profile_online_retail_ii.py:113-113 | A counted row with units of 2^63 or more makes every accepted table fail to reconcile, however many digits its price has |
| `Reconciliation.ShortTableReconcilesIff` | scripts/profile_online_retail_ii.py:183-188 | With counted prices of at most 28 significant digits an accepted table reconciles if and only if the units of all of them are below 2^63 |
| `HugePrices.CancelledHugePriceWraps` | scripts/profile_online_retail_ii.py:113-120 | A cancelled row of price 10^15 is accepted and reconciles, and its raw signed amount is printed as -844674407370955.1616 |
| `HugePrices.HugePriceFailsReconciliation` | scripts/profile_online_retail_ii.py:113-188 | The same row uncancelled is accepted, and the reconciliation raises |
| `LongPrices.LongPriceFailsReconciliation` | scripts/profile_online_retail_ii.py:184-188 | Three of the price 1.0000000000000000000000000004 pass the check and both guards, and the reconciliation raises |
| `LongPrices.LongPriceMayReconcile` | scripts/profile_online_retail_ii.py:184-188 | One of it passes everything, although the price is not what its units say |
| `LongPrices.LargeRowAbsorbsError` | scripts/profile_online_retail_ii.py:184-188 | After a row of 10^13 three of the price 1.0000000000000000000000000004 do reconcile, though that row is not exact: the rounded partial sum has no room for its error |
| `Reconciliation.IndependentLoop` | scripts/profile_online_retail_ii.py:184-186 | The loop gives the sum in which each product and each partial sum is rounded to 28 digits |
| `RetailProfile.SelectionTells` | scripts/profile_online_retail_ii.py:166-169 | Over selected rows whose units fit an int64, whose product did not wrap and whose prices have at most 28 digits, the printed signed amount is the true sum of price times quantity |
| `RetailProfile.Profile` | scripts/profile_online_retail_ii.py:112-189 | Succeeds on exactly the tables that the price check, the int64 cast and the guards accept and that reconcile; with counted prices of at most 28 digits it fails to reconcile exactly when counted units do not fit. The printed total is the true sum where the eligible prices have at most 28 digits, and so are the raw and the excluded amount over such prices unless units of 2^63 or a factor -2^63 wrap; raw is total plus excluded; a row counts as eligible exactly if its invoice does not start with c or C, its quantity is positive and its units are positive and fit an int64 |
| `RetailGroups.GroupsConserve` | scripts/profile_online_retail_ii.py:134-142 | Group sums of distinct keys add up to the sum of their union: to the grand total over all keys, and to the member set's own total |
| `RetailGroups.PrintedGroupsConserve` | scripts/profile_online_retail_ii.py:134-142 | For an accepted table the printed group totals, int64 sums read back from their texts, add up to the printed member-set total, and to the printed total sales when the groups cover the eligible rows |
| `RetailGroups.GroupBoth` | scripts/profile_online_retail_ii.py:137-142 | Every country and every month of an eligible row is listed once, beside the total of its own rows, which is the true sum over these when their prices have at most 28 digits; the totals of either kind add up to the printed total sales |
| `RetailGroups.OrderCountsSubadditive` | scripts/profile_online_retail_ii.py:130-130 | Group order counts add up to at least the order count of the union, with equality if and only if no order lies in two groups |
| `HistoricalSections.CurrentMarkdown` | scripts/check_documentation_governance.py:225-239 | The kept lines are the input's lines at strictly increasing positions, and a position is among them if and only if no Historical heading at or before it is followed, up to that line, by deeper headings alone |
| `HistoricalSections.RegisterAdvances` | scripts/check_documentation_governance.py:231-236 | The register is always the level of the outermost open Historical section |
| `HistoricalSections.KeepsNoHistoricalHeading` | scripts/check_documentation_governance.py:234-238 | No kept line is a Historical heading |
| `HistoricalSections.PassIsIdempotent` | scripts/check_documentation_governance.py:225-239 | A second pass over the kept lines keeps them all |
| `Annotations.ChainIsOnePass` | scripts/run_pytest_ci.py:17-31 | The chain of replace calls is one pass that encodes each character by itself |
| `Annotations.DecodeEncode` | scripts/run_pytest_ci.py:17-31 | One decoder undoes both encodings, for every text |
| `Annotations.CommandReadsBack` | scripts/run_pytest_ci.py:46-50 | The assembled command is a single line that reads back as exactly the title and message it was made from |
| `Annotations.GitHubFailureAnnotations.Record` | scripts/run_pytest_ci.py:40-50 | Appends one command: the phase and node id as title, the last 3500 characters of the detail as message |
| `Annotations.GitHubFailureAnnotations.CollectReport` | scripts/run_pytest_ci.py:57-59 | Records failed reports only |
| `Annotations.GitHubFailureAnnotations.RuntestLogReport` | scripts/run_pytest_ci.py:61-63 | Records failed reports only, under the phase the report names |
| `Annotations.Session` | scripts/run_pytest_ci.py:34-63 | After any session there is one line for each failing report, in order, and nothing else; it reads back as the phase and node id and the last 3500 characters of the detail, or all of a shorter one |
| `PublicProduct.ProjectIff` | backend/app/api/cloud_routes.py:247-260 | The complete input-output relation: a value is the projection of another if and only if every report in it carries its public paths, or blanks when deleted, it agrees with the other everywhere else, and no live report's id fails to be text |
| `PublicProduct.RaisesIff` | backend/app/api/cloud_routes.py:254-258 | The projection raises exactly when a live report somewhere has a truthy report_id that is not text |
| `PublicProduct.ProjectIsPublic` | backend/app/api/cloud_routes.py:247-260 | Only view_reference and download_reference of reports change, at any depth |
| `PublicProduct.ProjectIsIdempotent` | backend/app/api/cloud_routes.py:247-260 | Projecting a second time changes nothing |
| `PublicProduct.PathsAreDistinct` | backend/app/api/cloud_routes.py:258-259 | Different report ids have different view and download paths, and no view path is a download path |
| `PublicProduct.ReportIff` | backend/app/api/cloud_routes.py:254-255 | A dictionary counts as a report if and only if it has a view reference and a report id other than null, false, zero and the empty text, list and dictionary, and as deleted if and only if its status says so |
| `PercentEncoding.UnquoteQuote` | backend/app/api/cloud_routes.py:258-258 | A decoder that reads hexadecimal digits by their value and the bytes as UTF-8 gets every text back from its percent-encoding |
| `PercentEncoding.UnchangedIff` | backend/app/api/cloud_routes.py:258-258 | A text is its own encoding if and only if it consists of ASCII letters, digits and the four marks - . _ ~ |
| `PercentEncoding.QuoteInjective` | backend/app/api/cloud_routes.py:258-258 | Percent-encoding of UTF-8 with no safe characters (RFC 3986 sections 2.1 and 2.3) maps different texts to different texts |
| `PercentEncoding.Utf8IsExact` | backend/app/api/cloud_routes.py:258-258 | The UTF-8 bytes of a character determine its code point |
| `AnswerContexts.Build` | backend/app/answer/context.py:71-94 | The context holds the fitted rows, and its flag is up if and only if a row or an over-100 text cell was cut |
| `AnswerContexts.RowsArePrefixes` | backend/app/answer/context.py:74-94 | The first 20 rows, or all of fewer; a text cell of more than 100 characters becomes its first 100 and three dots, and every other cell is as it was |
| `AnswerContexts.FlagIs` | backend/app/answer/context.py:71-94 | The flag says that there were more than 20 rows or a text of more than 100 characters in them |
| `AnswerContexts.PartStandsInJoin` | backend/app/answer/prompt.py:190-200 | Every line stands in the joined text, after the lines before it and before those after it |
| `AnswerContexts.RebuildKeepsRows` | backend/app/answer/context.py:74-94 | Building from a context's own rows gives them back; the flag comes up again if and only if a cell had been cut |
| `AnswerContexts.RenderRows` | backend/app/answer/prompt.py:190-200 | Every row up to the limit has its line; the overflow line appears if and only if there are more |
| `AnswerContexts.RenderContext` | backend/app/answer/prompt.py:190-238 | The prompt shows every row of a built context, and never the overflow line |
| `AnswerService.DeepSeekAnswerService.constructor` | backend/app/answer/deepseek_service.py:63-63 | The quota of repairs is 0 or 1 whatever was asked for |
| `AnswerService.DeepSeekAnswerService.Generate` | backend/app/answer/deepseek_service.py:93-249 | For every provider: no call before the entry checks pass, at most 1 + max_repairs calls, a second one exactly when the first reply can be mended and a repair is allowed, and an answer comes back if and only if the last reply passes strict validation under the context's own flag; every call carries the request's input, keys, columns, counts and its bounded rows |
| `NaturalAnswer.Validate` | backend/app/answer/natural.py:123-171 | The reported errors are exactly the violated clauses of the envelope, each once, despite the early breaks; none if and only if the envelope holds |
| `NaturalAnswer.EnvelopeIs` | backend/app/answer/natural.py:123-171 | The envelope in plain words: no fact error; the fallback's numbers, every value of every ranked member, every scope item, the measure label and the horizon hint occur; neither the model key, the ids of fact set, result and facts, nor any filter field followed by an equals sign does |
| `NaturalAnswer.ScopeItemsAre` | backend/app/answer/natural.py:146-151 | Scope items are the parts between full-width commas, which joined again give the scope, without the white space around them |
| `NaturalAnswer.DedupeKeepsOrder` | backend/app/answer/natural.py:171-171 | Deduplication leaves errors in the order of their first report |
| `NaturalAnswer.NoErrorIffEnvelope` | backend/app/answer/natural.py:123-171 | The list of violations is empty if and only if numbers, ranking members, scope items, measure and horizon are kept and no identity or filter syntax appears |
| `NaturalAnswer.CheckRankings` | backend/app/answer/natural.py:141-146 | With a break that leaves only the innermost loop, the omission is reported if and only if some ranked value is missing, and once after deduplication |
| `NaturalAnswer.NaturalAnswerComposer.Compose` | backend/app/answer/natural.py:35-54 | For every provider: at most 1 + max_repairs calls; the provider's exception goes to the caller, a draft is used exactly inside the envelope, and otherwise the fallback comes back untouched |
| `NaturalAnswer.NaturalAnswerComposer.ComposeInVain` | backend/app/answer/natural.py:44-54 | If a required text contains a forbidden one, whatever is drafted ends in the fallback |
| `NaturalAnswer.NothingFits` | backend/app/answer/natural.py:123-171 | With such contradictory demands no text at all is inside the envelope |
| `DrainProtocol.ApplyKeepsInv` | scripts/manual_smoke/cross_language_real_acceptance.py:170-207 | Every step of any task or of the teardown keeps the invariant of stages, active set, ownership and drain |
| `DrainProtocol.OwnedBeforeRun` | scripts/manual_smoke/cross_language_real_acceptance.py:176-187 | In every interleaving a conversation is registered as owned before its turn reaches the original execute |
| `DrainProtocol.CallsAreSeen` | scripts/manual_smoke/cross_language_real_acceptance.py:170-187 | Every call with a conversation is registered as owned, or came after the original was put back and counts as bypassing |
| `DrainProtocol.CancelledAreUndone` | scripts/manual_smoke/cross_language_real_acceptance.py:194-207 | A wait that returns cancels exactly the snapshot's tasks that are not done, and nothing is put back before all of the snapshot are |
| `DrainProtocol.RestoredActiveIs` | scripts/manual_smoke/cross_language_real_acceptance.py:199-207 | When the original is back, the active tasks are exactly the late starters that have not ended |
| `DrainProtocol.InterruptedActiveIs` | scripts/manual_smoke/cross_language_real_acceptance.py:199-207 | After a teardown that was cut short, active are exactly those of its snapshot and the late starters that have not ended |
| `DrainProtocol.NothingRunsDuringCleanup` | scripts/manual_smoke/cross_language_real_acceptance.py:199-207 | If no turn becomes active after teardown began, none is active once execute is restored, nor in the enclosing cleanup unless the teardown was itself interrupted |
| `DrainProtocol.LateStarter` | scripts/manual_smoke/cross_language_real_acceptance.py:199-207 | A turn that starts while another is drained is still running after restore and cleanup |
| `DrainProtocol.InterruptedTeardown` | scripts/manual_smoke/cross_language_real_acceptance.py:199-207 | A teardown cancelled in its own wait leaves the turn it waited for running through the cleanup |

## Left out

- SQLite and Alembic mechanics: transactions and what a failed revision leaves behind, PRAGMA timing, index and constraint names, AUTOINCREMENT, server defaults of timestamps. Rows are kept under abstract handles, and foreign key enforcement is off during rebuilds, as the migrations say.
- `julianday` and `json_extract`: timestamps are integers, and a stored document has its `error_type` as a value.
- The revision ab64d10e7f20 and its model, which only add a table of its own, and the downgrades of the additive revisions.
- Of the payload merge in `commit` only the new payload is kept.
- Payload checks between row and document, clarifications, and the listing queries of the repositories.
- The evidence of a commit is one boolean; which of its fields is missing is not modelled.
- pandas, openpyxl, zip reading and hashing: a table is a sequence of rows with integral quantities that already are int64. The column of price units is typed as the dataframe library infers it: signed if all units fit, unsigned if none is negative and all are below 2^64, and otherwise objects, whose cast to int64 fails.
- Reconciliation.RowsExactTotal: the converse is false for a single fixed table, because a partial sum absorbs small errors (`LongPrices.LargeRowAbsorbsError`); it holds for one row, and for all tables made of the rows.
- Decimal exponents above the context's range, which raise overflow in the price check (here the int64 cast refuses such a price), and price cells that are no finite number, which the check refuses.
- RetailProfile.Profile: rankings, top-N lists, customer counts, the average order value, date handling and the check that three countries occur are not part of the report.
- Regular expressions and Unicode casing: a heading is a classified line; splitting a text into lines and joining the kept ones is left to the caller; only an ASCII c or C marks a cancelled invoice.
- `check_m5_seal_consistency` and `bounded_body`, a fold and a bounded accumulation without interplay.
- PublicProduct.ProjectIff: dictionaries are maps, so the order of keys is not modelled; texts hold no lone surrogates, for which `quote` raises an encoding error; a model's dump is plain data, as JSON mode promises.
- `ValidationService`, `FactOutputValidator`, the number pattern and its normalisation are parameters, and so is the text of illegal fields in a repair prompt.
- AnswerService.DeepSeekAnswerService.Generate: the summaries of plan and filters in the context are left out, and which error text a failure carries; the rejection of a mock provider happens before the service exists.
- NaturalAnswer.NaturalAnswerComposer.Compose: the payload of a call is the same every time and not spelled out; calls are known by the errors they add.
- DrainProtocol.OwnedBeforeRun: tasks may be switched at every step here, which allows more interleavings than asyncio does; a call made after `execute` is restored is not tracked and counts as bypassing.
- HTTP, routing, settings, prompts, localisation and the user interface.
