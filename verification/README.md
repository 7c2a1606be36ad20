# A verified model of wadjet's DML, access-control, limiter and scheduler core

wadjet is a columnar query engine over immutable files. This project models, in
Dafny, the parts of it whose correctness depends on more than one function:

* **The DML commit protocol.** `Tables` and `Commits` give a merge-on-read table and
  its two conditional transactions as values; `Runs` is the transition system in
  which any number of DELETEs, UPDATEs, MERGEs, INSERTs and compaction passes
  interleave; `Serial` proves safety, conservation, serial order and key uniqueness
  over every run. `Catalogs`, `Dml` and `Compaction` are the loops and the mutable
  catalog that run it, each proved to do what the transition system lets it do;
  `Loops` proves that every execution of the redo loop among other writers is one of
  those runs. `Races` and `Skews` are runs that come to no serial order, or not to the
  order of their commits, and say exactly when two statements do.
* **MERGE.** `Merge` is the join, its clause selection and the 21000 rule, with what
  it decides stated without its order; `Merging` reads the target, groups the markers,
  commits and redoes; `Rejoins` makes the join a decision on the table's contents and
  compares the decision at the read with the one at the commit.
* **Policy sets.** `ProviderRuns` interleaves every load, store and compare-and-swap
  of attach and install, and `BindRecords` says what its recorded error is worth in
  between, and `LoneCalls` that a call nobody interferes with does what the whole
  operation promises; `Providers` is the provider as an object. `Names` is the identifier fold and
  the resolver, `CaseFolds` the catalog's wider case fold beside it; `Bindings` and `LegacyPolicies` rewrite a copy of a
  policy set to the catalog's spellings; `Meanings` says that this changes no rule's
  meaning; `Resolvers` is the decision cache.
* **Evaluation.** `Policies` and `Decisions` are deny-overrides evaluation and the
  merged obligations, stated from the attributes and the rules as written; `Migration`
  is the translation of roles and cell policies and the comparison of the two forms of a
  table-access decision; `Duties` is what the translated policies hide, mask, filter and
  let be called.
* **Three smaller pieces.** `RateLimits` (token buckets and their sweep), `Schedulers`
  (claims and the wait count) with `Drains` (what a tick gets done, and why waiting
  ends), and the text round trips `Quoting`, `Clauses` and
  `Numerics`.

Code that updates things step by step is modelled by methods with loops and by
classes, each tied by its postcondition to a specification function or to the
abstract state; what the design promises is then proved of that specification.
Predicates, SET values, WHEN conditions and row filters are arbitrary functions; a
clock reading, the outcome of binding a name set, and what other writers do between a
read and a commit are parameters.

Where a promise does not hold as stated, the model keeps the code's behaviour, shows an
input that breaks it, and proves the exact condition:

* a commit equals a re-run (`Serial.RerunExactly`, `Races.PhantomSurvives`; for MERGE
  `Rejoins.MergeRerunIff`, `Races.RowDoubled`);
* redoing refused statements makes the outcome one of the serial orders
  (`Skews.RaceIsSerialIff`, `Skews.WriteSkew`): two statements that mark different rows
  refuse each other nothing;
* MERGE does not depend on the source order (`Merge.OrderFreeIff`,
  `Merge.MatchedInsertDependsOnOrder`): the parser accepts WHEN MATCHED THEN INSERT,
  which fires, has no effect, and still counts for the once-only check;
* an attached catalog keeps the running set bound (`ProviderRuns.AlwaysBoundIff`,
  `ProviderRuns.MissedInstallRunsUnbound`), and a nil return from an attach means bound
  (`Providers.Provider.BindToCatalog`, `Providers.ReattachAfterRefusal`);
* a catalog attached and no error on record mean that the running set is bound: true
  between whole operations (`Providers.AnySequence`), and between single loads and stores
  under an exact condition (`BindRecords.AlwaysHonestIff`, `BindRecords.RefusedMidway`);
* the cached decision is the fresh one (`Resolvers.OneKeyOneDecisionIff`,
  `Resolvers.AskedForItsTwin`, `Resolvers.AskedWithoutItsFilter`): the cache has one key
  for two delimited names that differ in case alone. internal/auth/abac_eval.go:384-386
  says that creating a table refuses such a twin; the code compares byte for byte
  (internal/storage/catalog/catalog.go:372-381), and the model follows the code;
* bound names mean the relation (`Names.ComparesByTableIff`, `Names.TwinComparesToo`), and
  binding keeps a policy's key: with the case fold the catalog resolves by, exactly in
  the catalogs of `CaseFolds.WideComparesByTableIff` and `CaseFolds.WideKeepsFoldIff`
  (the input is `CaseFolds.LongS`);
* a legacy policy is found for its own relation and role only
  (`LegacyPolicies.LookupIsRightIff`, `LegacyPolicies.KeysCollide`): the key joins the two
  names with a colon, which either may contain;
* binding a legacy column map is deterministic (`LegacyPolicies.DeterminedIff`,
  `LegacyPolicies.FoldAlikeColumnsRace`);
* row filters can be merged in any order (`Decisions.TextOrderFreeIff`,
  `Decisions.BlankFilterMatters`): this concerns an evaluator built from policies that
  did not go through the loader, which refuses a blank filter; a set that loads decides
  the same in any order (`Decisions.LoadedOrderIsFree`);
* migration preserves decisions (`Migration.MigrationIsExactly`,
  `Migration.EmptyListOpensUp`);
* eviction is unobservable, and no identity exceeds its window
  (`RateLimits.UnobservableIff`, `RateLimits.LimiterWindowBoundIff`; the input is
  `RateLimits.TwoBurstsAdmitted`);
* splitting inverts joining (`Clauses.SplitInvertsJoinIff`, `Clauses.NotListable`).

`dafny verify dfyconfig.toml` checks the whole project.

## Model

| member | source | states |
|---|---|---|
| Commits.CommitConserves | internal/storage/catalog/dml_commit.go:87-202 | a commit that passes validation takes exactly the marked rows out of the contents, puts exactly the published rows in, and every mark was on a live row |
| Commits.SwapConserves | internal/storage/catalog/compaction_commit.go:71-195 | a compaction swap of a faithful cut leaves the contents of the table the same multiset of rows |
| Runs.StepKeepsInv | wadjet/dml.go:302-331 | every step of every writer keeps: markers on listed files and rows in range, no address marked twice, every waiting plan still covering its matches, attempts and commits bounded, every pending cut faithful |
| Serial.RunsAreSafe | wadjet/dml.go:302-546 | over every interleaving of inserts, statements, refusals and compactions from a valid table: the table stays valid, no physical row is superseded twice, live rows plus rows taken equal initial plus published, the count is initial plus inserted minus deleted, and each statement makes at most five attempts and commits at most once |
| Serial.GivingUpLeavesNoTrace | wadjet/dml.go:313-326 | over every run, a statement that used up its attempts or failed leaves no trace: the run with all of its steps taken out is a run, and ends in the same table, history and other statements |
| Serial.CommitEqualsRerun | wadjet/dml.go:291-326 | a DELETE or UPDATE that commits with no matching row published since it read, or a MERGE whose decision on the contents at its commit is the one it carries, leaves exactly what the whole statement run alone at its commit point leaves, whatever came between |
| Serial.RunsAreSerial | wadjet/dml.go:291-326 | every phantom-free run, MERGEs included, ends in the contents its committed statements give when run alone one after another in commit order |
| Serial.RerunExactly | wadjet/dml.go:291-331 | without the phantom hypothesis: a commit equals the re-run if and only if the statement maps the bag of phantom rows onto itself (for a DELETE: there are none) |
| Serial.MergeRerunExactly | wadjet/dml.go:291-326 | for a MERGE as any decision on the contents: a commit equals the re-run if and only if the decision there has the same net effect as the one the attempt carries, or, when it refuses, the attempt puts back what it takes out |
| Races.PhantomSurvives | wadjet/dml.go:353-421 | the hypothesis is needed: for any DELETE that marks rows and any matching rows inserted between its read and its commit, the run is valid and the rows are still there; the replay in commit order does not have them, and the replay in the other order does |
| Skews.RaceIsSerialIff | wadjet/dml.go:304-326 | two UPDATEs or DELETEs that read one table, mark different rows and both commit leave what some serial order of the two leaves, if and only if one of them would change nothing among the rows the other wrote |
| Skews.WriteSkew | wadjet/dml.go:304-326 | one statement turning every white row black and one turning every black row white, both read before either commits: no serial order of the two leaves what they leave |
| Serial.RunsKeepKeysUnique | wadjet/dml.go:307-326 | under DELETEs, UPDATEs that leave the key alone and compactions, however they race, no key is added or duplicated; unique keys stay unique |
| Catalogs.FitIsCanCommit | internal/storage/catalog/dml_commit.go:132-154 | validating marker by marker and row by row is the same condition as: every marked file is listed and no marked row is already superseded |
| Catalogs.DeletedRowsByFile | internal/storage/catalog/catalog.go:1067-1083 | the per-file sets hold exactly the addresses the markers name |
| Catalogs.MergeDeleteMarkers | internal/storage/catalog/dml_commit.go:204-244 | the merged list names exactly the union of both lists' addresses, one entry per file |
| Catalogs.AddPending | internal/storage/catalog/catalog.go:883-897 | refused if and only if the partition already lists the path; otherwise the file comes last in its partition, which is made if it was not there, every other partition stays, and the listed files grow by exactly its path |
| Catalogs.Validate | internal/storage/catalog/dml_commit.go:132-154 | accepted if and only if every marker fits; otherwise the first marker that does not decides which refusal is given |
| Catalogs.AddAll | internal/storage/catalog/dml_commit.go:156-178 | all pending files are registered, or a path that is reused is found; nothing is listed twice |
| Catalogs.Catalog.CommitDML | internal/storage/catalog/dml_commit.go:65-202 | files and markers are published in one step, giving exactly the abstract commit, or the store and the manifest are untouched; it commits if and only if every marker fits, unless a path is reused |
| Catalogs.SnapshotHolds | internal/storage/catalog/compaction_commit.go:71-195 | the marker snapshot of the inputs is compared with the current one as sets, in both directions |
| Catalogs.SwapFiles | internal/storage/catalog/compaction_commit.go:71-195 | the partition's files lose exactly the inputs and gain exactly the output |
| Catalogs.KeepMarkers | internal/storage/catalog/compaction_commit.go:71-195 | the markers that stay are exactly those on other files |
| Catalogs.Catalog.CommitCompaction | internal/storage/catalog/compaction_commit.go:71-195 | the swap happens exactly as the abstract swap and only when inputs and markers are as snapshotted, or nothing changes |
| Dml.MatchDMLRows | wadjet/dml.go:4008-4034 | without a WHERE every row that is not deleted is matched; with one, exactly the visible rows the predicate is true of; in increasing order; the scan fails if and only if the predicate fails on a visible row |
| Dml.HitsMean | wadjet/dml.go:4008-4034 | so a statement without a WHERE supersedes every live row, and one with a WHERE exactly those it is true of |
| Dml.ReplacementColumns | wadjet/dml.go:3970-3997 | every SET expression sees the row as stored, a column no clause names keeps its value, and the last clause that names a column wins |
| Dml.BuildUpdatedRows | wadjet/dml.go:3970-3997 | one replacement per matched row, in order, each the stored row with its assignments; it fails if and only if some assignment of a matched row does |
| Dml.ScanFile | wadjet/dml.go:3191-3200 | one file's scan finds exactly the live rows of the table in that file that match |
| Dml.PlanDelete | wadjet/dml.go:353-421 | the markers name exactly the live rows that match, each once and one marker per file, and the total is their number; the scan fails if and only if the predicate does on a live row |
| Dml.PlanUpdate | wadjet/dml.go:430-546 | as for DELETE, and the replacement rows are exactly the marked rows rewritten |
| Dml.ScanIsPlan | wadjet/dml.go:353-546 | what the scans decide is a plan of the protocol's transition system, so every result about runs is about these scans |
| Dml.CommitPlan | wadjet/dml.go:405-421 | however the ingester splits the new rows over files, the statement's files and markers go in together exactly when every marker fits, or the table is what the other writers made it |
| Dml.RunOnce | wadjet/dml.go:353-546 | one attempt applies the statement as planned on the table it read, or is refused because of a moved file or a superseded row, or fails with nothing written |
| Dml.RetryConflicted | wadjet/dml.go:313-326 | whatever the other writers do before each read and before each commit, the statement takes effect once, at the first attempt that is not refused; at most five attempts; giving up leaves exactly what the other writers made |
| Loops.LoopIsRun | wadjet/dml.go:313-326 | for any statement, also one that decides by another source in every attempt, any number of refused attempts and any ending: the loop is a run of the transition system made of its own steps and exactly the steps the other writers made, ending in the table the loop leaves, with that many attempts and at most one commit |
| Loops.RetryIsRun | wadjet/dml.go:313-326 | so whatever the redo loop of an UPDATE or DELETE does is such a run, and every result about runs is about it |
| Loops.MergeRetryIsRun | wadjet/dml.go:551-555 | and so is whatever the redo loop of a MERGE does, each attempt reading its source again; what takes effect is the MERGE over the source its last attempt read |
| Compaction.MergeFiles | internal/storage/compaction/compactor.go:705-805 | the merged rows are exactly the rows of the inputs that the snapshot's markers left standing |
| Compaction.MergedIsFaithful | internal/storage/compaction/compactor.go:705-805 | the merged file stays a faithful cut of its inputs however the store grows afterwards |
| Compaction.CompactOnce | internal/storage/compaction/compactor.go:526-588 | whatever the other writers did since its read, a pass leaves the contents of the table unchanged, and without a swap it leaves everything unchanged |
| Merge.KeyEqualIsKeyedAlike | wadjet/dml.go:1015-1057 | two ON-key values are equal exactly when they are the same once integers of both widths and floats of both widths are one box each, NULL equal to NULL alone and NaN to nothing; so key equality is an equivalence on everything but NaN |
| Merge.MatchMeans | wadjet/dml.go:1015-1057 | two rows match exactly when for every ON key the source row's source column and the target row's target column hold the same box, an absent column holding NULL and NaN matching nothing |
| Merge.FirstFiringMeans | wadjet/dml.go:2237-2253 | the clause that fires is of the right kind, its condition holds, and every earlier clause of that kind was false; none fires exactly when all are false; the search fails exactly at a condition that fails, all earlier ones of that kind being false |
| Merge.JoinSource | wadjet/dml.go:643-710 | one source row against every target and then their absence, stopping at the first error, as the reference fold says |
| Merge.JoinRows | wadjet/dml.go:643-713 | the nested loop ends in a plan only when everything it needed had a value and no target is affected twice, and the plan is then the one the bag of source rows decides; it refuses with 21000 only on such a clash, and fails only when something it needs has no value |
| Merge.SourcesMean | wadjet/dml.go:637-742 | 21000 exactly when a source row fires on a target an earlier one has affected; otherwise affected targets, replacements, inserts and count are fixed by the bag of source rows: an unmatched row inserts what the VALUES of the first NOT MATCHED clause that fires make of it, and nothing when that clause is no INSERT |
| Merge.PlannedIsSettled | wadjet/dml.go:637-742 | a join that ends in a plan has evaluated every condition and value it needed, for every pair |
| Merge.RefusedIsClash | wadjet/dml.go:667-693 | 21000 is never the answer to an expression that fails |
| Merge.OrderFreeIff | wadjet/dml.go:643-742 | permuting the source rows never changes refusal, affected rows, replacements, inserts or count if and only if clashing is symmetric |
| Merge.NoMatchedInsertIsOrderFree | wadjet/dml.go:643-742 | with only UPDATE and DELETE matched clauses the order of the source rows never matters |
| Merge.MatchedInsertDependsOnOrder | wadjet/dml.go:659-701 | with a WHEN MATCHED THEN INSERT clause, two source rows are merged in one order and refused with 21000 in the other |
| Merging.ReadMergeTarget | wadjet/dml.go:839-866 | every live row once, with the row its carried (file, position) holds, and nothing else |
| Merging.GroupByFile | wadjet/dml.go:718-727 | grouping by file from an unordered walk keeps exactly the affected addresses, no position twice |
| Merging.GroupMarkers | wadjet/dml.go:715-734 | the markers name exactly the affected rows' carried addresses, one marker per file, no empty one, no position twice |
| Merging.MergeOnce | wadjet/dml.go:557-777 | nothing is written unless the join ends in a plan; then the affected rows and the new rows are committed together or not at all, and the count reported is the plan's |
| Merging.RetryMerge | wadjet/dml.go:551-555 | at most five attempts, each reading target and source again; the MERGE takes effect once, at the first that is not refused, and otherwise leaves exactly what the other writers made |
| Merging.MergeContents | wadjet/dml.go:637-771 | what MergeOnce's commit means: the contents are the contents at commit minus the affected rows plus one replacement per UPDATE firing plus the VALUES rows of the unmatched source rows, and the count is affected rows plus inserts |
| Merging.AffectedOnce | wadjet/dml.go:667-693 | in a MERGE whose join ends in a plan no target row is affected by two source rows |
| Rejoins.JoinIsDecision | wadjet/dml.go:637-742 | the nested loop over addressed rows plans exactly when, and exactly what, the join decides on the bag of target rows alone |
| Rejoins.MergeIsPlan | wadjet/dml.go:557-777 | what a MERGE attempt decides from the live rows it read is a plan of the transition system's MERGE, and a join that does not plan is that MERGE's refusal |
| Rejoins.SameMatchesSameJoin | wadjet/dml.go:637-742 | however the contents change, the join decides the same while the rows that match some source row on the ON keys are the same |
| Rejoins.MergeEqualsRerun | wadjet/dml.go:291-326 | so a MERGE whose matching rows at its commit are those it read leaves exactly what running it alone there leaves |
| Rejoins.MergeRerunIff | wadjet/dml.go:291-326 | without that hypothesis: the decision a waiting MERGE carries was made on some contents, and for whichever contents account for it a commit equals the re-run if and only if the inserts and the rows the attempt missed balance the inserts and replacements the join there would make, or, when it would refuse, the attempt puts back what it takes out |
| Rejoins.ArrivedMeanwhile | wadjet/dml.go:637-742 | on any contents without the row a MERGE that inserts what is missing inserts it, on the same contents with the row it inserts nothing, and the first decision does not come to the second |
| Races.RowDoubled | wadjet/dml.go:637-771 | so from any table without the row, a run in which the row arrives while that MERGE waits ends with the row twice; the replay in commit order has it once |
| ProviderRuns.StepKeepsInv | internal/auth/provider.go:73-127 | every load, store and swap keeps: the running set's origin is the last one installed, no origin installed twice, a bound copy has its original's origin |
| ProviderRuns.RunsNeverRevert | internal/auth/provider.go:73-127 | over every interleaving of attaches and installs, installed sets only ever follow one another; none comes back after it was replaced |
| ProviderRuns.BindKeepsOrigin | internal/auth/provider.go:108-114 | no step of an attach, its swap included, replaces the running policies by those of another install |
| ProviderRuns.RunsStayBound | internal/auth/provider.go:234-267 | with one catalog attached and no stale install in flight, every interleaving leaves the running set bound to it |
| ProviderRuns.AlwaysBoundIff | internal/auth/provider.go:234-267 | with one catalog attached, every interleaving keeps the running set bound if and only if no install that read "no catalog" is still in flight |
| ProviderRuns.MissedInstallRunsUnbound | internal/auth/provider.go:234-239 | from a fresh provider there is an interleaving that ends with a catalog attached, no error recorded and an unbound set running |
| BindRecords.RunsUse | internal/auth/provider.go:73-127 | over every interleaving of attaches of one catalog and installs, the attached catalog is that one or none, and every set a call is about to run is of it |
| BindRecords.AlwaysHonestIff | internal/auth/provider.go:86-120 | from any such state, whoever finds the catalog attached and no error on record is right that the running set is bound, at every later step of every interleaving, if and only if the catalog is attached by then, no install that read "no catalog" is in flight, and the set is bound or else the error is on record and no call is on its way to clear it |
| BindRecords.RefusedMidway | internal/auth/provider.go:93-94 | five steps of one refused attach on a fresh provider: the catalog is attached, no error is on record yet, and the running set is unbound |
| LoneCalls.AttachAlone | internal/auth/provider.go:73-127 | an attach nobody interferes with, at any of its 32 attempts: recorded as bound already it writes nothing; bound, a copy of the running set takes its place, is on record and there is no error; refused or out of attempts, the catalog and the refusal are remembered |
| LoneCalls.LostSwapTriesAgain | internal/auth/provider.go:111-113 | an attach that lost its swap changes nothing and looks again, one attempt on |
| LoneCalls.InstallAlone | internal/auth/provider.go:234-267 | an install nobody interferes with: unbound with no catalog, bound to the one attached, or refused with the previous set running and the refusal remembered |
| Providers.Provider.constructor | internal/auth/provider.go:177-190 | a new provider runs its set unbound, with no catalog and no error |
| Providers.Provider.InstallState | internal/auth/provider.go:234-267 | a set that cannot be bound is not installed, the previous one keeps running and the refusal is remembered; otherwise the new set runs bound to the attached catalog |
| Providers.Provider.BindToCatalog | internal/auth/provider.go:73-127 | at most 32 attempts; the policies running afterwards are the last ones installed; an error is remembered; a nil return leaves the set bound to the catalog except exactly when the catalog and set were already recorded as bound although they were not, and then the error on record stays |
| Providers.AnySequence | internal/auth/provider.go:157-165 | after every sequence of whole attaches and installs, with any catalogs and failures, a catalog attached and no error on record mean the running set is bound to that catalog |
| Providers.ReattachAfterRefusal | internal/auth/provider.go:79-81 | attaching a refused catalog a second time returns no error although the running set is bound to another; the recorded error remains |
| Names.FoldIsFolded | internal/engine/batch/schema.go:22-56 | folding gives a folded name, and a name is folded exactly when folding leaves it alone |
| Names.EqualFold | internal/engine/batch/schema.go:61-79 | equality up to ASCII case is equality of the folds |
| Names.ResolveIndex | internal/engine/batch/schema.go:104-150 | the index found is what the reference denotes, byte-exact first and then the only fold-match of a folded reference; none found means it denotes nothing |
| Names.UnqualifiedFoldWhole | internal/engine/batch/schema.go:163-183 | for names without a dot, matching the qualifier byte-exact and the column folded is matching the whole name folded |
| Names.UniqueMatch | internal/engine/batch/schema.go:135-150 | found exactly when there is one fold-match |
| Names.ResolveTableName | internal/storage/catalog/catalog.go:574-612 | under the ASCII fold, the name returned is the reference's resolution in the registered tables |
| Names.ResolveKeepsFold | internal/storage/catalog/catalog.go:574-612 | resolution under the ASCII fold changes a name's ASCII case and nothing else |
| Names.ResolveTwice | internal/storage/catalog/catalog.go:574-612 | a resolved name resolves to itself |
| Names.RelationEqIsNotTransitive | internal/auth/abac_eval.go:387-396 | two delimited spellings equal the unquoted one and not each other |
| Names.ComparesByTableIff | internal/auth/abac_eval.go:387-396 | under the ASCII fold, comparing a resolvable spelling with a table's name is the same as asking whether it names that table, for all spellings and tables, if and only if no folded table name has a case twin |
| Names.TwinComparesToo | internal/auth/abac_eval.go:387-396 | with tables hits and Hits, the spelling hits names the first and compares equal to both |
| Names.NoTwinsIsEnough | internal/storage/catalog/catalog.go:574-612 | a catalog without case twins meets that condition |
| Names.OneFoldOneTable | internal/storage/catalog/catalog.go:574-612 | in a catalog without case twins, two spellings with one fold that both resolve name one table |
| CaseFolds.ResolveTableName | internal/storage/catalog/catalog.go:574-612 | under any case fold at least as wide as the ASCII one, the catalog's loop returns the table itself, or the only case match of a folded reference, or the reference |
| CaseFolds.WideKeepsFoldIff | internal/auth/policy.go:65-67 | whatever a reference resolves to has its ASCII fold, and so its policy key, if and only if every table no other is a case match of is spelled in characters without other cases than ASCII ones |
| CaseFolds.WideComparesByTableIff | internal/auth/abac_eval.go:387-396 | comparing a spelling with a table's name is asking whether the catalog resolves it to that table, for all spellings that resolve, if and only if that holds and no folded table name has an ASCII case twin |
| CaseFolds.ResolversAgreeIff | internal/storage/catalog/catalog.go:574-612 | the catalog's resolver answers every reference as the ASCII one does, if and only if that holds and no table that is alone under the ASCII fold has a case match under the wider one |
| CaseFolds.LongS | internal/storage/catalog/catalog.go:599 | with a fold that takes the long s for an s, a reference spelled with one resolves to the table hits and compares equal to no spelling of it |
| Policies.ConditionMeans | internal/auth/abac_eval.go:323-365 | a condition holds, operator by operator, of the attribute's value by equality or membership, relation names also in two spellings one of which is folded; of an absent attribute exactly the three negations hold |
| Policies.RuleMatchesMeans | internal/auth/abac_eval.go:247-307 | a rule matches exactly when its action filter, all conditions of its subject, resource and environment lists, and for an allow on a capability its own naming of the type are met |
| Policies.Evaluate | internal/auth/abac_eval.go:50-118 | denied when a deny of an enabled policy applies, citing one of highest priority; allowed exactly when none does and some allow applies, with exactly the obligations of the allows that apply; denied by default. A rule applies when its actions are empty or name the action, every condition of its three lists is met by the attributes, and, for an allow on a resource that is no table, a condition says the type |
| Decisions.EvaluateTableAccess | internal/auth/abac_eval.go:122-183 | allowed exactly when no enabled deny applies, some enabled allow does and every obligation owed is of a known type; then the columns, ceilings and passing rows are those of the obligations of the allows that apply, and otherwise nothing is allowed |
| Decisions.FilterMeans | internal/auth/abac_eval.go:141-147 | under three-valued AND a row passes exactly when every filter of every rule that speaks is true of it |
| Decisions.ColumnsMean | internal/auth/abac_eval.go:148-159 | one refused entry without a mask for every deny_column and one allowed entry with its function and expression for every mask_column, with equal multiplicities, and no other entry |
| Decisions.LimitsMean | internal/auth/query_limit.go:72-100 | each ceiling is the least positive one the obligations name, or none when they name none |
| Decisions.RuleOrderIsFree | internal/auth/abac_eval.go:50-183 | putting the rules in any order changes neither access, the rows that pass, the column decisions nor the ceilings |
| Decisions.PolicyOrderIsFree | internal/auth/abac_eval.go:50-183 | and neither does listing the policies in any order |
| Decisions.LoadedOrderIsFree | internal/auth/abac_validate.go:19-44 | a set the loader accepts decides the same however its policies are listed |
| Decisions.LoadedRefusesIff | internal/auth/abac_validate.go:19-44 | a set the loader accepts allows a request if and only if no deny speaks and some allow does: no obligation of it is ever one that cannot be enforced |
| Decisions.ValidatePolicies | internal/auth/abac_validate.go:19-44 | the loader accepts exactly the sets all of whose obligations pass, in disabled policies too |
| Decisions.LoadedOwes | internal/auth/abac_validate.go:175-240 | whatever a loaded set owes on a request can be enforced as written: filters are predicates, columns have names, a mask has a function or an expression that was checked against every column its rule takes away, ceilings can be read |
| Decisions.DenyOnlyCloses | internal/auth/abac_eval.go:78-91 | another deny refuses where it speaks and changes nothing where it does not |
| Decisions.AllowOnlyNarrows | internal/auth/abac_eval.go:93-112 | another allow, on a request already allowed, never lets a row through that did not pass, never drops a column decision, never raises a ceiling, or refuses |
| Decisions.TextOrderFreeIff | internal/auth/abac_eval.go:141-147 | for filters that were not checked by the loader: every order gives a filter that is well formed or not alike and lets the same rows through, if and only if none of them is empty or all are |
| Decisions.BlankFilterMatters | internal/auth/abac_eval.go:141-147 | a blank filter before a written one vanishes, and after it makes a conjunction that is not a predicate |
| Decisions.NarrowIsMeet | internal/auth/query_limit.go:105-124 | narrowing two sets of ceilings is their greatest lower bound, commutative, associative and idempotent |
| Bindings.ResolveRelation | internal/auth/policy_bind.go:308-320 | a relation is bound to its resolution when that can be read and the reference is not ambiguous, and refused otherwise |
| Bindings.AmbiguousTableNames | internal/storage/catalog/catalog.go:621-646 | ambiguous exactly when a folded reference that is no table fold-matches two or more |
| Bindings.ResolveColumn | internal/auth/policy_bind.go:327-347 | a column is bound only when every relation resolves it, all to one name |
| Bindings.BoundColumnMeans | internal/auth/policy_bind.go:327-347 | a bound column is a column of every relation the rule names, and folds as it was written |
| Bindings.BindConditions | internal/auth/policy_bind.go:117-172 | every relation a condition names is rewritten to the table it is bound to, the wildcard and every other condition left alone; the relations collected are exactly the tables the eq and in conditions are bound to |
| Bindings.BindObligations | internal/auth/policy_bind.go:249-272 | the column targets are rewritten in place to the reference binding |
| Bindings.BindRule | internal/auth/policy_bind.go:95-111 | a rule of the copy is bound in place exactly when it is about other resources, or every relation it mentions is found and every column it polices is one column of all tables in scope; bound, it has the catalog's spellings and is otherwise unchanged |
| Bindings.CloneRules | internal/auth/policy_bind.go:57-73 | the copy has the same rules in storage of its own |
| Bindings.BindPolicies | internal/auth/policy_bind.go:42-54 | the bound copy is returned exactly when every rule binds in that sense, each rule then having the catalog's spellings; no existing object is modified either way |
| Bindings.BindRuleTwice | internal/auth/policy_bind.go:95-111 | binding a bound rule again gives the same rule |
| Bindings.BoundRuleMeans | internal/auth/policy_bind.go:95-272 | the same of the reference binding: when a rule is refused and what it becomes, from its conditions and obligations as written |
| Bindings.BoundTargetIsColumn | internal/auth/policy_bind.go:249-272 | the column of a bound obligation is, as it is spelled, a column of every table the rule is scoped to |
| Bindings.BoundRelationMeans | internal/auth/policy_bind.go:308-320 | a name is bound to a table exactly when the table can be read and is what the name denotes |
| Bindings.OthersNeverSpeak | internal/auth/policy_bind.go:186-224 | a rule the binder leaves alone because its type conditions leave tables out speaks about no table |
| LegacyPolicies.PolicySet.Add | internal/auth/policy.go:70-72 | a policy is stored under its own key and every policy keeps sitting under its own; no other pair's policy is replaced when the pair's key can be read only one way |
| LegacyPolicies.PolicySet.Lookup | internal/auth/policy.go:75-88 | a stored policy of the role on any spelling of the relation is the one found; when every stored key can be read only one way, anything found is that or, failing it, the role's wildcard policy, and nothing found means neither is stored |
| LegacyPolicies.KeyNamesPairIff | internal/auth/policy.go:49-67 | a key belongs to one (relation, role) pair if and only if the relation has no colon and no colon of the role follows folded text |
| LegacyPolicies.LookupIsRightIff | internal/auth/policy.go:49-88 | every lookup gives the pair its own policy, else its wildcard, else none, if and only if every stored key can be read only one way |
| LegacyPolicies.KeysCollide | internal/auth/policy.go:49-88 | the policy of relation a:b for role c is found for relation a and role b:c |
| LegacyPolicies.BoundKey | internal/auth/policy_bind.go:274-301 | a policy bound under the ASCII fold keeps its (relation, role) key, because that resolution keeps the fold |
| LegacyPolicies.BindTwice | internal/auth/policy_bind.go:274-301 | a bound policy can be bound again, to itself and to nothing else |
| LegacyPolicies.DeterminedIff | internal/auth/policy_bind.go:286-294 | the bound column map does not depend on the order of the map walk if and only if columns that resolve to one name ask for the same action |
| LegacyPolicies.FoldAlikeColumnsRace | internal/auth/policy_bind.go:286-294 | policed columns Id and id of a table that has Id can be bound with either action |
| LegacyPolicies.BindLegacy | internal/auth/policy_bind.go:77-93 | the bound copy has exactly the same keys, each entry the bound form of the entry it copies, or nothing is returned; no existing object is modified either way |
| Meanings.BindingKeepsMeaning | internal/auth/policy_bind.go:117-172 | in every catalog and for every spelling that resolves, a bound rule speaks exactly when the rule as written does |
| Meanings.BoundConditionMeans | internal/auth/abac_eval.go:323-340 | a bound eq, neq, in or not_in on the relation holds of a spelling exactly when the table the spelling names is, or is not, one of those the policy named |
| Resolvers.BoundIsByTable | internal/auth/policy_bind.go:117-172 | what a bind leaves of a condition on the relation compares it with registered tables only |
| Resolvers.SameDecisionForSpellings | internal/auth/plan_enforce.go:342-350 | for bound rules the whole decision depends on how a spelling compares with the tables, not on the spelling |
| Resolvers.PolicyResolver.DecideTable | internal/auth/plan_enforce.go:342-350 | for any spelling the answer is that of the first one asked with its key, and it is the fresh one whenever the two compare alike with every table |
| Resolvers.SpellingsAgreeIff | internal/auth/plan_enforce.go:342-350 | any two spellings with one lower-cased key are decided alike by all bound rules if and only if they compare alike with every table |
| Resolvers.OneKeyOneDecisionIff | internal/auth/plan_enforce.go:342-350 | one key can stand for all its spellings that resolve if and only if no two delimited table names are case twins |
| Resolvers.QuotedTwins | internal/storage/catalog/catalog.go:372-381 | the names Hits and HITS, not byte-equal, are two delimited tables that differ in case alone |
| Resolvers.TwinsResolve | internal/storage/catalog/catalog.go:574-612 | two delimited tables that differ in case alone each resolve to themselves and do not compare equal |
| Resolvers.AskedForItsTwin | internal/auth/plan_enforce.go:342-350 | the condition is needed: for any such twins and a policy that allows the first alone, a statement that reads both is answered yes for the second, where a fresh evaluation refuses it |
| Resolvers.AskedWithoutItsFilter | internal/auth/plan_enforce.go:433-450 | and with a row filter on the second alone, the second's answer is without the filter a fresh evaluation has |
| Migration.MigrateRBACToABAC | internal/auth/abac_config.go:18-185 | the loops produce the reference translation, and nothing exactly when some column action cannot be read |
| Migration.MigratedAllowsIff | internal/auth/abac_config.go:18-185 | the migrated policies allow exactly what the identity's role grants and, for a read, what a cell policy of the role lets through |
| Migration.MigrationIsExactly | internal/auth/table_access.go:34-71 | for every identity with a role of its own name, every table and every action, the migrated path allows exactly what the legacy path does plus, inside the role's permission gate, an empty table list, another spelling of a listed table, or a cell policy's own grant |
| Migration.EmptyListOpensUp | internal/auth/abac_config.go:18-185 | a role with an empty table list reads nothing before migration and every table after |
| Migration.LegacyImpliesMigrated | internal/auth/abac_config.go:18-185 | whatever the lists and the cell policies, what the legacy path allows the migrated path allows |
| Migration.MigrationPreserves | internal/auth/table_access.go:34-71 | with non-empty table lists in the spelling used and cell policies on the role's own tables, the two paths agree |
| Migration.MigrationPreservesReadIff | internal/auth/authorizer.go:12-35 | for a read inside the gate the two paths agree if and only if the table is listed or none of those three widenings applies |
| Duties.MigratedEnforces | internal/auth/abac_config.go:115-180 | whatever the migrated policies allow, they enforce exactly what the cell policies of the role on the table say: the denied columns hidden, the masked ones redacted, the rows that pass every row filter, no ceiling; only reads are policed |
| Duties.OnlyAdminsCall | internal/auth/abac_config.go:59-106 | after migration a table function may be called, to read, by exactly the roles that hold admin |
| Duties.MigratedLoadsIff | internal/auth/policy_bind.go:95-272 | the migrated policies bind to a catalog if and only if every table a role lists is found, and every cell policy that asks for anything has its table and its columns there |
| RateLimits.ChargedInBounds | internal/auth/ratelimit.go:26-41 | after every call the bucket holds between zero and burst tokens |
| RateLimits.WindowBound | internal/auth/ratelimit.go:26-41 | for every non-decreasing call sequence and every window, admissions are at most burst plus rate times the window's length |
| RateLimits.SweptAnswers | internal/auth/ratelimit.go:75-105 | when an idle bucket refills within the interval, a sweeping limiter answers every run of calls and sweeps as one that never evicts |
| RateLimits.UnobservableIff | internal/auth/ratelimit.go:92-105 | no run tells the two apart if and only if rate times interval is at least burst |
| RateLimits.LimiterWindowBoundIff | internal/auth/ratelimit.go:75-105 | every run, identity and window keeps to the bound if and only if rate times interval is at least burst |
| RateLimits.TwoBurstsAdmitted | internal/auth/ratelimit.go:75-105 | drained, swept and drained again, a limiter admits two bursts in the time between |
| RateLimits.TokenBucket.Allow | internal/auth/ratelimit.go:26-41 | the in-place update and answer are those of the reference bucket |
| RateLimits.RateLimiter.Allow | internal/auth/ratelimit.go:75-90 | a call charges exactly the identity's bucket, made full when there is none, and touches no other |
| RateLimits.RateLimiter.CleanUp | internal/auth/ratelimit.go:92-105 | a sweep removes exactly the buckets idle for longer than the interval |
| Schedulers.RunsExclude | internal/alerts/scheduler.go:83-124 | every interleaving keeps at most one goroutine per alert between claim and release, the name in flight exactly while there is one, and the wait count equal to the goroutines it stands for |
| Schedulers.ZeroMeansDrained | internal/alerts/scheduler.go:60-81 | a wait count of zero means every loop has left and no evaluation is running or holds a claim |
| Schedulers.WaitIsFinal | internal/alerts/scheduler.go:77-81 | after Wait can return, nothing runs again unless a new loop is started |
| Schedulers.EveryRun | internal/alerts/scheduler.go:60-124 | from a new scheduler, over every run: exclusion, and the count is zero if and only if everything has ended |
| Drains.NoneIsPassedOver | internal/alerts/scheduler.go:83-108 | over every interleaving, a loop is past a due alert only if the alert was in flight, claimed by this tick or before |
| Drains.ReleasedIsFinished | internal/alerts/scheduler.go:101-107 | a claim is given back only after the evaluation has finished |
| Drains.LeavesWhenCancelled | internal/alerts/scheduler.go:60-75 | a loop leaves only after the context is cancelled, and a cancelled context stays so |
| Drains.WaitCanReturn | internal/alerts/scheduler.go:60-124 | from every state a scheduler comes to, cancelling and starting nothing new lets everything under way run out: a count of zero and no claim can be reached |
| Schedulers.ClaimSet.TryClaim | internal/alerts/scheduler.go:110-118 | a claim succeeds exactly when the name is free, and then holds it |
| Schedulers.ClaimSet.Release | internal/alerts/scheduler.go:120-124 | a release frees exactly the name |
| Quoting.UndoubleDouble | internal/alerts/history.go:101 | reading doubled quotes undoes doubling them, for every string |
| Quoting.LexString | internal/planner/sql/lexer.go:856-879 | the value read and where reading stops are exactly those of a literal that begins here: its value with quotes doubled, a quote, and then no quote; unterminated exactly when there is none |
| Quoting.LexesOnce | internal/planner/sql/lexer.go:856-879 | a text is the body of one literal at most |
| Quoting.QuotedLexes | internal/alerts/history.go:101 | no value ends its own literal: quoted with its quotes doubled it is read back whole, whatever it holds and whatever follows |
| Quoting.StringSurvives | wadjet/dml.go:4170-4192 | every string, the word NULL and surrounding spaces included, is what a text column gets from its literal |
| Quoting.NullOnlyFromKeyword | wadjet/dml.go:3915-3947 | of all constants only the NULL keyword gives NULL |
| Quoting.NumberSurvives | wadjet/dml.go:3915-3947 | a number keeps its text and a minus sign, and loses a plus sign |
| Quoting.IdentInvertsQuoting | wadjet/dml.go:1146-1153 | a delimited identifier is read back byte for byte |
| Quoting.IdentFolds | wadjet/dml.go:1146-1153 | an undelimited name is folded, so that every spelling of it is one name |
| Clauses.SplitSetClauses | wadjet/dml.go:1109-1137 | the clauses are the trimmed stretches between the separating commas, an empty last one left out; a comma separates when the quotes before it are even in number and, outside string literals, as many parentheses have been closed before it as opened |
| Clauses.SeparatorsAre | wadjet/dml.go:1109-1137 | the positions cut at are exactly those commas, in order |
| Clauses.SplitInvertsJoinIff | wadjet/dml.go:1109-1137 | for all lists of items, splitting their comma-join gives every item back, trimmed, if and only if every item but the last has no separating comma and closes its literals and parentheses, and the last has text and no separating comma |
| Clauses.NotListable | wadjet/dml.go:1109-1137 | a bare comma inside an item, and an empty last item, are both lost |
| Numerics.RenderedIsExact | wadjet/dml.go:1798-1819 | the division at the display scale comes out even: whole and fractional digits together are exactly the literal's scaled value |
| Numerics.ScaleIsLeast | wadjet/dml.go:1798-1819 | the display scale is the least number of places at which the literal is a whole number of units |
| Numerics.RoundedIsNearest | wadjet/dml.go:1798-1819 | the decimal rendered at any scale is the nearest one, the upper one of two equally near |
| Numerics.RenderKeepsValue | wadjet/dml.go:1798-1819 | a numeric literal and its rendered text denote the same rational, and the text shows the literal's display scale |

## Left out

- Parquet, ingest, object store and key-value store internals: a data file is a sequence of rows under a fresh path, and one manifest compare-and-swap is one step; incarnation checks, statistics, retirement of old files and the storage errors of a commit are not modelled.
- SQL parsing, planning and expression evaluation: predicates, SET values, WHEN conditions, masks and row filters are arbitrary total functions, or functions that may fail where the source lets them fail.
- MERGE's per-reference value lookup with its fall-back spellings, its exposed-name and ON-key checks: a clause's value and condition are functions of the two rows.
- The assignment-cast table and every converter but the text one: a column gets the value its SET or VALUES expression is taken to have, so which literals a numeric, boolean, temporal or binary column accepts, how they are rounded and which casts are refused is not modelled.
- Merge.KeyEqualIsKeyedAlike: boxes Go cannot compare, such as lists, are not among the values of a row.
- Bindings.BindPolicies: the rules of all policies are one list, since a policy's name and version only appear in messages; a list operand holds only strings or no string at all.
- Names.ResolveIndex: a name is matched whole under the fold, where the engine keeps the part before the first dot byte-exact; UnqualifiedFoldWhole says that the two agree on names without a dot.
- Names.ResolveTableName: resolves under the ASCII fold, where the catalog's own loop (`CaseFolds.ResolveTableName`) folds more; Bindings, Meanings and Resolvers build on it, and `CaseFolds.ResolversAgreeIff` says for exactly which catalogs the two answer alike.
- Names.ResolveKeepsFold: speaks of the ASCII resolver; `CaseFolds.WideKeepsFoldIff` says when the catalog's keeps the fold.
- Names.ComparesByTableIff: speaks of the ASCII resolver; `CaseFolds.WideComparesByTableIff` has the condition for the catalog's.
- LegacyPolicies.BoundKey: speaks of the ASCII resolver; `CaseFolds.WideKeepsFoldIff` says when a name the catalog resolves keeps its key.
- CaseFolds.ResolveTableName: the wider fold is any map from characters to representatives; the Unicode tables themselves, and bytes that are not text, are not modelled.
- Resolvers.PolicyResolver.DecideTable: the cache key is the ASCII fold, which is the lower case of an ASCII name. With a catalog attached no statement brings the cache a spelling that names nothing: the binder answers 42P01 before a policy is asked (internal/planner/physical/validate.go:1843-1858, internal/planner/physical/validate_policy.go:57-70).
- Decisions.LoadedOrderIsFree: of the loader's checks the model has those on obligations, with what the SQL parser says of a filter or a mask as parameters; the closed sets of effects, actions and operators are the constructors of the model's types, and the check of attribute names is not modelled.
- Policies.Evaluate: attribute values are their printed text, and the ordering, substring and pattern operators are arbitrary tests of that text; an absent evaluator, which allows everything, is not modelled.
- Migration.MigrateRBACToABAC: a column action is taken as already read, with the ones that cannot be read marked; the nil-provider, disabled and unauthenticated answers of the access check come before what is modelled.
- RateLimits.WindowBound: tokens and time are real numbers, the rate is not negative and the clock does not go back; the defaulting of burst and interval is not modelled.
- Providers.Provider.BindToCatalog: other installs land whole between the copy and the swap of an attempt; the interleaving of single loads and stores is in ProviderRuns.
- Numerics.RenderedIsExact: a literal is unsigned, its exponent any integer; the limits the library puts on exponents are not modelled.
- Schedulers.RunsExclude: that an alert is evaluated at most once per interval is not claimed, because a tick decides on a snapshot taken before the claim; what an evaluation does is not modelled.
- Authentication, audit logging, HTTP and wire protocols, alert sinks, and everything under cmd, benchmarks and deploy.
