# Verified model of the decision code in `execution/`

A Dafny 4.11 model of the scripts that decide what is committed, switched, kept, approved and counted, with proofs of
what they promise over every input and every run. `dafny verify dfyconfig.toml` checks all of it.

| component | files |
|---|---|
| exactly-once KPI repair | `RefreshDatabase`, `RefreshTransaction`, `RefreshOnce`, `RefreshAcceptance`, `RefreshProtocol`, `RefreshExecutor`, `RepairAuthority` |
| exactly-once KPI dispositions | `Dispositions`, `DispositionProtocol`, `DispositionExecutor` |
| thesis episode audit | `StringOrder`, `CanonicalJson`, `EpisodeNormalForm`, `EpisodeIdentity`, `EpisodeReconstruction`, `EpisodeAudit` |
| automatic model switching | `Wilson`, `SwitchEvidence`, `SwitchDecision`, `SwitchRuns` |
| template payload recovery | `TemplatePattern`, `TemplateMeaning`, `TemplateExtraction` |
| coverage chain and cohort audit | `CoverageChain`, `CoverageCommitment`, `CoverageCohort` |
| backup retention | `BackupRetention`, `BackupPlan` |
| alert approval | `Approvals`, `AlertSettlement`, `ApprovalRace` |
| fiscal quarters | `FiscalQuarters`, `ReleaseWindows` |
| shared | `Sequences`, `Indexing` (dictionaries), `StableSort` (Python's sorted), `Wrappers` |

Code that changes state is a class or a method with its loops, proved against a function; what the code promises is then
proved about that function. Protocols are step machines whose events may come in any order. Times are integers, numbers
that Python holds as floats are exact reals, and the Wilson bound's square root is any value whose square is the radicand.

Where code and documentation disagree, the model follows the code:

- `execution/apply_model_switches.py:26-28` claims idempotence. It fails after a revert; the exact condition is
  `SwitchRuns.IdempotentIff`, and two runs always suffice. The revert branch ignores the manual lock, as written.
- `execution/backup_file_gc.py:28` says that a second run plans nothing. Compressing gives a fresh modification time, so
  it may prune what the first run kept (`BackupPlan.CompressionLosesABackup`; when it does not, exactly, is
  `BackupPlan.NextRunPlansNothingIff`), and a compressed file may overwrite a surviving one of the same name
  (`BackupPlan.CompressionOverwrites`; when no file is lost so, exactly, is `BackupPlan.SurvivorsIff`).
- `execution/apply_kpi_semantic_refresh.py:1905-1914` can raise after the commit. The rows are then committed, the receipt
  says failed, and the marker sealed to it blocks every later attempt (`RefreshProtocol.FailedMarkerBlocksForGood`).
- `execution/apply_kpi_semantic_refresh.py:901-902` compares the current context without its source value text, while the
  entry is stored with it, so a binding can report a context row and add none (`RefreshOnce.BindAddsRowIff`), and its
  commit may not be recognised later (`RefreshOnce.CommitIsDetectedIff`). Neither is a commit that names a fact twice in
  different ways, which the manifest's rules allow (`RefreshAcceptance.ConflictCommits`).
- `execution/approve_queued_action.py:147-188` closes an alert with its last action, but dismissing an alert of a thesis
  episode only acknowledges the episode (`AlertSettlement.EpisodeStaysOpen`; exactly when the alert closes is
  `AlertSettlement.LastActionClosesIff`).
- `execution/backtest_prompt_candidate.py:124-133` refuses genuine renders of registered templates whose doubled braces
  spell a variable, whose variables are no identifiers, or whose slots have a conversion or a format specification; it is
  exact on all others (`TemplateExtraction.AcceptsEveryRenderIff`).
- `execution/backfill_transcripts.py:159-172` returns its whole window for a number of quarters below one.

Assumptions: str.isidentifier is any predicate on texts; SHA-256 does not collide on the texts a statement names; SQLite transactions and single statements are
atomic; other writers of the append-only tables append (`RefreshProtocol.Lawful`, `DispositionProtocol.Lawful`).

## Model

| member | source | states |
|---|---|---|
| RefreshAcceptance.TransactionSucceedsIff | execution/apply_kpi_semantic_refresh.py:1837-1875 | the repair commits a manifest exactly when, on the tables as they were, every entry is admissible and resolves, the definitions are new and for different roots, and the entries on any one fact come in an order that works: nothing but a binding without a definition follows a supersession, and no supersession has the last word on a fact that was also bound |
| RefreshAcceptance.DifferentFactsInOrder | execution/apply_kpi_semantic_refresh.py:1837-1875 | entries on different facts work in every order |
| RefreshAcceptance.ConflictCommits | execution/apply_kpi_semantic_refresh.py:298-424 | a manifest that binds one fact to two contexts commits, and is not recognised |
| RefreshTransaction.DetectionAgreesWithReplay | execution/apply_kpi_semantic_refresh.py:1310-1378 | a head vector verifies against a marker exactly when marker-less detection finds that very vector, so at most one vector ever verifies and both recoveries agree |
| RefreshOnce.WritingWrites | execution/apply_kpi_semantic_refresh.py:991-1136 | applying an entry only appends: one result head, chains of other facts and definitions untouched, one new successor of a superseded fact, the definition chain extended from the expected revision |
| RefreshOnce.CommittedRowsBlockForever | execution/apply_kpi_semantic_refresh.py:875-902 | after a commit that added rows, the manifest can never commit again, however the chains grow and whatever else changes |
| RefreshOnce.SecondCommitChangesNothing | execution/apply_kpi_semantic_refresh.py:1837-1875 | the transaction is idempotent: run again on what it committed, it is blocked or leaves every table as it is |
| RefreshOnce.CommitIsDetectedIff | execution/apply_kpi_semantic_refresh.py:1351-1378 | the state right after a commit is recognised, without a marker, as exactly the committed heads if the entries on any one fact are bindings that ask for the same, and every binding brings a context its fact does not have or finds one stored by this very reviewer at this knowledge time; otherwise as no commit at all |
| RefreshOnce.CommitNotDetected | execution/apply_kpi_semantic_refresh.py:901-902 | the second case happens: a binding whose context another reviewer has stored is committed, reports a row, adds none, and is not recognised |
| RefreshProtocol.RowsAddedAtMostOnce | execution/apply_kpi_semantic_refresh.py:1754-1890 | over every sequence of attempts, receipts, markers, crashes and foreign appends, the rows of the manifest are added at most once |
| RefreshProtocol.AttemptAfterCommit | execution/apply_kpi_semantic_refresh.py:1460-1581 | an authorized attempt on a committed manifest adds nothing, and replays the committed heads exactly when there is no marker or its receipt is not in state failed |
| RefreshProtocol.LaterAttemptReplaysIff | execution/apply_kpi_semantic_refresh.py:1754-1981 | from the first commit on, through any publishing and crashing by other attempts and any writing to other facts, no attempt changes a table; a later attempt replays the same heads exactly when the commit is recognisable and no marker is sealed to failed diagnostics, and always if the commit is recognisable and its diagnostics succeeded |
| RefreshProtocol.FailedDiagnosticsBlock | execution/apply_kpi_semantic_refresh.py:1905-1914 | diagnostics that raise after the commit do leave the rows committed and a marker sealed to a receipt in state failed |
| RefreshProtocol.FailedMarkerBlocksForGood | execution/apply_kpi_semantic_refresh.py:1432-1454 | once such a marker exists, every later apply attempt is blocked and no attempt adds a row, in every continuation |
| RefreshExecutor.Connection.ValidateEntries | execution/apply_kpi_semantic_refresh.py:1837-1848 | the validation loop returns the blocker of the first entry that fails against the state before any write |
| RefreshExecutor.Connection.ApplyEntries | execution/apply_kpi_semantic_refresh.py:1850-1867 | the loop that writes entry by entry, with its counters and heads, computes the fold of the entries' effects |
| RefreshExecutor.Connection.RunTransaction | execution/apply_kpi_semantic_refresh.py:1815-1904 | the database ends as the whole transaction, if the last two checks of authority pass, or as it began; a dry run leaves it alone |
| RefreshExecutor.RunLocked | execution/apply_kpi_semantic_refresh.py:1696-1920 | an attempt from its first check on, with its clock, lock contention, recovery, dry run and apply, leaves the database and the report that the step machine gives it |
| RepairAuthority.Authority.Validate | execution/apply_kpi_semantic_refresh.py:1682-1698 | a check blocks or passes as its limits say, and only a passing one moves the time of the last check |
| RepairAuthority.Authority.ValidateAll | execution/apply_kpi_semantic_refresh.py:1709-1888 | all checks of a run pass exactly when each does against the time of the one before |
| RepairAuthority.AuthorityIff | execution/apply_kpi_semantic_refresh.py:532-569 | a run passes all its checks exactly when the clock never steps back, the first reading is not behind its evidence by more than the skew, and the last is within both age bounds |
| RepairAuthority.BackwardStepBlocks | execution/apply_kpi_semantic_refresh.py:543-544 | any backward step between two readings blocks the run |
| RefreshProtocol.CommitUnderFreshAuthority | execution/apply_kpi_semantic_refresh.py:1696-1890 | whatever has gone before, a step of the attempts changes the database only by a commit, and commits only when its readings of the clock ascend from the start of the run and the last satisfies the review age, the scheduler age and the judge's expiry |
| RefreshProtocol.BackwardStepCommitsNothing | execution/apply_kpi_semantic_refresh.py:543-544 | a backward step between any two checks of a run leaves the database as it was |
| Dispositions.TransactionAppliedIff | src/pipeline/kpi_semantic_dispositions.py:420-572 | a transaction goes through exactly when every entry is applicable to the tables as they were; it inserts one row, in its own name, for each entry that was not its target's head, replays the others, and leaves all other chains alone |
| Dispositions.TransactionAccounts | src/pipeline/kpi_semantic_dispositions.py:397-578 | a transaction adds to the manifest's rows exactly the number it counts, none to another's, and leaves every entry in place |
| Dispositions.Connection.ApplyEntries | src/pipeline/kpi_semantic_dispositions.py:420-572 | the loop over the entries computes the fold of their effects and counts |
| Dispositions.Connection.ExecuteTransaction | execution/apply_kpi_semantic_dispositions.py:346-414 | rows and commit row appear together or not at all, and a dry run leaves the database alone |
| DispositionExecutor.RunLocked | execution/apply_kpi_semantic_dispositions.py:485-601 | an attempt with its authority, lock contention, recovery, dry run and apply leaves the database and the report that the step machine gives it |
| DispositionProtocol.CommitRowIffEffects | execution/apply_kpi_semantic_dispositions.py:316-343 | in every reachable state and for every manifest, the rows written for it number what its commit row counts and none without one; a committed manifest has its entries in place and a judge's pass on its own dry run |
| DispositionProtocol.LaterAttemptReplaysIff | execution/apply_kpi_semantic_dispositions.py:267-313 | once the commit row exists, no attempt changes the database; an apply attempt inserts nothing and replays exactly when authorized, in possession of the lock, under the committing code and with its recovery checks holding; otherwise it is blocked |
| CanonicalJson.PrintInjective | execution/audit_thesis_episode_clone.py:226-229 | two JSON values print to the same canonical text only if equal, in both escaping modes (strings as in section 7 of RFC 8259) |
| EpisodeNormalForm.NormalIdempotent | execution/audit_thesis_episode_clone.py:411-424 | normalising twice is normalising once |
| EpisodeNormalForm.NormalFormIff | execution/audit_thesis_episode_clone.py:411-424 | two values normalise alike exactly when they differ only in list orders, at every depth, and in evaluated_at entries |
| EpisodeIdentity.SameEpisodeIff | execution/audit_thesis_episode_clone.py:458-490 | two rows share an episode exactly when ticker, status, hard and soft results are equivalent, for tickers without a line break and a digest of fixed length that does not collide on the texts hashed |
| EpisodeReconstruction.GroupRows | execution/audit_thesis_episode_clone.py:439-490 | the grouping loop files every row under its episode in query order, or stops at the first invalid row |
| EpisodeReconstruction.ExpectedEpisodes | execution/audit_thesis_episode_clone.py:439-517 | the reconstruction lists the episodes in identity order with anchor, ordinals and members as the rows determine |
| EpisodeReconstruction.ReconstructionPartitions | execution/audit_thesis_episode_clone.py:491-517 | every source row is a member of exactly one episode, ordinals run 1..k, and the first member alone is the anchor |
| EpisodeAudit.CountMemberships | execution/audit_thesis_episode_clone.py:672-700 | the counting loop yields each episode's number of relevant memberships |
| EpisodeAudit.EpisodeEvidence | execution/audit_thesis_episode_clone.py:672-760 | the loop over the clone's episodes yields their sizes and whether all of them match |
| EpisodeAudit.Report | execution/audit_thesis_episode_clone.py:830-858 | a reason is reported exactly for each failing check |
| EpisodeAudit.Audit | execution/audit_thesis_episode_clone.py:606-858 | no reason is reported exactly when the clone is verified, and the group sizes are the sorted membership counts |
| EpisodeAudit.VerifiedIff | execution/audit_thesis_episode_clone.py:672-785 | verified holds exactly when the chain of custody holds and the clone's memberships and episodes are the reconstruction's, as a total one-to-one map |
| EpisodeAudit.GroupSizesAgree | execution/audit_thesis_episode_clone.py:830-858 | a verified clone's actual group sizes equal the expected ones, although no check compares them |
| Wilson.GateWithoutRoot | execution/apply_model_switches.py:87-95 | the bound reaches t exactly when w >= t n and (w - t n)^2 >= z^2 n t (1 - t) |
| Wilson.BoundInRange | execution/apply_model_switches.py:87-95 | the bound lies between zero and the observed share, below one, and above zero once there is a win |
| Wilson.WinRaisesBound | execution/apply_model_switches.py:87-95 | an added win strictly raises the bound |
| Wilson.LossLowersBound | execution/apply_model_switches.py:87-95 | an added loss never raises it |
| Wilson.NineCasesNeeded | execution/apply_model_switches.py:84-95 | no tally of fewer than nine cases clears 0.70 at 95%, and nine wins do |
| SwitchEvidence.PoolEvidence | execution/apply_model_switches.py:142-223 | the nested loops over rows, graded cases and judges yield each judge's parities and cases, or the degraded whole |
| SwitchEvidence.DegradedSum | execution/apply_model_switches.py:217-222 | summed over judges and ungraded rows, the buckets count each graded case once and each error once per judge of its row |
| SwitchEvidence.WinsAtMostCases | execution/apply_model_switches.py:204-213 | no judge's bucket holds more wins than cases, and every pooled judge has a case |
| SwitchEvidence.StreakRows | execution/apply_model_switches.py:352-357 | a streak of n is n newest non-neutral verdicts, all the target |
| SwitchEvidence.StreakNeutrality | execution/apply_model_switches.py:71-76 | a neutral verdict inserted or removed anywhere below the newest row changes no streak and no pool |
| SwitchEvidence.QueriesAgree | execution/apply_model_switches.py:103-178 | the query for verdict labels and the query for pooled rows select the same rows |
| SwitchEvidence.PoolIsTheStreak | execution/apply_model_switches.py:161-178 | the pool of a met streak is drawn from exactly the streak's rows |
| Wilson.RadicandIff | execution/apply_model_switches.py:87-95 | at 95% the bound is a real number exactly for no more wins than cases |
| SwitchEvidence.GateIsTheMinimum | execution/apply_model_switches.py:630-635 | the gate passes exactly when there is a pool and every judge's Wilson bound reaches 0.70, wherever the bounds are real numbers |
| SwitchEvidence.RowsGiveBounds | execution/apply_model_switches.py:630-635 | they are if no row books more parities than cases |
| SwitchEvidence.NineCasesPerJudge | execution/apply_model_switches.py:632-635 | a pool that passes with real bounds has at least nine cases under every judge |
| SwitchEvidence.Gate | execution/apply_model_switches.py:632-636 | the loop over the judges decides the gate |
| SwitchDecision.CostGate | execution/apply_model_switches.py:529-534 | the ratio is below 0.90 exactly for two ranked models, a priced incumbent and a candidate under 90% of it |
| SwitchDecision.SwitchCutsCost | execution/apply_model_switches.py:616-672 | every switch leaves an incumbent priced below 90% of the one before |
| SwitchDecision.OneRunSuffices | execution/apply_model_switches.py:554-729 | a run in which no revert fires leaves a fixed point |
| SwitchDecision.TwoRunsConverge | execution/apply_model_switches.py:554-729 | two runs reach a fixed point from any pin and any candidate order |
| SwitchDecision.AtMostOneRevert | execution/apply_model_switches.py:688-717 | any number of runs reverts a purpose at most once |
| SwitchDecision.UnpinnedRun | execution/apply_model_switches.py:554-672 | from an empty slot, a run leads to the model that the prices of the qualified candidates alone lead to |
| SwitchDecision.SecondRunChangesIff | execution/apply_model_switches.py:26-28 | a second run changes the pin exactly when the first reverted it and an earlier, held candidate costs less than 90% of the model that the later qualified candidates' prices lead to |
| SwitchDecision.SecondRunCanSwitch | execution/apply_model_switches.py:26-28 | the claimed idempotence fails: an instance whose second run switches |
| SwitchRuns.RunByPurpose | execution/apply_model_switches.py:554-729 | a run treats each purpose on its own candidates, whatever the order of the pairs |
| SwitchRuns.TwoRunsSettle | execution/apply_model_switches.py:537-729 | after two runs over fixed verdicts and prices the store of pins is a fixed point |
| SwitchRuns.IdempotentIff | execution/apply_model_switches.py:26-28 | running twice equals running once exactly when no purpose is left unfinished by its revert |
| SwitchRuns.DecideFrom | execution/apply_model_switches.py:554-727 | the branches for one pair, reading rows only as needed, reach the specified decision |
| SwitchRuns.PinStore.EvaluateSwitches | execution/apply_model_switches.py:537-729 | the loop leaves the specified pins, none changed in a dry run, and one line per decided pair |
| TemplatePattern.CaptureFirst | execution/backtest_prompt_candidate.py:136-147 | splitting at the first token and replacing the later ones captures once and refers back after that |
| TemplatePattern.PassesScan | execution/backtest_prompt_candidate.py:136-147 | the passes over the variables, in any order, equal one left-to-right scan |
| TemplateMeaning.ParseReadsRaw | src/llm/prompt_registry.py:71-79 | a parsed body is the text its segments stand for, slots with conversions and format specifications included |
| TemplateMeaning.RawParses | src/llm/prompt_registry.py:71-79 | parsing inverts the doubling of braces |
| TemplateMeaning.PatternBuilt | execution/backtest_prompt_candidate.py:135-151 | for every body, formatted slots included, the passes and the undoubling mark each plain slot and each doubled-brace literal that spells a variable between single braces |
| TemplateMeaning.PatternIsFaithfulIff | execution/backtest_prompt_candidate.py:135-151 | the compiled pattern is the one the body's segments call for exactly when no doubled-brace literal spells a variable |
| TemplateExtraction.MatchFills | execution/backtest_prompt_candidate.py:152-157 | a match fills the pattern to the whole text |
| TemplateExtraction.MatchFindsFirst | execution/backtest_prompt_candidate.py:152-157 | a text some payload fills the pattern to is matched, by the payload that is first in lazy order |
| TemplateExtraction.ExtractionInvertsRendering | execution/backtest_prompt_candidate.py:124-157 | what is recovered re-renders to the input, and a text is accepted exactly when some values render it; formatted slots stand for their own text |
| TemplateExtraction.RecoveredIffFirst | execution/backtest_prompt_candidate.py:124-157 | the payload of a render is recovered exactly when it is first among those that render the same |
| TemplateExtraction.GuardedPayloadRecovered | execution/backtest_prompt_candidate.py:124-133 | when no value lets the following literal match early, a render gives back its payload |
| TemplateExtraction.AcceptsEveryRenderIff | execution/backtest_prompt_candidate.py:124-157 | every render of a registered template, with any values and any formatting, is accepted exactly when all its variables are identifiers, no doubled-brace literal spells one and every slot is plain |
| TemplateExtraction.FormatRefusesRenders | execution/backtest_prompt_candidate.py:135-151 | a template with a slot that has a conversion or a format specification gets every render refused in which no field shows a brace |
| TemplateExtraction.FixedPointRefused | execution/backtest_prompt_candidate.py:135-151 | it happens: {n:.2f} registers, renders "1.50", and the text is refused |
| TemplateExtraction.FormattedSlotMissing | execution/backtest_prompt_candidate.py:152-157 | the text {a:} of the template {a:} is accepted, with the variable a missing from what is recovered |
| TemplateExtraction.DisguiseRefusesRender | execution/backtest_prompt_candidate.py:148-151 | whenever one does, the render with empty values is refused |
| TemplateExtraction.BadNameRefusesAll | execution/backtest_prompt_candidate.py:152-154 | a variable that is no identifier makes the pattern fail to compile, and every text is refused |
| TemplateExtraction.HyphenRefused | execution/backtest_prompt_candidate.py:152-154 | such a template registers: {a-b} with the variable a-b |
| TemplateExtraction.ExtractVariables | execution/backtest_prompt_candidate.py:124-157 | the loop over the variables, the compilation and the match compute the specified extraction |
| CoverageChain.CollectReasons | execution/audit_quarterly_data_coverage.py:410-458 | the loop that threads the prior identity collects the specified reasons |
| CoverageChain.NoReasonsIffVerifies | execution/audit_quarterly_data_coverage.py:410-458 | no reason is collected exactly when every row is sound at its place |
| CoverageChain.LastIdCommitsToHistory | execution/audit_quarterly_data_coverage.py:430-458 | two chains that verify and share their last identity are equally long with the same request at every revision |
| CoverageCommitment.TextsSeparate | execution/audit_quarterly_data_coverage.py:77-82 | a digest that does not collide on the canonical texts hashed tells their links and requests apart |
| CoverageChain.CutoffVerifiesIffPrefix | execution/audit_quarterly_data_coverage.py:389-404 | what a cutoff leaves of a verified chain verifies exactly when it is a prefix |
| CoverageChain.AppendedChainVerifiesIff | src/pipeline/data_coverage_dispositions.py:286-385 | a chain built by appends verifies for a period exactly when all its observations were made for it, with a list of attempts |
| CoverageCohort.CohortMeans | execution/audit_quarterly_data_coverage.py:775-921 | all final states are complete exactly when every artifact of every ticker has evidence that no disposition contradicts; all are closed exactly when the others have a verified disposition that names a gap, and a scan's unavailable source agrees with its transcript |
| CoverageCohort.AuditCohort | execution/audit_quarterly_data_coverage.py:800-959 | the counters equal the numbers of final states, demoted scans included; the exit code is 0 exactly when everything is proven, 1 when everything is proven or excused but not all proven, 2 otherwise |
| CoverageCohort.CountTicker | execution/audit_quarterly_data_coverage.py:885-921 | counting a ticker and demoting its scan in place agree |
| CoverageCohort.CountsAddUp | execution/audit_quarterly_data_coverage.py:819-825 | the five counters add up to three per ticker |
| BackupPlan.GroupByMonth | execution/backup_file_gc.py:191-193 | the grouping loop lists each month's files in order |
| BackupPlan.KeepPaths | execution/backup_file_gc.py:190-199 | the kept paths are those of the newest per month and the newest overall |
| BackupPlan.BuildPlan | execution/backup_file_gc.py:177-209 | the plan's three lists are the kept, the pruned and the kept files to compress, in listing order |
| BackupPlan.Pool.Apply | execution/backup_file_gc.py:260-279 | deleting and compressing in turn, missing files passed over, leaves the specified tree with its times and contents |
| BackupRetention.SortOnly | execution/backup_file_gc.py:194-199 | a stable sort commutes with leaving files out |
| BackupRetention.HistoryIndependent | execution/backup_file_gc.py:177-209 | keep(keep(A) + B) = keep(A + B) for all sets, ties included |
| BackupRetention.SecondRunPrunesNothing | execution/backup_file_gc.py:28-28 | a second run over a pruned tree prunes nothing |
| BackupRetention.EnoughSurvive | execution/backup_file_gc.py:198-199 | a newest file and at least the wanted number of recent ones survive |
| BackupPlan.SurvivorsIff | execution/backup_file_gc.py:212-220 | as many files are left as were kept exactly when no compressed file overwrites a survivor |
| BackupPlan.ContentsLeft | execution/backup_file_gc.py:212-220 | whose contents are left: a compressed file's under its new name, an untouched one's as it was, and under a name that is written over those of the compressed file |
| BackupPlan.CompressionOverwrites | execution/backup_file_gc.py:212-220 | it happens: of two kept backups x.db and x.db.gz, only the older one's contents are left |
| BackupPlan.CompressedSurviveIff | execution/backup_file_gc.py:212-220 | the next run keeps all files just compressed within a month exactly when they number no more than it keeps of a month or overall |
| BackupPlan.NextRunPlansNothingIff | execution/backup_file_gc.py:28-28 | the claim holds after a run whose copies are written after all its files exactly when every copy is among the newest of its month or overall, every file left alone is so in the places the copies leave, and none of these has come of age |
| BackupPlan.PrunedTreeStays | execution/backup_file_gc.py:28-28 | after a run that compresses nothing, the next prunes nothing |
| BackupPlan.CompressionLosesABackup | execution/backup_file_gc.py:28-28 | the claim fails: two kept, compressed backups of two months, and any listing of what the run leaves of them is pruned by the next run |
| Approvals.AlertStore.SettleParentAlert | execution/approve_queued_action.py:147-188 | the alert moves as specified once nothing is pending on it |
| Approvals.AlertStore.ApproveAction | execution/approve_queued_action.py:230-290 | downstream row, status and settlement, or the first error and no change |
| Approvals.AlertStore.DismissQueued | execution/approve_queued_action.py:293-304 | the action is cancelled and its alert settled, or an error and no change |
| Approvals.AlertStore.ApproveAlert | execution/approve_queued_action.py:191-227 | the loop approves the pending actions until one fails |
| Approvals.AlertStore.DismissAlertAndCancel | execution/approve_queued_action.py:322-355 | the pending actions are cancelled, then the alert dismissed |
| AlertSettlement.SettledAlways | execution/approve_queued_action.py:147-355 | over any sequence of operations, successful or not, a closed alert has no pending action and an approved one has an applied action |
| AlertSettlement.LastActionClosesIff | execution/approve_queued_action.py:169-188 | settling the last pending action closes the alert, except exactly when the action is dismissed, the alert belongs to an episode and no other action of it was applied |
| AlertSettlement.EpisodeStaysOpen | execution/approve_queued_action.py:169-188 | it happens: the one pending action of an episode's alert is dismissed and the alert stays pending |
| AlertSettlement.ApproveAllOutcome | execution/approve_queued_action.py:204-227 | approve-all failing at step i leaves exactly the first i actions applied, each with its row, and the alert pending; succeeding, it approves the alert |
| ApprovalRace.AppliedOnceAndWritten | execution/approve_queued_action.py:245-284 | under every interleaving and crash an action is applied at most once, an applied one has a row, a keyed one exactly one, an appended one exactly one if and only if no write is under way or orphaned |
| ApprovalRace.OneRowWithoutOverlap | execution/approve_queued_action.py:245-284 | without crash and overlap every applied action has exactly one row |
| ApprovalRace.OverlapWritesTwice | execution/approve_queued_action.py:250-284 | two overlapping approvals apply once and write twice |
| ApprovalRace.RetryAfterCrashWritesTwice | execution/approve_queued_action.py:250-284 | a crash after the write and a retry apply once and write twice |
| FiscalQuarters.QuarterEndDate | execution/backfill_transcripts.py:139-156 | the borrowing loops compute the last day of the month the quarter lattice assigns |
| FiscalQuarters.FiscalQuarterPeriodEnd | src/pipeline/data_coverage_dispositions.py:166-179 | the second helper computes the same dates on the years it supports, and nothing outside |
| FiscalQuarters.RecentFiscalQuarters | execution/backfill_transcripts.py:159-172 | the nested loops return consecutive quarters going back from the latest ended, as many as asked and available, or all for a number below one |
| FiscalQuarters.RecentQuartersComplete | execution/backfill_transcripts.py:159-172 | for every fiscal year end and date, up to a cap of at least two, exactly n quarters come back, from the latest that has ended |
| FiscalQuarters.LatestIsLatest | execution/backfill_transcripts.py:168-169 | the quarters that have ended are exactly those up to the latest |
| FiscalQuarters.LabelsDistinct | execution/backfill_transcripts.py:194-201 | a period end carries at most one fiscal label |
| FiscalQuarters.OneQuarterPerSeason | execution/audit_quarterly_data_coverage.py:96-115 | every season holds exactly one quarter's end, within the two fiscal years searched |
| FiscalQuarters.SeasonsAndQuartersMatch | execution/audit_quarterly_data_coverage.py:96-115 | different seasons hold different quarters |
| FiscalQuarters.SeasonTarget | execution/audit_quarterly_data_coverage.py:96-115 | the search finds that quarter exactly for the years 2000 to 2099 and fails otherwise |
| ReleaseWindows.QuarterLength | execution/backfill_earnings_surprises.py:216-228 | consecutive quarter ends lie 89 to 92 days apart |
| ReleaseWindows.AssignReleaseDates | execution/backfill_earnings_surprises.py:216-228 | a release is assigned exactly when a target is eligible, and then to one that ends last |
| ReleaseWindows.ChoiceIsLatest | execution/backfill_earnings_surprises.py:216-228 | over consecutive quarters the choice is the latest one ended before the release, within 110 days |
| ReleaseWindows.AssignmentMonotone | execution/backfill_earnings_surprises.py:216-228 | later releases never go to earlier quarters |
| ReleaseWindows.AtMostTwoWindows | execution/audit_quarterly_data_coverage.py:713-733 | a release lies in at most two audit windows, of consecutive quarters |
| ReleaseWindows.WindowAgreesIff | execution/audit_quarterly_data_coverage.py:713-733 | window and assignment agree exactly when the release is no later than the next quarter's end |
| ReleaseWindows.WindowsOverlap | execution/audit_quarterly_data_coverage.py:713-733 | they do overlap, for at least 18 days after each quarter's end |

## Left out

- SQLite, SQL text, connection roles, integrity pragmas, file locking and process start-up: tables are maps and sequences, a locked section is one step.
- SHA-256, pydantic parsing and snapshot hashing: digests are functions, documents are values, proofs of backups are booleans.
- `_validate_source_binding` and the issuer checks: one boolean per entry, since they are long lists of independent guards.
- Unseen or delegated writers (`insert_source_reviewed_kpi_supersession`, `persist_kpi_semantic_context`, `create_note_once`, the resolver of canonical facts): modelled by what they append and whether they accept.
- `cron/`, `execution/build_artifacts.py`, `execution/bench_flows.py`, network fetches, LLM calls and report printing.
- `run_backtest` and `holdout_verdict`: tallies over judge verdicts, which would add only easy members.
- `_persist_surprise_coverage`: matching of hits to targets after the assignment of release dates; only the assignment is modelled.
- `_source_reported_quarters`: the sealed source window is not part of this model; only the uniqueness of its labels is.
- Floating-point rounding of the Wilson bound and of cost ratios, and NaN, infinities and lone surrogates in JSON.
- TransactionSucceedsIff: takes the resolver's verdict on an entry as given, whatever was applied before it; comparability revisions, the definition candidates' lineage and the evidence rows behind a definition revision are not modelled, which are further append-only chains checked the same way.
- LaterAttemptReplaysIff: in `RefreshProtocol`, it asks that other writers leave the manifest's facts and definitions alone and that the surroundings do not change; other logical keys, changed executor code and v1 markers only add blocking cases.
- CommitUnderFreshAuthority: takes the pinned review identity as fixed over the run, since its validator is not part of this model; in the dispositions, the clock checks before the judge's are one flag.
- RunLocked: an unexpected exception before the commit is not modelled apart from a block; both leave the database alone, and only the reported state differs.
- TransactionAppliedIff: does not model the table of legacy captures, only the check that a capture is unchanged.
- TwoRunsConverge: holds for list prices; the empirical-cost mode mixes two price sources and gives no single price per model.
- GateIsTheMinimum: asks that the bounds are real numbers; otherwise the source compares a complex number, which raises before any pin is written.
- EvaluateSwitches: a pair's verdict rows are given newest first; equal recording times, alerts and the audit trail of old pins are not modelled.
- ExtractVariables: does not model nested fields in format specifications, attribute and index lookups in slots, numbered slots, nor variable names that hold `>`, which cut a group's name short.
- CollectReasons: does not model the checks on the latest disposition alone (policy identity, retry time, sufficiency of attempts, reason against status); in the cohort they are part of one flag, valid.
- NextRunPlansNothingIff: asks that the copies are written after all the files.
- Apply: does not model sidecar files, byte counts and deletions that fail for another reason than a missing file.
- OneRowWithoutOverlap: the settlement of the alert after each approval is proved in `AlertSettlement`, not under interleaving.
- RecentFiscalQuarters: asks that the window does not reach back before the year one, where dates end.
