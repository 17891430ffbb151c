# Workstation lab: state machines and loops, proved

Dafny models of six parts of the repository that keep state across failures, with proofs over all
their runs. Each file is one module of the same name. `dafny verify dfyconfig.toml` checks them all.

* **Benchmark campaigns** (`Store`, `Campaign`, `CampaignProtocol`, `CampaignProofs`,
  `CampaignHistory`, `CampaignResume`, `CampaignCrashes`, `CampaignMetrics`, `CampaignStatus`,
  `CampaignCleanup`). `Store` holds the tables
  as maps keyed by their primary keys, one transaction per call. `Campaign.Orchestrator` has the loops of the orchestrator, proved against
  the function `Invoke`, which yields the tables and the order of all actions. `CampaignProtocol` is a
  monitor over action orders; every execution obeys it, so does every history of executions and
  resumptions killed between any two actions, and the safety properties follow from the monitor.
* **Testfiles** (`Testfile`, `TestfileHistory`, `SizeStrings`, `CampaignTestfile`). One target's file,
  its written prefix, its marker and the free space, under every answer of the remote side, over any history,
  and under the actions of a campaign.
* **Resumable generation** (`JsonText`, `Utf8`, `GenerationLog`, `GenerationHistory`, `GenerationCuts`,
  `ChunkLoop`). The output file as bytes: terminated lines and a tail. A crash keeps any prefix of what
  was being appended, a cut inside a character included. `JsonText` scans what every JSON object text must look
  like from the outside.
* **Splitting** (`Sequences`, `Decimal`, `Splitter`, `SplitterOrder`, `SplitterBalance`). Groups by
  grounding id, placed largest first into the split furthest below its target.
* **Deduplication** (`Dedup`, `Pipeline`, `FilterOrder`, `NearDup`). The dictionary loop and the index loop, what
  they are meant to compute, and the way of a row from filtering to a training split.
* **The Lustre cluster** (`StatusLines`, `Lustre`, `LustreProofs`, `LustreLosses`, `LustreFailures`,
  `LustrePlans`, `LustreDriver`). Parallel remote scripts whose commands have outcomes the driver does not control, gates on the worst
  status, and the status lines that carry it.

`Wrappers` has the option type, `Arithmetic` minimum and maximum, `Blanks` what counts as blank,
`Sequences` also what it means to be the part of a sequence with a property, in order.

The methods and the recursive specifications they are proved against say how results come about. What
they are is told once more without them: `CampaignCleanup` and `CampaignStatus` from the actions and rows
of an execution, `SplitterOrder` and `FilterOrder` from the rows, `LustrePlans` from the commands that the
steps of a run execute, the last parts of `TestfileHistory`, `GenerationHistory`, `NearDup` and
`SizeStrings` likewise. Automatic induction is switched off throughout: what is proved by induction calls
itself.

## Where the code and its documentation part

The model follows the code.

* `benchmark-harness/README.md:134-144` binds one scenario to several targets in one campaign. The row
  key has no target in it, so the second binding finds the first one's ok row and is skipped, and the
  run is still recorded as ok: `CampaignHistory.OwnTargetsExactlyWhen`,
  `CampaignResume.SharedNameHidesTarget`.
* Resuming is described as skipping what ended ok (`orchestrator.py:92-94`). A row that was open at
  the crash, or failed, is not repeated: inserting it again raises, at every later resumption:
  `CampaignResume.ResumeReachesTheEndExactlyWhen`, `CampaignCrashes.EarlyCrashBlocksForever`.
* `runners/fio.py:259-261` says that after a failed prefill the next run will retry. When the part left
  behind is too short, every run refuses until someone removes it:
  `TestfileHistory.BrokenPrefillRefusedExactlyWhen`.
* `rm` may fail on one of its two files, and cleanup does not look. A marker left behind vouches for
  whatever file comes next: `TestfileHistory.TornCleanupHarmsExactlyWhen`.
* The marker records no size, so a file that was made longer by a broken prefill and marked by a
  shorter one is reused in full: `TestfileHistory.ReuseIsWrittenExactlyWhen`.
* Skip-completed is meant to survive an interruption. A file cut inside a multi-byte character cannot
  be read again, and every later resumption stops there: `GenerationCuts.ReadableInTheEndExactlyWhen`,
  `GenerationCuts.ExampleBlocks`.
* `data-gen/orchestrator.py` speaks of two nodes but lists one (lines 44-54); the loop is modelled for
  any number. It takes chunks that found nothing left to do for failures:
  `ChunkLoop.UninterruptedCompletesExactlyWhen`, `ChunkLoop.FinishedFileBailsOut`.
* Invented keys for rows without an id are assumed never to be real ids:
  `Dedup.LoopIsSimpleExactlyWhen`.
* Teardown announces an order of unmounts but goes on after a failure:
  `LustreFailures.TeardownStaysClosedExactlyWhen`. The gates of bringup trust that scripts report:
  `LustreLosses.BringupSurvivesLossExactlyWhen`.

## Model

| member | source | states |
|---|---|---|
| Store.Store.InsertRun | benchmark-harness/harness/store.py:135-158 | inserting a run is one transaction: refused when the run exists, otherwise the row is added as running and nothing else changes |
| Store.Store.UpdateRun | benchmark-harness/harness/store.py:161-166 | ending a run changes the status of that run alone, and nothing when it does not exist |
| Store.Store.InsertScenario | benchmark-harness/harness/store.py:226-244 | opening a scenario row is refused on an existing (run, scenario, repetition) key or a missing run; otherwise one row is added, in state running |
| Store.Store.UpdateScenario | benchmark-harness/harness/store.py:247-260 | ending a scenario row changes status and error of that row alone |
| Store.Store.ScenarioCompleted | benchmark-harness/harness/store.py:263-273 | true exactly for a row that exists and ended ok |
| Store.Store.InsertMetrics | benchmark-harness/harness/store.py:279-301 | a batch of metrics is stored entirely or not at all; no transaction for an empty batch |
| Store.PutAllFrame | benchmark-harness/harness/store.py:295-300 | a batch touches no metric row whose key it does not carry |
| Store.PutAllLast | benchmark-harness/harness/store.py:295-300 | of several records with one key the last decides (insert or replace) |
| Campaign.Orchestrator.RunCampaign | benchmark-harness/harness/orchestrator.py:79-150 | the loops leave exactly the tables and the action order of the recursive specification Invoke, including where an exception stops them |
| Campaign.Orchestrator.ExecuteScenario | benchmark-harness/harness/orchestrator.py:153-243 | all repetitions of one binding, or the failure reported for a kind without a runner |
| Campaign.Orchestrator.ExecuteRepeat | benchmark-harness/harness/orchestrator.py:178-241 | one repetition: skipped when ok, blocked by any other existing row, otherwise opened, prepared, measured and ended |
| Campaign.Orchestrator.RunAndRecord | benchmark-harness/harness/orchestrator.py:211-231 | metrics of exactly the successful jobs are recorded in order; the result says whether all jobs succeeded |
| Campaign.Orchestrator.CleanupTargets | benchmark-harness/harness/orchestrator.py:246-264 | the loop leaves the actions of the recursive specification CleanTargets, whose cleanups CampaignCleanup tells from the actions, and stops at a kind without a runner |
| CampaignProtocol.OpenRowIsRunning | benchmark-harness/harness/orchestrator.py:186-208 | in every lawful action order the tables stay referentially consistent and the row being worked on is the one marked running |
| CampaignProtocol.AtMostOnce | benchmark-harness/harness/orchestrator.py:178-237 | in every lawful action order each row key is prepared at most once and its jobs are started at most once |
| CampaignProtocol.ClosedRowIsFrozen | benchmark-harness/harness/store.py:226-301 | in every lawful action order a row that no process is working on, whatever its status, and its metric rows are never touched again |
| CampaignProtocol.OkIsFrozen | benchmark-harness/harness/store.py:226-301 | in every lawful action order a row that is ok, and its metric rows, are never touched again |
| CampaignProofs.RunRepeatAt | benchmark-harness/harness/orchestrator.py:178-241 | one repetition obeys the protocol, raises exactly when a row not ended ok (or a missing run) is in its way, leaves all other rows alone, and without a failure ends with an ok row |
| CampaignProofs.InvokeObeysProtocol | benchmark-harness/harness/orchestrator.py:79-243 | every execution, with any outcomes, obeys the protocol and ends a row or the run as ok only when that is earned |
| CampaignHistory.HistoryObeysProtocol | benchmark-harness/harness/orchestrator.py:79-150 | any sequence of executions and resumptions, each killed between any two actions, obeys the protocol as a whole |
| CampaignHistory.NothingStartsTwice | benchmark-harness/harness/orchestrator.py:178-237 | over any such history prepare and the jobs start at most once for each (run, scenario, repetition) |
| CampaignHistory.OkRowsNeverChange | benchmark-harness/harness/store.py:226-301 | over any such history a row once ok, and its metrics, are the same at every later moment |
| CampaignHistory.FoundRowIsFrozen | benchmark-harness/harness/orchestrator.py:181-196 | a row found in the tables between two processes is the same, with its metrics, after any later history |
| CampaignHistory.RecordedOkIsComplete | benchmark-harness/harness/orchestrator.py:127-150 | a run recorded as ok has an ok row for every repetition of every binding; with distinct scenario names it carries that binding's target and the metrics its jobs gave in one of the processes |
| CampaignHistory.OwnTargetsExactlyWhen | benchmark-harness/harness/store.py:37-51 | in a run recorded as ok, every binding has rows with its own target if and only if bindings that share a scenario name share the target |
| CampaignHistory.LeftoverRowBlocksForever | benchmark-harness/harness/orchestrator.py:181-196 | a row that a crash or a failure leaves behind blocks its repetition in every later history, and the run is never recorded as ok |
| CampaignResume.SharedNameHidesTarget | benchmark-harness/harness/orchestrator.py:181-183 | the failing side occurs: a new faultless run with a name shared between targets is recorded as ok and lacks rows for a target |
| CampaignResume.ResumeReachesTheEndExactlyWhen | benchmark-harness/harness/orchestrator.py:181-196 | for every campaign, a resumption gets to its end if and only if no repetition with a runner is blocked when reached (by a leftover row, a missing run, or the failed row of an earlier binding with its name) and a final cleanup finds a runner for every kind; with distinct names the leftover rows alone decide, whatever the jobs do |
| CampaignResume.CrashIsResumableExactlyWhen | benchmark-harness/harness/orchestrator.py:186-235 | a killed new run is blocked if and only if it died with a row open or had a failed repetition |
| CampaignCrashes.EarlyCrashBlocksForever | benchmark-harness/harness/orchestrator.py:178-200 | a new run killed right after opening its first row (two actions) keeps that row running and blocked through every later history, and is never recorded as ok |
| CampaignResume.FaultlessRunIsRecordedOk | benchmark-harness/harness/orchestrator.py:127-150 | a new run in which nothing fails is recorded as ok, and so is a resumption that finds only ok rows |
| CampaignStatus.RunStatusExactlyWhen | benchmark-harness/harness/orchestrator.py:127-150 | an execution that reaches its end closes its run: as ok if and only if every scenario kind has a runner and every repetition of every binding has a row that ended ok, as failed otherwise |
| CampaignCleanup.AfterCampaignCleansOnce | benchmark-harness/harness/orchestrator.py:144-148 | with cleanup after the campaign, an execution that reaches its end cleans up exactly once for each (target name, kind) bound and never otherwise, behind every scenario action and right before it closes the run |
| CampaignCleanup.AfterCampaignCleansInOrder | benchmark-harness/harness/orchestrator.py:246-264 | these cleanups come in the order of the bindings, each of the first binding with its name and kind |
| CampaignCleanup.AfterEachRunCleansEach | benchmark-harness/harness/orchestrator.py:233-241 | with cleanup after each run, even one that is stopped by an exception: the end of every repetition whose jobs were started is followed at once by one cleanup of the target, and by the runner, with which its row was started, and there is no other |
| CampaignCleanup.NeverCleansNothing | benchmark-harness/harness/orchestrator.py:144-145 | with cleanup off no execution ever cleans up |
| CampaignMetrics.EveryMetricIsKept | benchmark-harness/harness/config.py:81-90 | with unique job names no metric of one job overwrites one of another among the rows the jobs write |
| CampaignMetrics.RecordedMetricsAreKept | benchmark-harness/harness/orchestrator.py:210-237 | in a run recorded as ok, with distinct scenario and job names, every record of every job of one process that measured the repetition is in the metrics table with its value |
| Testfile.Target.Prepare | benchmark-harness/harness/runners/fio.py:140-165 | for every answer of the remote side: refused exactly when the probe shows fewer whole GiB than asked for; unchanged when refused or when a marker is seen on a file that is long enough; otherwise prefilled, and ready exactly when the prefill is reported done |
| Testfile.Target.AllocateTestfile | benchmark-harness/harness/runners/fio.py:250-269 | the marker appears exactly when the write was complete, even if its remote call then reports a failure; a broken write leaves whatever part it left and no new marker |
| Testfile.Target.Cleanup | benchmark-harness/harness/runners/fio.py:212-228 | the file goes, and its space is free again, exactly when rm removed it, and stays as it was otherwise; the marker goes exactly when rm removed that; nothing is reported |
| TestfileHistory.MarkerStaysHonest | benchmark-harness/harness/runners/fio.py:140-165 | after any history of prepares, broken prefills, measurements and cleanups that may fail, none of which removes the file of a marked target and leaves the marker: a marker means that the file is there and its first p bytes are written, p the last successful prefill since the file was removed |
| TestfileHistory.StepStaysHonestExactlyWhen | benchmark-harness/harness/runners/fio.py:222-228 | an operation makes an honest marker lie if and only if it is a cleanup that removes the file of a marked target and leaves the marker |
| TestfileHistory.MarkerIsHonestExactlyWhen | benchmark-harness/harness/runners/fio.py:222-228 | the marker is honest at every moment of a history if and only if the history has no such cleanup |
| TestfileHistory.ReadyMeansWritten | benchmark-harness/harness/runners/fio.py:140-165 | a prepare that returns, having prefilled or asking for no more than p, leaves every requested byte written |
| TestfileHistory.NonIncreasingSizesAreWritten | benchmark-harness/harness/runners/fio.py:140-165 | while sizes never increase, every prepare that returns leaves every requested byte written |
| TestfileHistory.ReuseIsWrittenExactlyWhen | benchmark-harness/harness/runners/fio.py:156-165 | reusing a marked file for a size is safe in all reachable states with last prefill p if and only if the size is at most p |
| TestfileHistory.MarkedAfterShorterPrefill | benchmark-harness/harness/runners/fio.py:250-269 | the reachable state behind that: a long broken prefill followed by a shorter successful one leaves a marked file written only in part |
| TestfileHistory.TornCleanupHarmsExactlyWhen | benchmark-harness/harness/runners/fio.py:222-228 | after an rm that left the marker and a broken prefill, the next prepare of that size returns, from every honest state; it leaves bytes unwritten, and then all of them, if and only if the target was marked |
| TestfileHistory.BrokenPrefillRefusedExactlyWhen | benchmark-harness/harness/runners/fio.py:259-269 | after a failed prefill every later prepare of that size refuses, through any history that does not remove the file, if and only if the part left has fewer whole GiB than the request; otherwise the next one does not refuse, and without an old marker returns only after a prefill that succeeds |
| TestfileHistory.PrefillCanStrandExactlyWhen | benchmark-harness/harness/runners/fio.py:150-155 | from an empty target a prefill can fail so that no later one is served if and only if the request is of a GiB or more |
| TestfileHistory.NeverServedExactlyWhen | benchmark-harness/harness/runners/fio.py:150-155 | left undisturbed, a target refuses a size through every history if and only if its file has fewer whole GiB |
| TestfileHistory.CleanupEmpties | benchmark-harness/harness/runners/fio.py:212-228 | after any history a cleanup that works leaves the empty target, with all space free again |
| TestfileHistory.CleanupServesAgainExactlyWhen | benchmark-harness/harness/runners/fio.py:212-228 | a stranded target stays refused after a cleanup if and only if rm did not remove the file; when it did, a prepare of any size up to all space can be prefilled, returns and has every byte written |
| TestfileHistory.ReportedFailureIsReusedExactlyWhen | benchmark-harness/harness/runners/fio.py:250-269 | after a prefill reported as failed, the next prepare of that size returns without another one if and only if it had written everything and set the marker |
| TestfileHistory.SizeStaysInGib | benchmark-harness/harness/runners/fio.py:150-165 | as long as nothing removes it and size probes come back, a file never changes its size in whole GiB |
| TestfileHistory.FileNeverOutgrowsRequests | benchmark-harness/harness/runners/fio.py:250-269 | file plus free space is constant over any history, and the file never grows beyond the largest request |
| TestfileHistory.PreflightForesees | benchmark-harness/harness/ssh.py:205-295 | preflight reports a short file if and only if prepare would refuse, and passes if and only if mkdir and df worked, prepare would not refuse and the margin would be free in whole GiB after the prefill of a target whose file it cannot see |
| TestfileHistory.FreeStaysAboveMargin | benchmark-harness/harness/ssh.py:244-295 | after a passed preflight the safety margin stays free through any history: in full for whole-GiB sizes, short of it by less than one GiB otherwise |
| TestfileHistory.PreparesAreServed | benchmark-harness/harness/cli.py:207-229 | after a passed preflight, whatever the margin, while sizes never increase and prefills succeed, no prepare refuses; the prefill it needs fits for a positive margin, or for none and a whole-GiB size |
| TestfileHistory.NotRefusedIsLongEnough | benchmark-harness/harness/runners/fio.py:357-372 | an existing file that prepare does not refuse lacks less than one GiB of the request, and nothing of a whole-GiB request |
| CampaignTestfile.JobsFindTheirBytes | benchmark-harness/harness/orchestrator.py:198-211 | over any history of a campaign, killed anywhere, while no cleanup leaves a marker without its file and no earlier row on the target asked for less, the jobs of a row start with every byte its scenario asks for written |
| SizeStrings.GibIsBytesInWholeGib | benchmark-harness/harness/config.py:277-289 | both size parsers accept the same strings, and the GiB figure is the byte figure (of the parser in report.py) in whole GiB |
| SizeStrings.UnrefusedFileIsLongEnough | benchmark-harness/harness/runners/fio.py:129-155 | comparing whole GiB of the size string refuses exactly what fio's bytes in whole GiB would, so a file that passes lacks less than one GiB of those bytes, and none of a whole-GiB size |
| SizeStrings.SizeIsNumberTimesUnit | benchmark-harness/harness/config.py:274-289 | a number, a unit of either case, an optional b or ib and blanks around them are read as the number times the unit's power of 1024, cut off toward zero to bytes and to GiB; a number that cannot be read is the error of both parsers |
| GenerationLog.Generator.ReadCompleted | artifacts/concepts/llm-pipeline-on-a-workstation/reproduce/data-gen/generate.py:169-181 | raises if and only if some line, the unterminated tail included, does; otherwise the ids of exactly the lines that parse and carry a request id |
| GenerationLog.Generator.Select | artifacts/concepts/llm-pipeline-on-a-workstation/reproduce/data-gen/generate.py:168-187 | raises if and only if skip-completed is set and some line of the file raises; otherwise the prompts not to be skipped, in prompt order, all of them or the first c with cap c, where a prompt is skipped exactly when skip-completed is set and some line carries its id |
| GenerationLog.IssuedIsTheRest | artifacts/concepts/llm-pipeline-on-a-workstation/reproduce/data-gen/generate.py:168-187 | the same of the specification that the histories are told with |
| GenerationLog.Generator.Run | artifacts/concepts/llm-pipeline-on-a-workstation/reproduce/data-gen/generate.py:197-255 | the file ends as the start (or nothing, without skip-completed) with one record and one newline for each result |
| JsonText.TornIsNotDone | artifacts/concepts/llm-pipeline-on-a-workstation/reproduce/data-gen/generate.py:169-181 | no proper prefix of a record's text is a JSON object (sections 2, 4 and 7 of RFC 8259) |
| JsonText.GluedIsNotDone | artifacts/concepts/llm-pipeline-on-a-workstation/reproduce/data-gen/generate.py:197-235 | a record, or a part of one, glued behind any leftover tail is not a JSON object |
| GenerationLog.CutStreamKeeps | artifacts/concepts/llm-pipeline-on-a-workstation/reproduce/data-gen/generate.py:233-244 | whatever prefix of the appended text survives: one parseable line for each id, no line lost, and no completed id lost but that of the tail |
| GenerationHistory.SessionKeeps | artifacts/concepts/llm-pipeline-on-a-workstation/reproduce/data-gen/generate.py:168-197 | one invocation, killed anywhere, keeps at most one line for each id and drops at most the tail's id from the completed ones |
| GenerationHistory.OneLineForEachId | artifacts/concepts/llm-pipeline-on-a-workstation/reproduce/data-gen/generate.py:168-244 | at every point of any history of invocations and crashes the file has at most one parseable line for each request id |
| GenerationHistory.FreshInvocationCompletes | artifacts/concepts/llm-pipeline-on-a-workstation/reproduce/data-gen/generate.py:182-235 | an answered invocation without skip-completed and without a cap, whatever the file held and however broken it was, ends with a newline-terminated file of exactly one row for each prompt |
| Utf8.SomeCutIsInsideExactlyWhen | artifacts/concepts/llm-pipeline-on-a-workstation/reproduce/data-gen/generate.py:235 | some cut of a text falls inside a character (section 4 of RFC 3629) if and only if the text is not pure ASCII |
| GenerationCuts.CutIsReadableExactlyWhen | artifacts/concepts/llm-pipeline-on-a-workstation/reproduce/data-gen/generate.py:169-181 | after one killed invocation a readable file can be read again if and only if what was written of the appended text ends between two characters |
| GenerationCuts.AlwaysReadableExactlyWhen | artifacts/concepts/llm-pipeline-on-a-workstation/reproduce/data-gen/generate.py:168-244 | over a history the file can be read at every moment if and only if every kill falls between two characters |
| GenerationCuts.ReadableInTheEndExactlyWhen | artifacts/concepts/llm-pipeline-on-a-workstation/reproduce/data-gen/generate.py:168-244 | with skip-completed throughout, already the file at the end can be read if and only if every kill fell between two characters |
| GenerationCuts.UnreadableStays | artifacts/concepts/llm-pipeline-on-a-workstation/reproduce/data-gen/generate.py:168-181 | a file whose reading raises is never changed by any later invocations with skip-completed |
| GenerationCuts.CutInsideCharacterBlocks | artifacts/concepts/llm-pipeline-on-a-workstation/reproduce/data-gen/generate.py:171-181 | a crash that cuts the first record inside a character leaves a file to which no later such invocation adds anything |
| GenerationCuts.RecordCanBlockExactlyWhen | artifacts/concepts/llm-pipeline-on-a-workstation/reproduce/data-gen/generate.py:235 | a record can be cut so if and only if its text is not pure ASCII, as ensure_ascii=False allows |
| GenerationCuts.ExampleBlocks | artifacts/concepts/llm-pipeline-on-a-workstation/reproduce/data-gen/generate.py:169-181 | one such record, with a letter of two bytes, a reader that meets all assumptions, and the kill between the two bytes |
| GenerationHistory.ChunkAdds | artifacts/concepts/llm-pipeline-on-a-workstation/reproduce/data-gen/generate.py:183-187 | an uninterrupted chunk on a newline-terminated file adds one row for each of the next min(c, rest) prompts, and leaves the others in order |
| GenerationHistory.RowsAfterChunks | artifacts/concepts/llm-pipeline-on-a-workstation/reproduce/data-gen/orchestrator.py:240-250 | after k uninterrupted chunks min(k*c, rest) rows were added and the prompts left are the rest without that many |
| GenerationHistory.RemainingPlusRows | artifacts/concepts/llm-pipeline-on-a-workstation/reproduce/data-gen/generate.py:168-183 | rows in the file and prompts left add up to all prompts |
| GenerationHistory.FinalRows | artifacts/concepts/llm-pipeline-on-a-workstation/reproduce/data-gen/orchestrator.py:237-264 | n uninterrupted chunks from L rows end with exactly min(prompts, L + n*c) rows |
| GenerationHistory.ChunkIssues | artifacts/concepts/llm-pipeline-on-a-workstation/reproduce/data-gen/generate.py:183-187 | chunk k issues the prompts left at the start from k*c up to (k+1)*c, in order |
| GenerationHistory.EachPromptIsIssuedOnce | artifacts/concepts/llm-pipeline-on-a-workstation/reproduce/data-gen/orchestrator.py:237-264 | over all uninterrupted chunks no prompt is issued twice |
| ChunkLoop.ChunkCountCovers | artifacts/concepts/llm-pipeline-on-a-workstation/reproduce/data-gen/orchestrator.py:237 | the number of chunks is the least that covers the total |
| ChunkLoop.RunChunks | artifacts/concepts/llm-pipeline-on-a-workstation/reproduce/data-gen/orchestrator.py:231-264 | the loop completes exactly when no reading of the free space is in 0..9 and no two chunks in a row are weak (run failed, or some file grew by less than half a chunk); it bails out at the first such pair and aborts at the first low reading |
| ChunkLoop.GoesOnExactlyWhen | artifacts/concepts/llm-pipeline-on-a-workstation/reproduce/data-gen/orchestrator.py:240-264 | the counter of consecutive failures comes to just that: a prefix of the chunks goes through if and only if all its readings are good and no two of it in a row are weak |
| ChunkLoop.AtMostHalfFlagged | artifacts/concepts/llm-pipeline-on-a-workstation/reproduce/data-gen/orchestrator.py:254-261 | a run that gets through n chunks has at most ceil(n/2) flagged ones |
| ChunkLoop.CompletedRunHasGrown | artifacts/concepts/llm-pipeline-on-a-workstation/reproduce/data-gen/orchestrator.py:246-261 | after n chunks every node's file has grown by at least floor(n/2)*floor(c/2) lines |
| ChunkLoop.UninterruptedCompletesExactlyWhen | artifacts/concepts/llm-pipeline-on-a-workstation/reproduce/data-gen/orchestrator.py:252-259 | with nothing going wrong the loop still completes if and only if c < 2, n <= 1 or at least (n-2)*c + floor(c/2) prompts were left: otherwise it bails out on chunks that ran out of prompts |
| ChunkLoop.UninterruptedRunCompletesExactlyWhen | artifacts/concepts/llm-pipeline-on-a-workstation/reproduce/data-gen/orchestrator.py:231-264 | the same for the loop over ceil(total/c) chunks from L rows: it completes if and only if |prompts| - L meets that bound, and the rows in the end are min(|prompts|, L + n*c) |
| ChunkLoop.FinishedFileBailsOut | artifacts/concepts/llm-pipeline-on-a-workstation/reproduce/data-gen/orchestrator.py:246-259 | the failing side occurs: with every prompt done and two or more chunks of at least two prompts to go, nothing goes wrong and the loop does not complete |
| Splitter.BuildGroups | artifacts/concepts/llm-pipeline-on-a-workstation/reproduce/data-gen/split_dataset.py:63-67 | the dictionary of lists is the specification's, keys in order of first insertion |
| Splitter.SameGroupExactlyWhen | artifacts/concepts/llm-pipeline-on-a-workstation/reproduce/data-gen/split_dataset.py:36-41 | two rows share a group if and only if they share a grounding id or are the same ungrounded row |
| Decimal.OfIntInjective | artifacts/concepts/llm-pipeline-on-a-workstation/reproduce/data-gen/split_dataset.py:40-41 | different integers render as different group keys |
| Splitter.SortedIsSorted | artifacts/concepts/llm-pipeline-on-a-workstation/reproduce/data-gen/split_dataset.py:69-72 | largest first, and the same groups as before |
| SplitterOrder.SortIsStable | artifacts/concepts/llm-pipeline-on-a-workstation/reproduce/data-gen/split_dataset.py:72 | groups of one size keep the order they had, for every size |
| SplitterOrder.SortedExactlyWhen | artifacts/concepts/llm-pipeline-on-a-workstation/reproduce/data-gen/split_dataset.py:72 | that and descending sizes determine the result: a sequence is the sorted one if and only if its sizes descend and it has the groups of each size in the given order |
| SplitterOrder.PlacingOrder | artifacts/concepts/llm-pipeline-on-a-workstation/reproduce/data-gen/split_dataset.py:69-74 | of two groups the one with more rows is placed first, of two with equally many the one that the shuffle put first |
| SplitterOrder.ItemsInFirstSeenOrder | artifacts/concepts/llm-pipeline-on-a-workstation/reproduce/data-gen/split_dataset.py:63-67 | before the shuffle the groups stand in the order of their first rows, each with exactly the rows of one grounding id, or a single ungrounded row, in input order |
| SplitterOrder.SplitIsTheGreedyRun | artifacts/concepts/llm-pipeline-on-a-workstation/reproduce/data-gen/split_dataset.py:74-85 | the splits are the result of the one greedy run over the groups, in which each group goes, behind what is there, to the first of the splits that lack most of their share of the rows |
| Splitter.Furthest | artifacts/concepts/llm-pipeline-on-a-workstation/reproduce/data-gen/split_dataset.py:75-84 | the first split with the greatest deficit |
| Splitter.FindFurthest | artifacts/concepts/llm-pipeline-on-a-workstation/reproduce/data-gen/split_dataset.py:75-84 | the loop finds that split |
| Splitter.PlaceGroups | artifacts/concepts/llm-pipeline-on-a-workstation/reproduce/data-gen/split_dataset.py:74-85 | the placement loop computes the recursive placement |
| Splitter.FindLeakage | artifacts/concepts/llm-pipeline-on-a-workstation/reproduce/data-gen/split_dataset.py:87-99 | the check reports a leak if and only if a grounding id occurs in two splits, for any splits |
| Splitter.NoteRow | artifacts/concepts/llm-pipeline-on-a-workstation/reproduce/data-gen/split_dataset.py:91-95 | one row of the check's bookkeeping: an id is noted for exactly the splits that have shown a row with it |
| Splitter.Split | artifacts/concepts/llm-pipeline-on-a-workstation/reproduce/data-gen/split_dataset.py:54-99 | the program never takes its leakage exit: without rows it stops, otherwise it writes the placement |
| Splitter.SplitIsPartition | artifacts/concepts/llm-pipeline-on-a-workstation/reproduce/data-gen/split_dataset.py:63-85 | the three splits together are a permutation of the input |
| Splitter.NoLeakage | artifacts/concepts/llm-pipeline-on-a-workstation/reproduce/data-gen/split_dataset.py:63-99 | no grounding id spans two splits, for any rows, weights and shuffle |
| SplitterBalance.DeficitsAddUp | artifacts/concepts/llm-pipeline-on-a-workstation/reproduce/data-gen/split_dataset.py:59-85 | the three deficits always sum to the rows still to be placed |
| SplitterBalance.OvershootBound | artifacts/concepts/llm-pipeline-on-a-workstation/reproduce/data-gen/split_dataset.py:75-85 | at every moment a split is above its target by at most two thirds of the last group it received |
| SplitterBalance.ImbalanceBound | artifacts/concepts/llm-pipeline-on-a-workstation/reproduce/data-gen/split_dataset.py:59-85 | at the end also at most 4G/3 below it, G the largest group, for any order of the groups |
| SplitterBalance.ZeroWeightStaysEmpty | artifacts/concepts/llm-pipeline-on-a-workstation/reproduce/data-gen/split_dataset.py:59-85 | a split of weight zero receives nothing |
| SplitterBalance.SortedImbalanceBound | artifacts/concepts/llm-pipeline-on-a-workstation/reproduce/data-gen/split_dataset.py:63-85 | largest first and with at least 2G groups of one row: at most 2/3 row above and 4/3 rows below target |
| SplitterBalance.SplitIsBalanced | artifacts/concepts/llm-pipeline-on-a-workstation/reproduce/data-gen/split_dataset.py:54-85 | these bounds, against the exact share w/(sum of w) of all rows, for what the program computes on any rows, weights and shuffle |
| Dedup.DedupById | artifacts/concepts/llm-pipeline-on-a-workstation/reproduce/data-gen/filter_clean.py:288-305 | the loop leaves the dictionary and the collision count of the step function |
| Dedup.LoopIsSimple | artifacts/concepts/llm-pipeline-on-a-workstation/reproduce/data-gen/filter_clean.py:288-305 | without a clash the dictionary loop equals the plain specification, rows without id included |
| Dedup.LoopIsSimpleExactlyWhen | artifacts/concepts/llm-pipeline-on-a-workstation/reproduce/data-gen/filter_clean.py:292-295 | on given rows that equality holds if and only if no row has the id _noid_k where a row without id comes as entry number k |
| Dedup.ClashLosesARow | artifacts/concepts/llm-pipeline-on-a-workstation/reproduce/data-gen/filter_clean.py:292-295 | whenever there is such a pair the loop keeps fewer rows |
| Dedup.VocabularyIsSafeExactlyWhen | artifacts/concepts/llm-pipeline-on-a-workstation/reproduce/data-gen/filter_clean.py:292-295 | the equality holds for all rows over a vocabulary of ids if and only if no id has the form _noid_k |
| Dedup.ReservedLosesARow | artifacts/concepts/llm-pipeline-on-a-workstation/reproduce/data-gen/filter_clean.py:292-295 | for every reserved id there are rows on which the loop loses one |
| Dedup.EntriesDistinct | artifacts/concepts/llm-pipeline-on-a-workstation/reproduce/data-gen/filter_clean.py:296-303 | at most one entry for each id |
| Dedup.EntryIsFirstLongest | artifacts/concepts/llm-pipeline-on-a-workstation/reproduce/data-gen/filter_clean.py:296-303 | each id has an entry, and it is the earliest of its longest answers |
| Dedup.EntriesInFirstSeenOrder | artifacts/concepts/llm-pipeline-on-a-workstation/reproduce/data-gen/filter_clean.py:289-304 | entries stand in the order in which their ids first appeared |
| Dedup.RowsWithoutIdAreKept | artifacts/concepts/llm-pipeline-on-a-workstation/reproduce/data-gen/filter_clean.py:292-295 | every row without id is kept as its own entry, in order |
| Dedup.CountsAddUpExactlyWhen | artifacts/concepts/llm-pipeline-on-a-workstation/reproduce/data-gen/filter_clean.py:290-305 | deduped + collisions + rows without id that overwrite another = clean; so deduped + collisions = clean if and only if no row has the id _noid_k where a later row without id finds k entries in the dictionary |
| Dedup.LoopKeepsDistinctIds | artifacts/concepts/llm-pipeline-on-a-workstation/reproduce/data-gen/filter_clean.py:288-304 | whatever the ids, clashes included, the rows kept are rows of the input, at most one for each id |
| Dedup.DedupInTwoSteps | artifacts/concepts/llm-pipeline-on-a-workstation/reproduce/data-gen/filter_clean.py:288-305 | without a clash, deduplicating A, then the result with B, is deduplicating A with B |
| Decimal.OfNatDenotes | artifacts/concepts/llm-pipeline-on-a-workstation/reproduce/data-gen/filter_clean.py:294 | the invented keys carry the decimal digits of the number of entries, without leading zeros |
| FilterOrder.CleanRowsInOrder | artifacts/concepts/llm-pipeline-on-a-workstation/reproduce/data-gen/filter_clean.py:182-199 | the clean rows are, in pool order, exactly those without an error of either kind, with finish reason stop and a question and an answer that are strings and not blank |
| FilterOrder.FilterOutcomeExactly | artifacts/concepts/llm-pipeline-on-a-workstation/reproduce/data-gen/filter_clean.py:284-333 | given those rows, which of the three outcomes occurs and with which rows or counts: all deduplicated rows without ids, a stop for an empty set of ids, a stop with the counts if more than the allowed fraction would be dropped, and otherwise the rows with a valid id in order |
| FilterOrder.WrittenRowsAreBest | artifacts/concepts/llm-pipeline-on-a-workstation/reproduce/data-gen/filter_clean.py:288-333 | without a clash each written row with an id is the first with the longest answer text among the usable rows of the pool with that id, and every valid id of a usable row is written |
| Pipeline.FilterClean | artifacts/concepts/llm-pipeline-on-a-workstation/reproduce/data-gen/filter_clean.py:284-333 | which rows are written, or which guard stops the program |
| Pipeline.WrittenRowsAreCleanAndUnique | artifacts/concepts/llm-pipeline-on-a-workstation/reproduce/data-gen/filter_clean.py:284-333 | the rows written are clean, at most one for each id, exactly the rows the loop kept that have a valid id, and never short by more than the allowed fraction; without a clash the rows the loop kept are those of the plain specification |
| Pipeline.ChatSkipsNone | artifacts/concepts/llm-pipeline-on-a-workstation/reproduce/data-gen/to_chat_format.py:64-86 | chat conversion keeps every clean row, in order, each with the id, the grounding id, the question and the answer it had |
| Pipeline.WrittenRowsReachOneSplit | artifacts/concepts/llm-pipeline-on-a-workstation/reproduce/data-gen/split_dataset.py:36-99 | each row with an id that filter_clean writes ends in exactly one place of exactly one split, with its own id, grounding id, question and answer; the splits are a permutation of the converted rows, and no grounding id is divided |
| NearDup.Collect | artifacts/concepts/llm-pipeline-on-a-workstation/reproduce/data-gen/pass3_dedup.py:81-106 | the candidates that have a signature, in order; candidates = pending + empties |
| NearDup.Index | artifacts/concepts/llm-pipeline-on-a-workstation/reproduce/data-gen/pass3_dedup.py:108-118 | the loop keeps the greedy set, or raises exactly when that set has two rows with one id; pending = kept + duplicates |
| NearDup.Dedup | artifacts/concepts/llm-pipeline-on-a-workstation/reproduce/data-gen/pass3_dedup.py:80-122 | the program keeps the greedy set of the candidates, and candidates = kept + duplicates + empties |
| NearDup.KeptAreIndependent | artifacts/concepts/llm-pipeline-on-a-workstation/reproduce/data-gen/pass3_dedup.py:108-118 | no kept row is near an earlier kept one |
| NearDup.DroppedExactlyWhenNear | artifacts/concepts/llm-pipeline-on-a-workstation/reproduce/data-gen/pass3_dedup.py:110-116 | a row is dropped if and only if it is near a row kept before it |
| NearDup.KeptAreMaximal | artifacts/concepts/llm-pipeline-on-a-workstation/reproduce/data-gen/pass3_dedup.py:110-116 | every row is near some kept row: the kept set cannot be extended |
| NearDup.GreedyTwice | artifacts/concepts/llm-pipeline-on-a-workstation/reproduce/data-gen/pass3_dedup.py:108-118 | the loop changes nothing on rows of which none is near an earlier one |
| NearDup.OutputIsStable | artifacts/concepts/llm-pipeline-on-a-workstation/reproduce/data-gen/pass3_dedup.py:80-122 | with distinct ids nothing raises, and a second pass over the output keeps all of it |
| NearDup.PendingInOrder | artifacts/concepts/llm-pipeline-on-a-workstation/reproduce/data-gen/pass3_dedup.py:89-106 | candidates are, in input order, exactly the structured recipes tagged vegan or vegetarian, and those with a token have a signature |
| NearDup.KeptOfRows | artifacts/concepts/llm-pipeline-on-a-workstation/reproduce/data-gen/pass3_dedup.py:80-118 | of any rows: those kept are such recipes, none near an earlier one, and every such recipe is near one of them |
| StatusLines.RelayRecoversStatus | infra/scripts/lustre-cluster.sh:86-103 | relay extracts exactly the emitted status from a line, for any phase, node, action, and any detail without STATUS= |
| StatusLines.RelayLog | infra/scripts/lustre-cluster.sh:94-103 | relaying a log is bumping the worst status line by line |
| StatusLines.WorstIsMaximum | infra/scripts/lustre-cluster.sh:77-103 | the worst status is the maximum over everything emitted |
| StatusLines.WorstIgnoresOrder | infra/scripts/lustre-cluster.sh:77-103 | it is the same for every interleaving of the nodes' lines |
| StatusLines.OtherLinesAreIgnored | infra/scripts/lustre-cluster.sh:94-103 | a line that does not begin with PHASE=, or has no STATUS= in it, has no effect wherever it stands in a log |
| LustreProofs.BringupKeepsClosed | infra/scripts/lustre-cluster.sh:467-578 | from a dependency-closed state every state of a bringup is dependency-closed, for any interleaving and any failing commands; a bringup that ends without red leaves everything up |
| LustreProofs.BringupIsIdempotent | infra/scripts/lustre-cluster.sh:117-311 | a bringup of a cluster that is up changes nothing at any moment |
| LustreLosses.BringupSurvivesLossExactlyWhen | infra/scripts/lustre-cluster.sh:467-578 | when the status lines of some scripts may be lost, every bringup from every closed cluster stays closed if and only if none of those scripts prepares a node or mounts a server |
| LustreLosses.LossBreaks | infra/scripts/lustre-cluster.sh:483-548 | for each single script that prepares a node or mounts a server there is a run in which its loss lets something be mounted on what is not there |
| LustreProofs.TeardownKeepsClosed | infra/scripts/lustre-cluster.sh:581-619 | a teardown without red passes only through dependency-closed states and ends with nothing mounted |
| LustreProofs.CycleRestoresMounts | infra/scripts/lustre-cluster.sh:581-619 | teardown and bringup again, both without red, restore the same mounts, closed throughout |
| LustreFailures.TeardownStaysClosedExactlyWhen | infra/scripts/lustre-cluster.sh:313-362 | with a given set of failing unmounts, a teardown of any dependency-closed cluster stays closed if and only if a stuck client comes with both OSTs stuck, and a stuck OST1 with a stuck OST0 or MDT (stuck: mounted at the start and failing) |
| LustreFailures.TeardownCanFail | infra/scripts/lustre-cluster.sh:581-619 | every closed cluster can be torn down with every set of unmounts failing, so both sides occur |
| LustrePlans.MountsNeedPings | infra/scripts/lustre-cluster.sh:436-513 | in every bringup, whenever what is mounted differs from the start, two earlier steps were pings that went through, one from N1 and behind it one from N2 |
| LustrePlans.RedPingStopsBringup | infra/scripts/lustre-cluster.sh:436-449 | in a bringup with a ping that fails, from either node, what is mounted is the same at every moment, before and after, and the bringup never gets to its end |
| LustrePlans.PingCanFail | infra/scripts/lustre-cluster.sh:436-449 | from every cluster there is a bringup with a ping that fails, from the one node and from the other |
| LustrePlans.BringupCanSucceed | infra/scripts/lustre-cluster.sh:467-578 | from every closed cluster there is a bringup that gets to its end with everything up and nothing reported |
| LustrePlans.CommandsFollowThePlan | infra/scripts/lustre-cluster.sh:467-619 | in every run of either plan, as long as nothing was red each node has executed a prefix of its list of commands, in order and without gaps, and all of it at the end; the lists are written out |
| LustreDriver.ClusterDriver.Perform | infra/scripts/lustre-cluster.sh:467-578 | the driver's loop passes exactly through a run of the state machine, and stops early only at a gate with a red status |
| LustreDriver.ClusterDriver.RunScripts | infra/scripts/lustre-cluster.sh:483-494 | the two scripts of a phase run in any interleaving until both are over; relaying their logs afterwards, N1's first, brings the worst status to the maximum of everything emitted |
| LustreDriver.ClusterDriver.DoBringup | infra/scripts/lustre-cluster.sh:467-578 | bringup from a closed cluster: closed throughout, unchanged when it was up, nothing mounted or unmounted unless both pings went through, and when not red every command of both plans executed in order and all up |
| LustreDriver.ClusterDriver.DoTeardown | infra/scripts/lustre-cluster.sh:581-619 | teardown from a closed cluster: when not red, closed throughout, every command of both plans executed in order and nothing mounted at the end |

## Left out

- CampaignMetrics.EveryMetricIsKept: takes from the parser (`parsers/fio.py:39-72`) that records are named after their job and differ in op or metric, because reading fio's JSON is not part of this model.
- CampaignMetrics.RecordedMetricsAreKept: likewise.
- CampaignResume.FaultlessRunIsRecordedOk: when every kind has a runner, since a kind without one counts as a failure.
- TestfileHistory.FreeStaysAboveMargin: for a target that has its filesystem to itself; other writers, sparse files and jobs that extend the file are not modelled.
- TestfileHistory.PreparesAreServed: for a preflight whose size probe came back; a lost probe counts as no file and asks for more space.
- GenerationLog.CutStreamKeeps: the reader of a line is a parameter. Of it is assumed only that a line that opens an object and is accepted passes the scanner of `JsonText`, which lets anything but printable ASCII follow the object, as stripping blanks does.
- GenerationCuts.CutIsReadableExactlyWhen: of the reader is assumed that a line that opens an object raises exactly when it is not whole UTF-8; a parser's limits on nesting or on the length of numbers are not modelled.
- GenerationHistory.OneLineForEachId: for distinct prompt ids and non-empty ids, since the code never takes an empty id for completed.
- SizeStrings.GibIsBytesInWholeGib: in exact arithmetic; the code multiplies floating-point numbers.
- CampaignTestfile.JobsFindTheirBytes: for one target with its own testfile; that jobs start only behind a prepare that returned links the campaign's outcomes to the target's, and is what `orchestrator.py:198-211` does.
- SplitterBalance.SplitIsBalanced: in exact arithmetic; the code compares floating-point deficits.
- Splitter.NoLeakage: for grounding ids that are integers or absent; the shuffle is an arbitrary permutation, the library's sort a stable insertion.
- Dedup.LoopIsSimpleExactlyWhen: for request ids that are strings or absent.
- NearDup.KeptAreMaximal: for rows that the index finds near themselves; nearness is an arbitrary relation on token sets, minhash and its index are not modelled.
- NearDup.KeptOfRows: likewise.
- LustreProofs.BringupKeepsClosed: nothing is unmounted or unloaded behind the driver's back, and every script's status lines arrive; `LustreLosses` has the case that they do not.
- LustreLosses.BringupSurvivesLossExactlyWhen: a mount is not assumed to fail for want of what it needs, so the condition says what the gates rule out, not what a kernel would refuse; a script that goes on after its connection broke is not modelled.
- Campaigns: dry runs, timestamps, raw files, progress text, YAML, the capacity check of `load_campaign` and the other validators. The tables are always there. An exception that leaves a runner's `run_jobs` or `cleanup` is a process death at that point.
- Testfiles: the environment capture, the text formats of df and stat. A prepare that raises before it touches the file (its directory cannot be made, a probe times out) changes nothing and is no event of a history. A remote command that times out counts as stopped.
- Generation: HTTP, prompts' contents, concurrency (results come in any order), interrupts (fewer results), vLLM start-up and health checks (a failed chunk).
- filter_clean: the leakage flags and their vocabulary, malformed lines and `--strict`, the report, which only annotate or count.
- pass3_dedup: the context file, which copies every row, and the vegan and vegetarian counters.
- Splitter: the atomic writing of the three files and the statistics.
- Lustre: the status subcommand, sudo rules, the wording of details, placeholders rendered into scripts.
- The report, the log analyses, eval_traffic, quality_screen, strip_lm_head_lora, build_prompts, pass1 and pass2: formatting and I/O that would only add easy members.
