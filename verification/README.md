# Verification models for smalog

Dafny models of the parts of smalog whose correctness spans many steps, with proofs of what they
promise. `dafny verify dfyconfig.toml` checks the whole project.

The models follow the program's structure, one module a component:

* **Resumable SBFspot migration** (`Keyset`, `CheckpointKeys`, `Canonical`, `SpotDataX`,
  `MigrationRun`, `Contents`, `References`, `LastWriter`, `Migrator`, `Orchestrate`, `Verification`,
  `Sessions`, `ForeignResume`, `Leftovers`, `Precedence`). The target is a class with a committed and a working
  state; a session runs keyset batches under failing hooks, errors and crashes, is verified against a
  second migration, and may be resumed with any batch size and any options, on any day. The run's
  committed tables are always the one-row-at-a-time migration of the rows its checkpoints cover, each
  row under the options and on the day of the session that committed it; after the last category the
  rebuild of each session stores its daily yields over these. `Contents` states what these tables hold
  from the fields of the covered rows alone, column by column.
* **Daily yields** (`DailyYieldRebuild`, `RebuiltYields`, `DailyYields`, `YieldAgreement`): the
  migrator's one-pass reconstruction, the live incremental recomputation, when a write keeps every
  day coherent, and when the two algorithms agree.
* **Daily statistics** (`PowerSamples`, `DailyStatistics`, `MeanOverTime`): grouping, time-weighted
  mean, completeness and staleness.
* **Verifier** (`Bits`, `Checksum`, `TableCheck`): the FNV-1a stream of a table, its unique
  decodability, and the sampled comparison.
* **Bluetooth** (`FcsTable`, `Fcs`, `Framing`, `PacketIds`, `Reassembly`, `Bluetooth`): octet stuffing
  and FCS-16 with its literal table (RFC 1662, section 4.2 and appendix C), packets cut over several
  frames, packet ids, and requests with retries.
* **Rings and collector** (`Paging`, `TransmissionRing`, `LogBuffer`, `WriteQueue`, `Collector`):
  pruning in chunks, keyset paging under concurrent appends and evictions, the hand-off queue, and
  the memory of refused queries.

## Where the code does less than it seems to promise

Each of these is stated by a lemma, with the exact condition for all inputs beside it.

* The batch size can decide whether a SpotDataX migration succeeds: a batch hides an out-of-range
  state of charge behind a later row for the same column (`SpotDataX.SplitsAgreeExactlyWhen`,
  `SpotDataX.RowsSucceedExactlyWhen`, `SpotDataX.HiddenChargeExample`).
* Whether a yield is complete is decided by the local date on which its session started, and the
  second migration of the verification decides it anew. The tables are those of the second migration
  if and only if every stored date is over for the session that wrote it last exactly when it is over
  for the verification (`LastWriter.FinalTablesAgreeExactlyWhen`). When exactly one stored date
  disagrees the table checks never pass (`Sessions.OneDisagreementFails`): a run whose only MonthData
  row was committed on the row's own day is never resumed to success on a later day
  (`Sessions.LaterDayFailsChecks`, `Sessions.ResumeOnALaterDay`), and a session whose verification
  starts after midnight fails on today's yield when it is the only one (`Sessions.MidnightFailsChecks`).
  When several dates disagree the tables differ; that their checksums differ too is not proved.
* Rows at or below a category's start key (rowid 0 and below, and the smallest composite key) are
  never read; then verification never passes and the run never completes
  (`MigrationRun.CategoryCountCheckPasses`, `Verification.CountsMatchExactlyWhen`,
  `Sessions.RunSession`).
* `open_run` compares fingerprints only, so a session in another timezone or with another PVOutput
  option goes on with the run and commits rows under its own options
  (`ForeignResume.SameEffectExactlyWhen`, `ForeignResume.ForeignTablesExactlyWhen`,
  `ForeignResume.HarmlessResumeKeepsTables`, `ForeignResume.ForeignMonthRowExactlyWhen`);
  in another timezone it never completes the run (`Sessions.RunSessions`).
* Nothing ever removes a yield. A session in another timezone that finds all categories complete still
  stores the yields it reconstructs under its own dates, and one such yield under a date that the
  run's own timezone does not expect keeps every later session of that timezone from succeeding: the
  verifier counts one row too many (`Leftovers.LeftoverFails`, `Leftovers.LeftoverNeverCompletes`,
  `Leftovers.AwaySessionLeavesAYield`, `Leftovers.LeaveAndReturn`).
  The exact condition on what a session finds is `ForeignResume.OwnRebuildExactlyWhen` and, for every
  session of every history, `Leftovers.VerdictTablesExactlyWhen`.
* A session with the PVOutput option creates the optional table even when it is refused. The table is
  never removed, and from then on no session without the option succeeds (`Sessions.RunSession`,
  `Sessions.RunSessions`).
* Back-filling a day before an empty day leaves the next sampled day with its old baseline
  (`DailyYields.CoherenceKeptExactlyWhen`, `DailyYields.BackfillBeforeEmptyDayGoesStale`).
* A day whose last write came before its end is completed by a write on the following day. Without one
  it stays flagged incomplete until a reading for it or for the day before arrives, or until it is rebuilt
  by command (`DailyYields.FlaggedExactlyWhen`, `DailyYields.MissedDayStaysIncomplete`,
  `DailyYields.EnergyStore.RebuildDailyYields`).
* The two daily-yield algorithms differ on negative or falling totals
  (`YieldAgreement.AgreeExactlyWhen`, `YieldAgreement.FallingTotalDisagrees`).
* A changed measurement does not make a cached statistics row stale, and a deleted one need not
  (`DailyStatistics.UnchangedExactlyWhen`, `DailyStatistics.UpdatedMeasurementIsNotNoticed`).
* Nor does another poll interval with the same expected count, although it can change the means and
  the completeness. The condition of `DailyStatistics.PollChangeMattersExactlyWhen` is in these results;
  the one that can be checked beforehand, that no interval between samples is short enough for one of
  the two poll intervals only, is sufficient for equal means (`DailyStatistics.AlikeMeans`) and not
  necessary. `DailyStatistics.PollChangeIsNotNoticed` is an input.
* A `since` cursor ahead of the log ring is ignored only until the ring has passed it, so a paging
  session can miss a retained record (`LogBuffer.SessionIsCompleteExactlyWhen`,
  `LogBuffer.OvertakenResetMissesARecord`).
* After a step back of the clock the row cap of the transmission ring can remove rows that the ring is
  meant to hold before all old ones are gone (`TransmissionRing.IdealSurvivesExactlyWhen` for one
  call, `TransmissionRing.SettlesAtIdealExactlyWhen` for pruning to the end,
  `TransmissionRing.ClockStepLosesTheFreshRow`).
* A query that all its devices have refused is asked again when the login brings a device that was
  not among those loaded (`Collector.RefusedQueriesAreRepeatedExactlyWhen`,
  `Collector.LateSerialIsAskedAgain`).
* A Bluetooth packet whose check bytes contain a flag or an escape byte does not survive every cut
  (`Reassembly.SurvivesExactlyWhenClean`); the sender avoids these check bytes by re-rolling the id.
* A valid reply of exactly 28 bytes is indexed past its end: the guard asks for 28 bytes and the id
  field ends at byte 29 (`Bluetooth.CrashIsShort`, `Bluetooth.CollectCrashesExactlyWhen`,
  `Bluetooth.RequestCrashesExactlyWhen`, `Bluetooth.ShortReplyCrashes`).
* A reply that stops before its last fragment is returned as if it were whole once the line falls
  silent (`Bluetooth.FramesAreWholeExactlyWhen`, `Bluetooth.PartialReplyIsReturned`).

## Model

| member | source | states |
|---|---|---|
| `Keyset.PageAtCursor` | src/crates/smalog-sbfspot-migrator/src/orchestrate.rs:168-187 | A keyset page continues exactly where the cursor stands: the next rows in key order, none skipped and none repeated. |
| `Keyset.RangeRereadsPage` | src/crates/smalog-sbfspot-migrator/src/orchestrate.rs:403-447 | Re-reading `(after, through]` with the key of a page's last row returns exactly the rows of that page, so a batch writes what its keyset read announced. |
| `Keyset.LessIsLexicographic` | src/crates/smalog-sbfspot-migrator/src/orchestrate.rs:549-621 | Keys are ordered by the first component in which they differ, as SQL orders row values. |
| `CheckpointKeys.ShowRoundTrip` | src/crates/smalog-sbfspot-migrator/src/orchestrate.rs:396-401 | Parsing undoes the decimal text of every 64-bit rowid key, negative ones included. |
| `CheckpointKeys.SpotDataXRoundTrip` | src/crates/smalog-sbfspot-migrator/src/orchestrate.rs:503-547 | `parse` undoes `encode` for every composite SpotDataX key. |
| `SpotDataX.GroupingRefinesRows` | src/crates/smalog-sbfspot-migrator/src/orchestrate.rs:780-955 | Grouping a batch into MPPT, battery and grid maps and writing column by column gives the tables that applying its rows one at a time in key order gives: last key wins per column, explicit NULLs overwrite, keys that collide after masking agree, parents match. |
| `SpotDataX.AnySplitGivesTheSameTables` | src/crates/smalog-sbfspot-migrator/src/orchestrate.rs:549-621 | Every way of cutting the rows into batches, each grouped on its own, ends in the same tables. |
| `SpotDataX.OverlayInStages` | src/crates/smalog-sbfspot-migrator/src/orchestrate.rs:906-955 | Storing MPPT groups, then battery groups, then grid groups stores all groups and all parent measurements. |
| `SpotDataX.RowsSucceedExactlyWhen` | src/crates/smalog-sbfspot-migrator/src/orchestrate.rs:780-955 | Rows succeed one at a time if and only if they succeed as one batch and every state of charge is in range. |
| `SpotDataX.SplitsAgreeExactlyWhen` | src/crates/smalog-sbfspot-migrator/src/orchestrate.rs:780-955 | Rows that fail as one batch fail in every split into batches; and every split has the outcome of the one batch if and only if that fails or every state of charge is in range: success depends on the batch size exactly when a later row hides an out-of-range charge. |
| `SpotDataX.HiddenChargeExample` | src/crates/smalog-sbfspot-migrator/src/orchestrate.rs:804-940 | A concrete batch of two rows that succeeds although its first row alone violates the charge column's check. |
| `Migrator.GroupBatch` | src/crates/smalog-sbfspot-migrator/src/orchestrate.rs:804-905 | The loop fails exactly when some row is invalid, and otherwise builds the groups of all rows. |
| `Migrator.WritableTarget.StoreMppts` | src/crates/smalog-sbfspot-migrator/src/orchestrate.rs:906-922 | Stores every MPPT group under its measurement; fails exactly when a group's inverter is unknown. Any order of the groups gives the same tables. |
| `Migrator.WritableTarget.StoreBatteries` | src/crates/smalog-sbfspot-migrator/src/orchestrate.rs:923-940 | As above for battery groups; also fails exactly when a surviving state of charge is out of range. |
| `Migrator.WritableTarget.StoreGrid` | src/crates/smalog-sbfspot-migrator/src/orchestrate.rs:941-955 | As above for grid import and export. |
| `Migrator.WritableTarget.MigrateSpotDataXBatch` | src/crates/smalog-sbfspot-migrator/src/orchestrate.rs:780-955 | A whole SpotDataX batch: success exactly when all rows decode, all inverters are known and all surviving charges are in range; then the working tables are those of the one-row-at-a-time migration, whose columns the next rows give from raw keys and values. |
| `Contents.RowFailsExactlyWhen` | src/crates/smalog-sbfspot-migrator/src/orchestrate.rs:804-905 | A row fails exactly when its key is no 32-bit number, has one of the nine codes and a value that does not fit once scaled, or is a tracker key with tracker zero; any other key without one of the nine codes stores nothing. |
| `Contents.DecodedMppt` | src/crates/smalog-sbfspot-migrator/src/orchestrate.rs:806-851 | A row stores a tracker's power, voltage (times 10) or current exactly when its key holds that column's code and that tracker number: the value, scaled. |
| `Contents.DecodedBattery` | src/crates/smalog-sbfspot-migrator/src/orchestrate.rs:852-890 | A row stores a battery's charge (times 10), voltage (times 10), current or temperature (times 100) exactly when its key holds that column's code. |
| `Contents.DecodedGrid` | src/crates/smalog-sbfspot-migrator/src/orchestrate.rs:891-901 | Code 0x4637 stores grid import, code 0x4636 grid export, and no other code either. |
| `Migrator.WritableTarget.MigrateBatch` | src/crates/smalog-sbfspot-migrator/src/orchestrate.rs:432-478 | A batch of any category changes the working tables by its rows one at a time in key order, and fails exactly when it cannot be stored; what rows leave behind is stated apart in the rows of Contents below. |
| `Contents.RowFailsAloneExactlyWhen` | src/crates/smalog-sbfspot-migrator/src/orchestrate.rs:623-1317 | A row fails on its own exactly when a column that its table stores cannot be converted, its inverter is not known, or a value is out of its column's range. |
| `Contents.LastRowDecides` | src/crates/smalog-sbfspot-migrator/src/orchestrate.rs:432-478 | Whatever part of the tables each row either sets from its own fields or leaves alone holds, after any rows, what the last row supplied that supplies it, else what was there. |
| `Contents.InverterFollows` | src/crates/smalog-sbfspot-migrator/src/orchestrate.rs:623-687 | An inverter is such a part: its Inverters rows supply the identity, with the range in which the source has seen the serial. |
| `Contents.SeenInTheSource` | src/crates/smalog-sbfspot-migrator/src/orchestrate.rs:1125-1143 | That range is the least and the greatest instant of the serial in the six tables of the whole source: each taken by a row and bounding all, and absent exactly when there is none. |
| `Contents.MeasurementFollows` | src/crates/smalog-sbfspot-migrator/src/orchestrate.rs:1972-2129 | A measurement exists from the first row on that stores into it: SpotData, a recognized SpotDataX key, or an Inverters row with latest values where no SpotData row is. |
| `Contents.SpotFollows` | src/crates/smalog-sbfspot-migrator/src/orchestrate.rs:2036-2129 | Its other columns are supplied by SpotData rows alone. |
| `Contents.LatestFollows` | src/crates/smalog-sbfspot-migrator/src/orchestrate.rs:642-687 | Its latest columns are supplied by SpotData rows, and by Inverters rows only where no SpotData row has that serial and instant. |
| `Contents.GridFollows` | src/crates/smalog-sbfspot-migrator/src/orchestrate.rs:891-901 | Grid import and export are supplied by the rows with their code. |
| `Contents.MpptFollows` | src/crates/smalog-sbfspot-migrator/src/orchestrate.rs:2131-2210 | A tracker's column is supplied by the rows with its code and tracker number, and by SpotData rows whose fixed tracker has a value. |
| `Contents.BatteryFollows` | src/crates/smalog-sbfspot-migrator/src/orchestrate.rs:2212-2252 | A battery's column is supplied by the rows with its code. |
| `Contents.EnergyFollows` | src/crates/smalog-sbfspot-migrator/src/orchestrate.rs:1145-1201 | An energy sample is supplied by the DayData rows of its serial and instant. |
| `Contents.ExportFollows` | src/crates/smalog-sbfspot-migrator/src/orchestrate.rs:1145-1201 | An export is supplied by those with a PVOutput flag when the option is on: open for flag 0, otherwise made at the sample's instant. |
| `Contents.YieldFollows` | src/crates/smalog-sbfspot-migrator/src/orchestrate.rs:1281-1317 | A daily yield is supplied by the MonthData rows of its local date. |
| `Contents.EventFollows` | src/crates/smalog-sbfspot-migrator/src/orchestrate.rs:1203-1240 | An event is supplied by the EventData rows of its serial and entry, with the row's instant. |
| `Contents.ConsumptionFollows` | src/crates/smalog-sbfspot-migrator/src/orchestrate.rs:1242-1279 | A consumption is supplied by the rows of its instant. |
| `Migrator.WritableTarget.AdvanceCheckpoint` | src/crates/smalog-sbfspot-migrator/src/orchestrate.rs:2939-2989 | The checkpoint row takes the new key and adds the batch's rows to its count. |
| `Migrator.WritableTarget.CompleteCheckpoint` | src/crates/smalog-sbfspot-migrator/src/orchestrate.rs:2991-3030 | Completing keeps key and count and creates a row for a category without rows. |
| `MigrationRun.AdvanceAt` | src/crates/smalog-sbfspot-migrator/src/orchestrate.rs:479-495 | Committing a batch's writes together with its checkpoint advance moves the run from a position to the position after that batch. |
| `MigrationRun.AgreeingAt` | src/crates/smalog-sbfspot-migrator/src/orchestrate.rs:2776-2808 | What a run has committed depends on the options and the current dates of the rows before its position only: a session with other options, or on another day, can go on from there. |
| `MigrationRun.CompleteAt` | src/crates/smalog-sbfspot-migrator/src/orchestrate.rs:415-420 | Completing a category whose rows are exhausted moves the run to the start of the next one. |
| `MigrationRun.CoveredRows` | src/crates/smalog-sbfspot-migrator/src/orchestrate.rs:2939-2989 | `rows_processed` of a checkpoint is the number of source rows between the start key and its stored `last_key`, read back from its text. |
| `MigrationRun.TablesFollowCheckpoints` | src/crates/smalog-sbfspot-migrator/src/orchestrate.rs:366-621 | At every position of every run before the last category is complete the committed tables, the completeness of yields included, equal the one-row-at-a-time migration of exactly the source rows that the committed checkpoints cover, each row under the options and on the day of the session that committed it; after the last category this holds of all tables but the daily yields, which the rebuild writes then. |
| `Contents.StagedAt` | src/crates/smalog-sbfspot-migrator/src/orchestrate.rs:2905-2937 | At every position of every run the staged rowids are those of the covered Config rows. |
| `Contents.InvertersAt` | src/crates/smalog-sbfspot-migrator/src/orchestrate.rs:623-687 | At every position an inverter is that of its last covered row, with its range in the whole source. |
| `Contents.MeasurementsAt` | src/crates/smalog-sbfspot-migrator/src/orchestrate.rs:689-778 | At every position each measurement, its spot, latest and grid columns come from the last covered row that supplies them. |
| `Contents.TrackersAt` | src/crates/smalog-sbfspot-migrator/src/orchestrate.rs:2131-2210 | So do the tracker columns. |
| `Contents.BatteriesAt` | src/crates/smalog-sbfspot-migrator/src/orchestrate.rs:2212-2252 | So do the battery columns. |
| `Contents.SamplesAt` | src/crates/smalog-sbfspot-migrator/src/orchestrate.rs:1145-1279 | So do energy samples, exports, events and consumption. |
| `Contents.YieldsAt` | src/crates/smalog-sbfspot-migrator/src/orchestrate.rs:1281-1317 | So do the daily yields until the rebuild. |
| `References.ReferencesAt` | src/crates/smalog-storage/migrations/sqlite/0001_smalog_schema_v1.sql:27-131 | At every position of every run each stored row's inverter is stored, each tracker's and battery's measurement too, and tracker numbers lie in 1 to 255: no foreign key is ever violated. |
| `References.RebuildKeepsReferences` | src/crates/smalog-sbfspot-migrator/src/orchestrate.rs:1407-1576 | Nor by the rebuild of daily yields. |
| `MigrationRun.SkippedExactlyWhen` | src/crates/smalog-sbfspot-migrator/src/orchestrate.rs:396-401 | The rows never read are those with a rowid of zero or below, and of SpotDataX only one whose three key columns are the least 64-bit number. |
| `MigrationRun.TotalsCountCoveredRows` | src/crates/smalog-sbfspot-migrator/src/orchestrate.rs:3032-3051 | The run's total is the number of covered rows over all categories, and the completed categories are those passed. |
| `MigrationRun.CompletedTotals` | src/crates/smalog-sbfspot-migrator/src/orchestrate.rs:3032-3084 | A run with all categories complete totals the source rows minus those at or below the start keys. |
| `MigrationRun.CategoryCountCheckPasses` | src/crates/smalog-sbfspot-migrator/src/verify.rs:395-413 | The verifier's source-category count check of a finished run passes if and only if no row of the category lies at or below its start key (rowid 0 and below are never read). |
| `Orchestrate.SucceedingRowsCanBeStored` | src/crates/smalog-sbfspot-migrator/src/orchestrate.rs:432-478 | Rows that succeed one at a time can be stored in batches of any size. |
| `Orchestrate.RunBatch` | src/crates/smalog-sbfspot-migrator/src/orchestrate.rs:402-498 | One batch of as many rows as asked for or left, under any fault (failing hook, error or crash before or after the commit): committed as a whole or not at all, with the ending that fault and rows decide, and always at a position of the run. |
| `Orchestrate.ProcessCategory` | src/crates/smalog-sbfspot-migrator/src/orchestrate.rs:366-501 | All batches of a category from wherever its checkpoint stands; the loop ends because the rows above the key decrease. |
| `Orchestrate.ProcessCategories` | src/crates/smalog-sbfspot-migrator/src/orchestrate.rs:366-501 | All categories in order, skipping completed ones; the committed state only moves forward, and at the end it is the one-row-at-a-time migration of the whole source. |
| `Orchestrate.RebuildYields` | src/crates/smalog-sbfspot-migrator/src/orchestrate.rs:1407-1576 | In every timezone and over whatever yields it finds: unless it crashes, the yields afterwards are those found overwritten by exactly the ones that the samples and the dates copied in this timezone determine, which are those it reports as reconstructed, complete exactly when their date is before this session's current date; a crash leaves some of them stored. It removes nothing and changes no other table, and it fails exactly when a copied date is not stored. In one timezone it always gets to the end and ends in the final tables of this day. |
| `Orchestrate.Copy` | src/crates/smalog-sbfspot-migrator/src/orchestrate.rs:242-289 | Categories, then the rebuild, from any position of a run: the committed state stays a position and never moves back, and at the end the rebuild has stored its yields over what was there; under one set of options that makes the final tables: each copied yield as complete as on the day its row was committed, each reconstructed one as on the day of this session. |
| `Verification.CheckCounts` | src/crates/smalog-sbfspot-migrator/src/verify.rs:393-413 | The count checks: each category's completed checkpoint counts as many rows as its source table, and a checkpoint that is missing or not completed never matches. |
| `Verification.CountsMatchExactlyWhen` | src/crates/smalog-sbfspot-migrator/src/verify.rs:393-413 | After the last category these checks pass if and only if no row of the source lies at or below a start key. |
| `Verification.CountsNeedCompletion` | src/crates/smalog-sbfspot-migrator/src/verify.rs:697-724 | Whatever the checkpoints say, the checks pass exactly when every category is completed and counts as many rows as its source table has. |
| `Verification.CompareTables` | src/crates/smalog-sbfspot-migrator/src/verify.rs:414-447 | All table checks and samples pass exactly when every table agrees with the expected one in count, checksum and the checksums of the sampled rows. |
| `Verification.EqualViewsAgree` | src/crates/smalog-sbfspot-migrator/src/verify.rs:414-447 | Equal canonical tables pass every check and every sample. |
| `Verification.OneFlagFails` | src/crates/smalog-sbfspot-migrator/src/verify.rs:126-145 | Tables that differ in the completeness of one yield never pass, when the verifier shows each completeness as one byte of a row. |
| `Verification.ListingShowsCompleteness` | src/crates/smalog-sbfspot-migrator/src/verify.rs:126-145 | It does when it lists serial, date, total, daily energy and completeness of every yield by serial and date. |
| `Verification.YieldsViewShowsCompleteness` | src/crates/smalog-sbfspot-migrator/src/verify.rs:126-145 | So there is a verifier that shows each completeness as one byte. |
| `Leftovers.YieldsViewCountsYields` | src/crates/smalog-sbfspot-migrator/src/verify.rs:126-145 | And it lists one row for each yield. |
| `Verification.MigrateShadow` | src/crates/smalog-sbfspot-migrator/src/verify.rs:377-383 | The second migration, into a new target and with a clock of its own, gives the final tables of this source under this session's options within its own day, and succeeds when every row can be migrated. |
| `Verification.Verify` | src/crates/smalog-sbfspot-migrator/src/verify.rs:366-500 | Verification passes only in the timezone the run was created in, with the optional table the session asks for, all counts matching and all tables, the completeness of yields included, agreeing with the second migration on its own day; and if all this holds, the engine checks pass and every row can be migrated, it passes. |
| `Sessions.OpenSession` | src/crates/smalog-sbfspot-migrator/src/orchestrate.rs:2708-2821 | A session is refused exactly when a run exists and it does not resume it with the same fingerprint, or none exists and it resumes. The optional table is created even then. An opened run keeps position, tables and timezone, and its next rows take this session's options. |
| `Sessions.VerifyAndFinish` | src/crates/smalog-sbfspot-migrator/src/orchestrate.rs:304-348 | A run is marked completed only when its verification passed; then its total is the number of source rows, all eight categories are complete and no row was skipped. A copy under these options passes exactly when the engine checks do, no row was skipped and its tables agree with the second migration, in particular whenever the days agree on every stored date. |
| `Sessions.RunSession` | src/crates/smalog-sbfspot-migrator/src/orchestrate.rs:209-364 | One session from any consistent target, whatever options and days earlier sessions had: refused exactly when it must be, otherwise the committed state stays a position of one run, its rows under the options of the sessions that committed them. The run row ends interrupted, not verified or completed as the session did, with the number of source rows that the checkpoints cover and of categories completed, and after a crash as it was opened; success means a verified run in the timezone it was created in with every source row counted. The optional table is never removed. |
| `Sessions.NewTargetIsConsistent` | src/crates/smalog-sbfspot-migrator/src/orchestrate.rs:2708-2821 | A new target is a consistent start for a run of any source under any options. |
| `Sessions.RunSessions` | src/crates/smalog-sbfspot-migrator/src/orchestrate.rs:209-364 | Any history of executes and resumes of any sources, options, days and batch sizes, with failures and crashes anywhere, from a new target too: the committed database never moves back, keeps the timezone it was created in, and no session of another timezone succeeds; the optional table exists once any session has asked for it, refused or not, and from then on no session without it succeeds; after a successful session the database is finished for that session, and with the same options throughout its tables are those of an undisturbed migration within one day up to the completeness of yields, and exactly these if and only if the days agree. The run row always has the status and totals of the last session that was not refused. |
| `LastWriter.YieldsByLastWriter` | src/crates/smalog-sbfspot-migrator/src/orchestrate.rs:2462-2489 | After any rows the yield of a date is what the last MonthData row for it stored, on the day of the session that committed it, or else what was there before. |
| `LastWriter.SameTablesExactlyWhen` | src/crates/smalog-sbfspot-migrator/src/orchestrate.rs:1145-1317 | At every position of a run two migrations of one source, under any options and on any days, have the same tables if and only if for every date and every sample the last row that writes it writes the same in both. |
| `LastWriter.FinalTablesAgreeExactlyWhen` | src/crates/smalog-sbfspot-migrator/src/orchestrate.rs:1528-1576 | Under the same options a run whose sessions ran on any days ends in the tables of a migration within one day, up to the completeness of yields; and in exactly these if and only if every stored date is over for the session that wrote it last exactly when it is over on that day. |
| `LastWriter.OneDayAgrees` | src/crates/smalog-sbfspot-migrator/src/orchestrate.rs:229-234 | Sessions of one day, their verification included, always agree. |
| `Sessions.AloneVerifies` | src/crates/smalog-sbfspot-migrator/src/verify.rs:366-500 | The checks of a copied target pass if and only if no row was skipped and its tables agree with those of the second migration; they agree whenever the days do. |
| `Sessions.OneDisagreementFails` | src/crates/smalog-sbfspot-migrator/src/verify.rs:126-145 | A session whose days disagree on exactly one stored date never passes its table checks, whichever way they disagree. |
| `Sessions.LaterDayFailsChecks` | src/crates/smalog-sbfspot-migrator/src/orchestrate.rs:1281-1317 | The failing case: the only MonthData row was committed on its own local date; the tables of a session of a later day never pass. |
| `Sessions.MidnightFailsChecks` | src/crates/smalog-sbfspot-migrator/src/verify.rs:377-383 | The other failing case: one session stores today's yield and its second migration starts after midnight. |
| `Sessions.ResumeOnALaterDay` | src/crates/smalog-sbfspot-migrator/src/orchestrate.rs:209-364 | The failing resume as a run: whatever befalls the session of the later day, it does not succeed, and it leaves the row committed as before, so no later one succeeds either. |
| `ForeignResume.SameEffectExactlyWhen` | src/crates/smalog-sbfspot-migrator/src/orchestrate.rs:1145-1317 | Two sessions' options and days do the same with a row, whatever the tables, if and only if a MonthData row has the same local date under both, over for both or for neither, and a PVOutput flag is exported by both or by neither. |
| `ForeignResume.HarmlessResumeKeepsTables` | src/crates/smalog-sbfspot-migrator/src/orchestrate.rs:2776-2808 | Where this holds of the rows that sessions with other options committed, the run stands exactly where one under its own options would stand: with the same tables as long as a category is left, and after the last one with the same tables but for the daily yields. |
| `ForeignResume.StoredDatesAt` | src/crates/smalog-sbfspot-migrator/src/orchestrate.rs:1281-1317 | The yields stored so far carry the dates of the MonthData rows, each in the timezone of the session that committed it. |
| `ForeignResume.ForeignTablesExactlyWhen` | src/crates/smalog-sbfspot-migrator/src/orchestrate.rs:2776-2808 | As long as a category is left, the tables of a run that sessions with other options went on with are those of its own options if and only if for every date the last committed MonthData row stored under it, and for every sample the last committed DayData row exported under it, is there in both migrations and stores the same. After the last category this holds of what was copied; what is committed then are the copied tables of its own options if and only if the exports agree and the yields, those of any rebuild included, are exactly those of its own MonthData rows. |
| `ForeignResume.OwnRebuildExactlyWhen` | src/crates/smalog-sbfspot-migrator/src/orchestrate.rs:1407-1576 | After the last category, from whatever other sessions left: a rebuild under the run's own options ends in the final tables of an undisturbed migration if and only if the exports agree, every yield outside the dates it reconstructs is that of its own last MonthData row, and the dates it reconstructs are over on both days or on neither. |
| `Leftovers.VerdictTablesExactlyWhen` | src/crates/smalog-sbfspot-migrator/src/verify.rs:366-500 | So for every session of every history: the tables it has when it is verified are those it is verified against if and only if this holds of what it found. |
| `Leftovers.LeftoverFails` | src/crates/smalog-sbfspot-migrator/src/verify.rs:414-447 | A yield under a date that the session's own migration does not store makes one row too many, and the table checks fail. |
| `Leftovers.LeftoverNeverCompletes` | src/crates/smalog-sbfspot-migrator/src/orchestrate.rs:209-364 | Nothing removes such a yield: once all categories are complete, no session of that timezone ever succeeds, whatever sessions of any kind come in between. |
| `Leftovers.AwayYield` | src/crates/smalog-sbfspot-migrator/src/orchestrate.rs:1443-1576 | Two readings on one date in the run's timezone and on two dates in another: the rebuild of the other timezone stores a yield, that of the run's own none. |
| `Leftovers.AwaySessionLeavesAYield` | src/crates/smalog-sbfspot-migrator/src/orchestrate.rs:1443-1576 | The failing resume: a session of the other timezone that finds all categories complete copies no row, stores this yield, and is not verified. |
| `Leftovers.LeaveAndReturn` | src/crates/smalog-sbfspot-migrator/src/orchestrate.rs:209-364 | The whole history from a new target: after a session in the run's timezone and this one, no session in the run's timezone succeeds any more. |
| `ForeignResume.ForeignMonthRowExactlyWhen` | src/crates/smalog-sbfspot-migrator/src/orchestrate.rs:2776-2808 | The failing resume: a session in another timezone commits the first MonthData row; the tables are those of the run's own timezone if and only if the row's local date is the same in both, over for both or for neither. |
| `Precedence.MpptsReplayed` | src/crates/smalog-sbfspot-migrator/src/orchestrate.rs:366-621 | The committed MPPT rows are those that the covered SpotData rows, and then the covered SpotDataX rows, leave behind. |
| `Precedence.MpptPrecedence` | src/crates/smalog-sbfspot-migrator/src/orchestrate.rs:756-775 | At every point of every interrupted and resumed run each MPPT column is the value of the last covered SpotDataX row for it, otherwise of the last covered fixed tracker record, otherwise NULL; the row exists exactly when one of these does. |
| `Precedence.FixedRows` | src/crates/smalog-sbfspot-migrator/src/orchestrate.rs:2131-2170 | Fixed tracker records overwrite all three columns and nothing else. |
| `DailyYieldRebuild.DayAccumulator.constructor` | src/crates/smalog-sbfspot-migrator/src/orchestrate.rs:1343-1360 | A new day starts from the previous baseline and its first sample. |
| `DailyYieldRebuild.DayAccumulator.Accept` | src/crates/smalog-sbfspot-migrator/src/orchestrate.rs:1362-1370 | Negative and missing totals are ignored; a total at or above the baseline becomes the day's accepted total. |
| `DailyYieldRebuild.AcceptKeepsAccount` | src/crates/smalog-sbfspot-migrator/src/orchestrate.rs:1362-1370 | After each sample the open day's fields are the declarative baseline, accepted total and last valid total of the samples read. |
| `DailyYieldRebuild.NextPage` | src/crates/smalog-sbfspot-migrator/src/orchestrate.rs:2507-2552 | The bounded page after the cursor is the next slice of the samples, empty only at the end. |
| `DailyYieldRebuild.RebuildDailyYields` | src/crates/smalog-sbfspot-migrator/src/orchestrate.rs:1407-1526 | For every page size the one-pass scan reports exactly the days of every inverter's span, each with its declarative outcome: baseline = last non-negative total of any earlier local day, total = last in-day total at or above it, yield = difference. |
| `DailyYieldRebuild.FinishDay` | src/crates/smalog-sbfspot-migrator/src/orchestrate.rs:1528-1576 | A finished day is copied, missing a baseline, missing an accepted total, or reconstructed. |
| `DailyYieldRebuild.OutcomeMeans` | src/crates/smalog-sbfspot-migrator/src/orchestrate.rs:1407-1576 | What the report says of a day follows from its samples: missing without samples, without an earlier non-negative total, or without a total at or above that one; otherwise the day's last such total and the difference to the baseline. |
| `DailyYieldRebuild.RebuiltYieldIsNonNegative` | src/crates/smalog-sbfspot-migrator/src/orchestrate.rs:1528-1576 | A reconstructed yield is never negative and never above its total. |
| `DailyYieldRebuild.ListCopied` | src/crates/smalog-sbfspot-migrator/src/orchestrate.rs:1499-1513 | The report's copied list holds every copied date once, by serial and date, with its stored yield; building it fails exactly when one is not stored. |
| `DailyYieldRebuild.EveryDayReportedOnce` | src/crates/smalog-sbfspot-migrator/src/orchestrate.rs:1429-1513 | Every local day from an inverter's first to its last sampled day, gap days included and across a change of inverter, is reported exactly once in the copied, reconstructed and missing lists; any other day only when it was copied, and then once. |
| `RebuiltYields.ScanEnergy` | src/crates/smalog-sbfspot-migrator/src/orchestrate.rs:2507-2552 | The ordered join returns each sample once, by inverter and time. |
| `RebuiltYields.ScanIsUnique` | src/crates/smalog-sbfspot-migrator/src/orchestrate.rs:2507-2552 | There is only one such order, so the rebuild depends on the table alone. |
| `RebuiltYields.CopiedYields` | src/crates/smalog-sbfspot-migrator/src/orchestrate.rs:1281-1317 | Once all categories are complete the copied yields are exactly those of the MonthData dates, each in the timezone its row was migrated with. |
| `RebuiltYields.ReportGivesYields` | src/crates/smalog-sbfspot-migrator/src/orchestrate.rs:1407-1526 | The reported reconstructed entries are exactly the yields that the samples and the copied dates determine. |
| `DailyYields.LatestAt` | src/crates/smalog-storage/src/storage.rs:305-360 | The window query finds the latest instant with a total, and none only if there is none. |
| `DailyYields.FullYieldMeans` | src/crates/smalog-storage/src/storage.rs:312-375 | A day has a yield exactly when a total was measured on it and one before it: its last total, and the difference to the last one before. |
| `DailyYields.EnergyStore.RecomputeDailyYield` | src/crates/smalog-storage/src/storage.rs:305-405 | The stored yield of the day becomes its full yield, flagged complete exactly when the day is over, and the report is rebuilt, incomplete or missing accordingly; an overflowing difference changes nothing. |
| `DailyYields.EnergyStore.WriteEnergySamples` | src/crates/smalog-storage/src/storage.rs:628-676 | The samples are stored, and every affected day, yesterday included, has its full yield flagged complete exactly when it is over; so a write after midnight completes yesterday. |
| `DailyYields.AffectedDays` | src/crates/smalog-storage/src/storage.rs:1341-1370 | Affected are the days of the readings, the day after each, and the day before the current one, and no others. |
| `DailyYields.FlaggedExactlyWhen` | src/crates/smalog-storage/src/storage.rs:1341-1370 | After a write a day's flag tells whether the day is over exactly when the write affected the day or the flag told so before. |
| `DailyYields.MissedDayStaysIncomplete` | src/crates/smalog-storage/src/storage.rs:1341-1370 | A day last written before its end, with the next write two days later, stays incomplete. |
| `DailyYields.EnergyStore.RebuildDailyYields` | src/crates/smalog-storage/src/storage.rs:975-1000 | The rebuild command makes every day of its range coherent and correctly flagged and reports each, until one overflows; days outside stay as they were. |
| `DailyYields.EnergyStore.RecomputeAffected` | src/crates/smalog-storage/src/storage.rs:1341-1370 | Every affected day ends up coherent, unless one of them overflows. |
| `DailyYields.FullYieldKeptExactlyWhen` | src/crates/smalog-storage/src/storage.rs:1341-1370 | The full yield of a day that is not recomputed stays the same if and only if the write is safe for that day. |
| `DailyYields.CoherenceKeptExactlyWhen` | src/crates/smalog-storage/src/storage.rs:1341-1370 | A coherent day stays coherent under a write if and only if it is recomputed, holds no total, or keeps its baseline, which is decidable from the stored samples and the batch. |
| `DailyYields.NoGapIsSafe` | src/crates/smalog-storage/src/storage.rs:1341-1370 | Writes whose days are each followed directly by a day with a total, or by no later total, are safe for every day. |
| `DailyYields.BackfillBeforeEmptyDayGoesStale` | src/crates/smalog-storage/src/storage.rs:1341-1370 | A concrete back-fill before an empty day that leaves the next sampled day with its old baseline. |
| `YieldAgreement.AgreeExactlyWhen` | src/crates/smalog-storage/src/storage.rs:305-405 | On a day that was not copied the live recomputation and the migrator's accumulator agree if and only if live storage finds no yield or the last earlier total is non-negative and not above the day's last total. |
| `YieldAgreement.FallingTotalDisagrees` | src/crates/smalog-sbfspot-migrator/src/orchestrate.rs:1343-1371 | Any two samples of successive days whose second total is below the first, or whose first is negative: live storage keeps the difference, the migrator reports the day missing. |
| `YieldAgreement.CountersAgree` | src/crates/smalog-sbfspot-migrator/src/orchestrate.rs:1343-1371 | For non-negative, non-decreasing counters both algorithms give the same total, daily energy and missing days. |
| `PowerSamples.GroupPowerSamples` | src/crates/smalog-storage/src/storage.rs:1660-1697 | Grouping the measurement/tracker join gives one sample per measurement in time order, with the phases and trackers that have a value summed. |
| `PowerSamples.SampleSums` | src/crates/smalog-storage/src/storage.rs:1660-1697 | A sample's AC power is the sum of the phases with a value and its DC power that of the trackers, each absent exactly when none has one. |
| `PowerSamples.GroupingUndoesJoin` | src/crates/smalog-storage/src/storage.rs:1660-1697 | Folding the joined rows by measurement id restores every measurement's sample, also those without trackers. |
| `DailyStatistics.WeightedMean` | src/crates/smalog-storage/src/storage.rs:1793-1818 | The loop computes the time-weighted mean over the accepted intervals. |
| `DailyStatistics.RoundIsNearest` | src/crates/smalog-storage/src/storage.rs:1793-1818 | The mean is rounded to a nearest integer, at a half to the one farther from zero. |
| `DailyStatistics.MeanWithinPowers` | src/crates/smalog-storage/src/storage.rs:1793-1818 | A mean lies between any bounds on the sampled powers. |
| `DailyStatistics.PeaksAreGreatest` | src/crates/smalog-storage/src/storage.rs:1729-1736 | Each peak of a row is attained by a power of its own channel and exceeded by none, and absent exactly when no sample has one. |
| `DailyStatistics.MeansCount` | src/crates/smalog-storage/src/storage.rs:1737-1744 | Each mean lies within the powers of its own channel that stand for at most two polls, and is absent exactly when none does. |
| `MeanOverTime.CalculatedMeans` | src/crates/smalog-storage/src/storage.rs:1793-1818 | Each mean is the average, over the seconds of the day, of the power of its own channel standing at each second, rounded to the nearest integer. |
| `DailyStatistics.RowCounts` | src/crates/smalog-storage/src/storage.rs:1745-1770 | The count, the least and greatest instant, and the expected count, the day's duration in polls rounded up. |
| `DailyStatistics.CompleteExactlyWhen` | src/crates/smalog-storage/src/storage.rs:1747-1760 | A row is complete if and only if the day is over, enough samples were taken, all within the day, one in its first and one in its last poll, and each but the last has a successor within two polls. |
| `DailyStatistics.CalculatesExactlyWhen` | src/crates/smalog-storage/src/storage.rs:1700-1787 | A calculation succeeds exactly when the poll interval is positive and the counts, peaks and means fit their columns. |
| `DailyStatistics.ExpectedCountIsCeiling` | src/crates/smalog-storage/src/storage.rs:1775-1791 | The expected count is the day's duration in polls, rounded up. |
| `DailyStatistics.IntervalsTelescope` | src/crates/smalog-storage/src/storage.rs:1793-1818 | Without gaps all intervals are accepted and their lengths add up to the end of the day minus the first sample. |
| `DailyStatistics.CompleteDayIsCovered` | src/crates/smalog-storage/src/storage.rs:1700-1773 | A day flagged complete is covered: no instant after the first sample is more than two polls past a sample, the accepted duration is at least the day minus one poll, and the mean lies between the powers. |
| `DailyStatistics.UnchangedExactlyWhen` | src/crates/smalog-storage/src/storage.rs:1039-1116 | For any change of the measurements: the day and its expected count are unchanged if and only if the cached row is not stale and no stored measurement of the day was changed or deleted; with the same instants and the same expected count it is never stale, whatever the values. |
| `DailyStatistics.StaleExactlyWhen` | src/crates/smalog-storage/src/storage.rs:1039-1116 | A cached row is stale exactly when the day has another number of samples or another last one than at its calculation, or another number of polls is expected. |
| `DailyStatistics.FreshUnlessStale` | src/crates/smalog-storage/src/storage.rs:1039-1116 | A cached row not reported stale, of a day nothing of which was changed or deleted, equals a fresh calculation except for its clock-dependent fields, and completeness only ever turns on. |
| `DailyStatistics.UpdatedMeasurementIsNotNoticed` | src/crates/smalog-storage/src/storage.rs:1039-1116 | A concrete day: its statistics are calculated and cached, its only measurement is updated, a fresh calculation gives another mean, and the cached row is not stale. |
| `DailyStatistics.PollChangeMattersExactlyWhen` | src/crates/smalog-storage/src/storage.rs:1039-1116 | Another poll interval with the same expected count never makes a cached row stale; a fresh calculation under it differs if and only if a mean or the completeness does. |
| `DailyStatistics.AlikeMeans` | src/crates/smalog-storage/src/storage.rs:1793-1818 | The means are the same when no interval between samples is short enough for one of the poll intervals only. |
| `DailyStatistics.PollChangeIsNotNoticed` | src/crates/smalog-storage/src/storage.rs:1039-1116 | A concrete day: 288 polls of 300 s and of 301 s, and a mean that only the latter has. |
| `Checksum.DecodeUndoesEncode` | src/crates/smalog-sbfspot-migrator/src/verify.rs:839-849 | The byte stream of a table is uniquely decodable into its rows. |
| `Checksum.StepIsBijective` | src/crates/smalog-sbfspot-migrator/src/verify.rs:857-862 | Each FNV-1a step can be undone from the byte alone. |
| `Checksum.FnvIsInjective` | src/crates/smalog-sbfspot-migrator/src/verify.rs:857-862 | Different states stay different under every common suffix. |
| `Checksum.OneByteChangesChecksum` | src/crates/smalog-sbfspot-migrator/src/verify.rs:857-862 | Two streams of equal length that differ in exactly one byte always have different checksums. |
| `Checksum.OneTextByteIsDetected` | src/crates/smalog-sbfspot-migrator/src/verify.rs:824-862 | Changing one byte of one text anywhere in a table changes the table's checksum. |
| `Checksum.HashOfOneLetter` | src/crates/smalog-sbfspot-migrator/src/verify.rs:857-862 | The hash of one letter is the published 64-bit value. |
| `TableCheck.SamplePositionsSpread` | src/crates/smalog-sbfspot-migrator/src/verify.rs:742-749 | The sampled rows exist, are distinct and ascending, include the first, the middle and the last row, and number min(rows, 3). |
| `TableCheck.Hasher.HashBytes` | src/crates/smalog-sbfspot-migrator/src/verify.rs:857-862 | The in-place hash state after the loop is the hash of the bytes from the old state. |
| `TableCheck.Hasher.HashRow` | src/crates/smalog-sbfspot-migrator/src/verify.rs:839-849 | Hashing a row value by value is hashing the row's tagged, length-prefixed, terminated stream. |
| `TableCheck.SummarizeTable` | src/crates/smalog-sbfspot-migrator/src/verify.rs:751-837 | One pass yields the row count, the checksum of the table's whole stream and the sampled rows. |
| `TableCheck.CheckTable` | src/crates/smalog-sbfspot-migrator/src/verify.rs:414-436 | A table passes exactly when row counts and stream checksums agree; there is one sample per position, and it passes exactly when the row is there with the same row checksum. |
| `TableCheck.TakeSample` | src/crates/smalog-sbfspot-migrator/src/verify.rs:864-893 | One sample compares the checksums of the expected and the actual row. |
| `TableCheck.ChangedByteFails` | src/crates/smalog-sbfspot-migrator/src/verify.rs:414-436 | One changed byte of one text fails the check of the table and the sample of that row. |
| `TableCheck.DifferentTablesDifferentStreams` | src/crates/smalog-sbfspot-migrator/src/verify.rs:839-849 | Two tables have equal streams if and only if they are equal. |
| `FcsTable.UpperEntry` | src/crates/smalog-connection/src/bluetooth/frame.rs:23-40 | The upper half of the literal table is the lower half with the polynomial mixed in. |
| `FcsTable.LowerEntry` | src/crates/smalog-connection/src/bluetooth/frame.rs:23-40 | Each entry of the lower half is one round from the entry of twice its index. |
| `Fcs.TableIsRounds` | src/crates/smalog-connection/src/bluetooth/frame.rs:23-40 | Each of the 256 literal entries is eight rounds of the polynomial 0x8408 over its index, as RFC 1662, appendix C.2 defines them. |
| `Fcs.StepIsBitSerial` | src/crates/smalog-connection/src/bluetooth/frame.rs:102-104 | The table-driven FCS update equals eight rounds of the bit-serial definition. |
| `Fcs.RunInjectiveInState` | src/crates/smalog-connection/src/bluetooth/frame.rs:174-180 | Different FCS states stay different under every common suffix. |
| `Fcs.FieldChangesCheck` | src/crates/smalog-connection/src/bluetooth/frame.rs:174-180 | Messages that differ only in one 16-bit field never share a check sequence. |
| `Fcs.ByteChangesCheck` | src/crates/smalog-connection/src/bluetooth/frame.rs:172-180 | Nor do messages that differ only in one byte share a check sequence. |
| `Fcs.CheckOfDigits` | src/crates/smalog-connection/src/bluetooth/frame.rs:172-180 | The check of the digits 1 to 9 is the published value 0x906E. |
| `Framing.UnescapeBytes` | src/crates/smalog-connection/src/bluetooth/frame.rs:157-170 | The loop computes the recursive de-escaping. |
| `Framing.UnescapeUndoesEscape` | src/crates/smalog-connection/src/bluetooth/frame.rs:102-110 | De-escaping undoes the writer's escaping of every byte sequence, whatever follows it. |
| `Framing.EscapeHasNoFlag` | src/crates/smalog-connection/src/bluetooth/frame.rs:101-111 | A stuffed payload holds neither the flag nor a flow control byte. |
| `Framing.PacketRoundTrip` | src/crates/smalog-connection/src/bluetooth/frame.rs:135-170 | De-escaping a whole packet restores it if and only if neither unescaped check byte is the escape byte. |
| `Framing.PlainPacketValidates` | src/crates/smalog-connection/src/bluetooth.rs:1067-1075 | The receiver's check accepts what the writer's rolling check produced. |
| `Framing.ChangedByteIsRefused` | src/crates/smalog-connection/src/bluetooth.rs:1067-1077 | It refuses every packet in which one byte of the body differs from the one that was checked. |
| `Framing.FrameWriter.Byte` | src/crates/smalog-connection/src/bluetooth/frame.rs:102-110 | One byte is escaped when it must be and enters the rolling FCS unescaped. |
| `Framing.FrameWriter.Array` | src/crates/smalog-connection/src/bluetooth/frame.rs:127-131 | Appends the escaped bytes and runs the FCS over them. |
| `Framing.FrameWriter.L2Header` | src/crates/smalog-connection/src/bluetooth/frame.rs:76-99 | The L2 header after an unescaped flag, field by field. |
| `Framing.FrameWriter.Trailer` | src/crates/smalog-connection/src/bluetooth/frame.rs:135-140 | The check sequence and the closing flag, unescaped. |
| `Framing.FrameWriter.Finish` | src/crates/smalog-connection/src/bluetooth/frame.rs:144-152 | The finished frame announces its own length modulo 65536, little-endian, in bytes 1 and 2; byte 3 is the exclusive or of the three before it; length, first byte and everything behind the header are as written. |
| `PacketIds.NextId` | src/crates/smalog-connection/src/bluetooth.rs:152-158 | Packet ids have fifteen bits and are never zero. |
| `PacketIds.IdsRepeatOnlyAfterAllWereUsed` | src/crates/smalog-connection/src/bluetooth.rs:152-158 | An id comes back after exactly 32767 further requests and not before. |
| `PacketIds.AttemptsDiffer` | src/crates/smalog-connection/src/bluetooth.rs:290-312 | Two attempts with different ids never have the same check sequence. |
| `PacketIds.FewAttemptsFail` | src/crates/smalog-connection/src/bluetooth.rs:290-312 | At most 1024 attempts in a row can fail the check-byte test, so the unbounded re-roll loop ends for every request. |
| `PacketIds.SuccessiveIdsDiffer` | src/crates/smalog-connection/src/bluetooth.rs:636-727 | The ids of three successive attempts, re-rolls included, all differ. |
| `Reassembly.CutPacketIsDelivered` | src/crates/smalog-connection/src/bluetooth.rs:176-255 | Whatever way an escaped packet is cut into L1 frames (first piece at least 5 bytes, empty continuations and cuts inside escape pairs allowed), and whatever an unfinished packet left behind, its last frame delivers exactly the packet's bytes. |
| `Reassembly.PacketSurvivesAnyCut` | src/crates/smalog-connection/src/bluetooth.rs:176-255 | A packet as the writer made it, with a clean check sequence, is received as its unescaped body with a valid FCS under every cut; it is returned exactly when the last frame's sender and the last or opening frame's command are the awaited ones. |
| `Reassembly.AwaitedPacketIsReturned` | src/crates/smalog-connection/src/bluetooth.rs:176-261 | Such a packet is returned exactly when any is waited for, or when its last frame is from the sender and its first or last frame carries the awaited command; any other is passed over. |
| `Reassembly.SurvivesExactlyWhenClean` | src/crates/smalog-connection/src/bluetooth.rs:304-311 | A packet survives every cut if and only if its check bytes avoid the flag and the escape byte: the sender's re-roll test is exactly the one needed. |
| `Reassembly.TruncatedPacketLeavesNoByte` | src/crates/smalog-connection/src/bluetooth.rs:207-222 | A packet cut short contributes no byte to the packet that follows it. |
| `Reassembly.TruncatedPacketTimesOut` | src/crates/smalog-connection/src/bluetooth.rs:224-236 | A packet that never closes times out; no partial packet is returned. |
| `Bluetooth.BtClient.ReadFrame` | src/crates/smalog-connection/src/bluetooth.rs:182-195 | Reads one L1 frame as long as its header says; a read that times out in its middle loses what had arrived of it. |
| `Bluetooth.BtClient.GetPacket` | src/crates/smalog-connection/src/bluetooth.rs:176-255 | The loop over the growing buffer returns what the specification of receiving returns and leaves the rest unread. |
| `Bluetooth.BtClient.BuildL2Dest` | src/crates/smalog-connection/src/bluetooth.rs:280-312 | Returns the request frame with the first id whose check sequence is clean. |
| `Bluetooth.BtClient.CollectReply` | src/crates/smalog-connection/src/bluetooth.rs:661-714 | The reply loop skips invalid, short and stale packets and stops at the last fragment, a refusal, an error or silence. |
| `Bluetooth.BtClient.RequestDevice` | src/crates/smalog-connection/src/bluetooth.rs:636-727 | At most three attempts, each with a new id and its own frame; the first that does not meet silence decides. |
| `Bluetooth.ReplyIsJudged` | src/crates/smalog-connection/src/bluetooth.rs:661-714 | What one whole reply, cut in any way, does to the collection of the same or another request. |
| `Bluetooth.LateReplyIsIgnored` | src/crates/smalog-connection/src/bluetooth.rs:683-690 | A reply to an earlier attempt never enters the result of the current one. |
| `Bluetooth.RequestFields` | src/crates/smalog-connection/src/bluetooth/frame.rs:76-99 | The receiver finds longwords, control byte, addressee, application ids, packet id and payload of a written packet at their documented offsets, numbers lowest byte first and the id with its top bit set. |
| `Bluetooth.RequestIsOneFrame` | src/crates/smalog-connection/src/bluetooth/frame.rs:142-152 | A request frame has the length, header check byte, source, command and body that the receiver reads from it. |
| `Bluetooth.RequestIsReceived` | src/crates/smalog-connection/src/bluetooth.rs:176-255 | Written and then received, a request comes back as its plain packet from its sender with a valid check, whatever was in flight before. |
| `Bluetooth.RequestSurvivesEveryCut` | src/crates/smalog-connection/src/bluetooth.rs:280-312 | Every request frame carries a packet that is received as written under every cut. |
| `Bluetooth.NormalizeKeepsContent` | src/crates/smalog-connection/src/bluetooth.rs:1092-1107 | The Ethernet shape has its fixed header and the content's length, and keeps the content at offsets moved by thirteen. |
| `Bluetooth.PacketsAreFromSender` | src/crates/smalog-connection/src/bluetooth.rs:176-261 | Whatever bytes arrive, only packets from the asked address are returned. |
| `Bluetooth.ArchivesAreAddressed` | src/crates/smalog-connection/src/bluetooth.rs:636-668 | Exactly the four archive commands are sent with control byte 0xE0 to the device's own address, all others with 0xA0 to any address. |
| `Bluetooth.FramesBelongToRequest` | src/crates/smalog-connection/src/bluetooth.rs:661-714 | Whatever bytes arrive, every returned frame comes from a packet with a valid FCS, the request's id and no error. |
| `Bluetooth.CrashIsShort` | src/crates/smalog-connection/src/bluetooth.rs:676-700 | Of the reads of a packet that is not dropped only the two bytes of the id at 27 and 28 can go past the end, and they do if and only if it is an L2 packet with a valid FCS of exactly 28 bytes. |
| `Bluetooth.CollectCrashesExactlyWhen` | src/crates/smalog-connection/src/bluetooth.rs:661-714 | Collecting a reply crashes if and only if such a packet arrives before a last fragment, a refusal, an error or silence ends the collection. |
| `Bluetooth.RequestCrashesExactlyWhen` | src/crates/smalog-connection/src/bluetooth.rs:636-727 | A request crashes if and only if one of its attempts does so after all attempts before it met silence. |
| `Bluetooth.ShortReplyCrashes` | src/crates/smalog-connection/src/bluetooth.rs:676-681 | Such a packet: any clean reply with a body of 24 bytes from the awaited sender, cut in any way. |
| `Bluetooth.FramesAreWholeExactlyWhen` | src/crates/smalog-connection/src/bluetooth.rs:697-718 | Frames that are returned are those of the packets taken; they are a whole reply if and only if the last of them has no fragment left, and otherwise the line fell silent. |
| `Bluetooth.PartialReplyIsReturned` | src/crates/smalog-connection/src/bluetooth.rs:697-718 | Any clean reply that announces more fragments, followed by silence, is returned although it is not whole. |
| `TransmissionRing.SettledIsIdeal` | src/crates/smalog-storage/src/diagnostics.rs:316-371 | When a call reports nothing more, the table is exactly the newest `max_rows` rows by key among those inside the window, whatever the order of timestamps. |
| `TransmissionRing.IdealIsBounded` | src/crates/smalog-storage/src/diagnostics.rs:316-371 | That is at most `max(max_rows, 0)` rows, none older than newest minus retention, and no row inside the window is missing unless the cap is reached. |
| `TransmissionRing.IdealExactlyWhen` | src/crates/smalog-storage/src/diagnostics.rs:316-372 | The ideal table holds a row exactly when the row is within the window of the newest and the row cap has room for it and the later ones there. |
| `TransmissionRing.MoreRemovesAChunk` | src/crates/smalog-storage/src/diagnostics.rs:316-371 | A call that reports more removed at least `PRUNE_CHUNK` rows. |
| `TransmissionRing.NewestSurvivesAge` | src/crates/smalog-storage/src/diagnostics.rs:308-345 | Pruning by age never removes a row with the newest timestamp. |
| `TransmissionRing.IdealSurvivesExactlyWhen` | src/crates/smalog-storage/src/diagnostics.rs:316-371 | One call spares every row that the ring is meant to hold if and only if the rows it deletes beyond the cap hold no more rows inside the window than the cap has no room for. |
| `TransmissionRing.SettlesAtIdealExactlyWhen` | src/crates/smalog-storage/src/diagnostics.rs:316-371 | Repeating the call to the end leaves exactly what the ring was meant to hold if and only if in no call the rows deleted beyond the cap reach the first of those rows. |
| `TransmissionRing.EnoughChunksSettle` | src/crates/smalog-storage/src/diagnostics.rs:316-371 | This is so whenever timestamps follow keys, or one chunk removes all rows that are too old. |
| `TransmissionRing.ClockStepLosesTheFreshRow` | src/crates/smalog-storage/src/diagnostics.rs:316-371 | A table where it fails: after a step back of the clock the row cap removes the one fresh row before all old rows are gone. |
| `TransmissionRing.Ring.Prune` | src/crates/smalog-storage/src/diagnostics.rs:316-371 | One call's two chunked deletes, the second by watermark, are the specified ones. |
| `TransmissionRing.Ring.PruneAll` | src/crates/smalog/src/diagnostics.rs:312-315 | Repeating the call terminates, within both bounds, in the table that the repetition of the specified call ends in. |
| `TransmissionRing.Ring.Write` | src/crates/smalog-storage/src/diagnostics.rs:157-206 | Appends the batch with new keys above every key issued. |
| `TransmissionRing.StepEvolves` | src/crates/smalog-storage/src/diagnostics.rs:157-371 | A write or a pruning call keeps the table in key order, adds only new keys and otherwise only removes rows. |
| `TransmissionRing.SessionDescends` | src/crates/smalog-storage/src/diagnostics.rs:209-302 | Pages of a reading session, with any writes and prunings in between, never repeat a row and never go back up, and hold only matching rows. |
| `TransmissionRing.KeptIsReadExactlyWhen` | src/crates/smalog-storage/src/diagnostics.rs:209-302 | A matching row that the ring holds at the first and at the last read of a session is read if and only if the cursor has passed it, and a short page means that it has passed all of them. |
| `TransmissionRing.PageIsNewest` | src/crates/smalog-storage/src/diagnostics.rs:209-303 | A page holds the newest matching rows below the cursor, newest first, and only a full page of 1 to 1000 rows leaves any out. |
| `TransmissionRing.FilterFindsWritten` | src/crates/smalog-storage/src/diagnostics.rs:157-303 | A written row is found by the filters for its own outcome, target and serials. |
| `Paging.PagesDescend` | src/crates/smalog-storage/src/diagnostics.rs:209-302 | Pages read while records are appended and removed in between never repeat a record and never go back up. |
| `Paging.PagesAreComplete` | src/crates/smalog-storage/src/diagnostics.rs:209-302 | A matching record of the first moment that is still there at the last has been read if and only if the cursor has passed it; once a page comes back short, all of them have been read. |
| `Paging.StepsMakeHistory` | src/crates/smalog-storage/src/diagnostics.rs:157-206 | A ring whose every operation only appends new keys and removes rows has evolved so between any two moments. |
| `LogBuffer.RingHoldsNewest` | src/crates/smalog/src/applog.rs:204-246 | After any run the ring is a suffix of the records issued, the newest included, within its cap; the drop count never exceeds the evictions. |
| `LogBuffer.RingIsContiguous` | src/crates/smalog/src/applog.rs:204-246 | Until the cursor saturates the retained cursors are contiguous and end with the newest issued. |
| `LogBuffer.SessionDescends` | src/crates/smalog/src/applog.rs:273-313 | `before` pages interleaved with any pushes and evictions are strictly descending and duplicate-free, whether or not `since` cursors are reset in between. |
| `LogBuffer.KeptIsReadExactlyWhen` | src/crates/smalog/src/applog.rs:273-313 | A matching record held from the first read to the last is read if and only if the pages that honour the first read's `since` take the cursor past it. |
| `LogBuffer.SessionIsCompleteExactlyWhen` | src/crates/smalog/src/applog.rs:273-313 | A session is complete if and only if one of these pages came back short or no such record lies below the cursor when they end: for a `since` ahead of the ring that is when the ring passes it, for any other the end of the session. |
| `LogBuffer.SessionIsComplete` | src/crates/smalog/src/applog.rs:273-313 | A session that gets a short page while `since` is honoured as at the first read has read every such record, whatever was captured and evicted in between. |
| `LogBuffer.OvertakenResetMissesARecord` | src/crates/smalog/src/applog.rs:284-286 | A concrete session with a reset cursor that misses a retained record once the ring has passed the cursor. |
| `LogBuffer.Buffer.Append` | src/crates/smalog/src/applog.rs:204-246 | Appending evicts what is too old and then what exceeds the cap, counting the latter; nothing when capture is off. |
| `LogBuffer.Buffer.EvictOld` | src/crates/smalog/src/applog.rs:223-232 | The first loop drops records from the front while they are too old. |
| `LogBuffer.Buffer.EvictExcess` | src/crates/smalog/src/applog.rs:233-241 | The second keeps the newest within the cap and counts what it drops. |
| `LogBuffer.KeptExactlyWhen` | src/crates/smalog/src/applog.rs:204-246 | A record is kept exactly when the cap has room for it and the later ones, and it or one before it lies in the window. |
| `LogBuffer.DroppedExactly` | src/crates/smalog/src/applog.rs:233-241 | The drop count grows by what the cap evicts beyond the window, and stops at its largest value. |
| `LogBuffer.FilterMeans` | src/crates/smalog/src/applog.rs:273-313 | A filter asks for records after its cursor, at least as severe as its level, of targets with its prefix. |
| `LogBuffer.StatsTell` | src/crates/smalog/src/applog.rs:273-330 | A page says how many of the newest events the ring still holds, when the oldest of them occurred and how many there were; only a cursor ahead of them starts over. |
| `LogBuffer.PageIsNewest` | src/crates/smalog/src/applog.rs:273-313 | A page holds the newest matching records below the cursor, newest first; what it leaves out is older than all of a full page, and a `since` ahead of the ring is ignored. |
| `WriteQueue.NothingIsLostUncounted` | src/crates/smalog/src/diagnostics.rs:108-134 | Over every interleaving of pushes and drains the drained records are an ordered selection of those pushed, the pending ones are the newest, the queue is within capacity, and pushed = drained + pending + dropped. |
| `WriteQueue.NoDropMeansNoLoss` | src/crates/smalog/src/diagnostics.rs:108-134 | Drained followed by pending is everything pushed, in order, if and only if nothing was dropped. |
| `WriteQueue.DropsOnlyWhenFull` | src/crates/smalog/src/diagnostics.rs:104-135 | A push drops a record only when the queue is full, and then the oldest alone; a drain takes at most 500 from the front and drops none. |
| `WriteQueue.Queue.Push` | src/crates/smalog/src/diagnostics.rs:108-124 | Evicts and counts the oldest records while the queue is full, then appends. |
| `WriteQueue.Queue.Drain` | src/crates/smalog/src/diagnostics.rs:127-134 | Takes at most `MAX_BATCH` records from the front. |
| `WriteQueue.DiagnosticsWriter.DrainAll` | src/crates/smalog/src/diagnostics.rs:304-313 | Draining until nothing is left empties the queue, also while records are pushed between the batches, and hands every drained record to the write call. |
| `WriteQueue.DiagnosticsWriter.Serve` | src/crates/smalog/src/diagnostics.rs:275-306 | Whatever is pushed between the steps of the loop and between the batches of the final flush, and whenever the stop comes, on return the queue is empty and every record pushed was handed to the write call in order or counted as dropped. |
| `Collector.QueriesAreJustified` | src/crates/smalog-connection/src/collector.rs:114-235 | In every run a query goes out only if no store is set, no device is addressed or some addressed device is not known to refuse it; it is skipped only if all of them refused it; and the `refused` field is what the log says. |
| `Collector.RefusedQueriesAreRepeatedExactlyWhen` | src/crates/smalog-connection/src/collector.rs:203-281 | Over all cycles of any connection, a query that every addressed device has refused at some time is sent again if and only if some addressed device was not among those whose refusals the session loaded and has not refused it since that load. |
| `Collector.RefusedQueriesAreNotRepeated` | src/crates/smalog-connection/src/collector.rs:203-281 | So a query to devices that were all loaded is never sent again once all of them have refused it, whatever the login does to the device list. |
| `Collector.LateSerialIsAskedAgain` | src/crates/smalog-connection/src/collector.rs:317-337 | The failing connection: a device whose serial is known only after the login of the second session is asked again what it refused in the first. |
| `Collector.SessionsAreClosed` | src/crates/smalog-connection/src/collector.rs:317-337 | In every run each session that began is ended exactly once before the next begins, also when the login failed, and nothing is sent outside a session. |
| `Collector.AddRefusalsMeaning` | src/crates/smalog-connection/src/collector.rs:216-234 | Remembering a reply adds exactly the refusals it lists. |
| `Collector.Poller.RequestRecorded` | src/crates/smalog-connection/src/collector.rs:114-199 | With or without a sink the request, the reply and the remembered refusals are the same; a sink additionally gets one report. |
| `Collector.Poller.RememberRefusals` | src/crates/smalog-connection/src/collector.rs:216-234 | Store and session set take the same refusals. |
| `Collector.Poller.RunScript` | src/crates/smalog-connection/src/collector.rs:577-627 | The queries of a cycle in order, the optional ones only when they apply. |
| `Collector.Poller.PollScript` | src/crates/smalog-connection/src/collector.rs:317-337 | A cycle is begin, load, login, script, end; the end follows whenever the begin succeeded. |
| `Collector.Poller.PollCycle` | src/crates/smalog-connection/src/collector.rs:437-450 | The service's cycle: all spot queries, then the archives that are due, as one such script. |
| `Collector.CycleAsksForWhatIsDue` | src/crates/smalog-connection/src/collector.rs:437-450 | The log of a cycle with any settings holds every query that is due exactly as often as it is due, an optional one at most so often, and none when the session does not begin or the login fails. |
| `Collector.EveryRequestIsReported` | src/crates/smalog-connection/src/collector.rs:114-199 | Every request, sent or skipped, is reported once. |
| `Collector.OutcomeTells` | src/crates/smalog-connection/src/collector.rs:159-199 | A report's outcome says whether there was a reply, whether a device sent a frame, and otherwise whether every device addressed refused. |
| `Collector.PollTwice` | src/crates/smalog-connection/src/collector.rs:89-105 | A recording and a silent collector started alike end alike; the recording is exactly the reports of the log. |

## Left out

- SQL text, the two database engines, pools, locks and schema creation: an upsert is its map update,
  a transaction a working copy, `LIMIT` and `ORDER BY` are sequence slices in key order.
- Surrogate ids: tables are keyed by natural keys; the scan order of inverters is that of a positive
  stand-in for each serial.
- Clock columns (`updated_at`, `calculated_at` of yields, checkpoint timestamps), error texts, report
  JSON, the sorting of the reconstructed and missing lists by serial, and the current and complete
  lists, which select from the copied and reconstructed ones.
- `f64` source conversions: a row that cannot be converted has no payload and fails when migrated.
- A failing `COMMIT` statement, and the count of batches in a checkpoint row.
- Timezones whose local date runs backwards or skips a day: `Monotone` and `ValidZone` exclude them.
- The preflight checks of a session, and the verifier's foreign-key and text-storage checks and the
  hook before verification, whose outcome is one parameter (`engineChecks`). How the verifier renders
  a canonical table as rows of text is a parameter too (`View`).
- The optional table of daily statistics: its presence is not compared with the session's option, its
  own clock is not modelled, and its table check is one of the engine checks.
- `write_daily_yields` as a second writer of the yield table, and the daily statistics rebuild inside
  the migrator, which calls the same calculation.
- Floating-point rounding: the weighted mean is an exact quotient rounded half away from zero.
- `BTreeMap` iteration order of SpotDataX groups: an arbitrary order is used, and the result is proved
  not to depend on it.
- The loops `process_spot_data_x` and `process_categories` share one model with a key codec per
  category; the reconstructed yields are gathered by the scan and stored afterwards one statement at
  a time.
- Real time on the Bluetooth link: a time-out is the end of the bytes that have arrived, and bytes
  arrive when a frame is sent. Login, topology discovery and clock setting are not modelled, nor the
  raw-frame capture.
- The device table of stored transmissions is a set of serials per row; its frame counts are not
  modelled.
- The decoders of the collector are parameters: how replies become inverter state, and when optional
  queries apply. The stop of the event archive at its end is one of these conditions. The probe
  commands, sorting of addressed serials, durations and frame counts of a report are not modelled.
- The wake-up conditions of the diagnostics writer.
- The 64-bit wrap-around of the queue's drop counter, and 64-bit overflow of transmission ids.
- Mutex poisoning, the rendering of log fields, tags, CSV, MQTT, the web interface, configuration
  parsing, the benchmark tool and the command line.
