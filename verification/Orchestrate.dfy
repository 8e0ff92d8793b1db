/**
 Copying a source into one target: batches, categories and the yield rebuild, with errors and
 crashes at any point. The rows before the starting position may have been migrated under other
 options; `mix` says under which, `job` is the running session's own.
 */
module Orchestrate {
  import opened Wrappers
  import opened Keyset
  import opened CheckpointKeys
  import opened Canonical
  import opened SpotDataX
  import opened MigrationRun
  import opened DailyYieldRebuild
  import opened RebuiltYields
  import opened Migrator

  /** What befalls one batch. A crash ends the process; a failing hook is an error the session handles. */
  datatype Fault = NoFault | HookFailsBeforeCommit | HookFailsAfterCommit | CrashBeforeCommit | CrashAfterCommit

  /** How a session ends. */
  datatype Ending = Refused | Failed | Crashed | NotVerified | Succeeded

  predicate IsStop(e: Ending) { e.Failed? || e.Crashed? }

  /** The same run row and the same optional table. */
  predicate SameRun(a: Database, b: Database) { a.run == b.run && a.exportsTable == b.exportsTable }

  function FaultAt(faults: seq<Fault>, n: nat): Fault { if n < |faults| then faults[n] else NoFault }

  // ---------------------------------------------------------------- inverters while a category runs

  lemma {:induction false} EffectsKeepInverters(job: Job, rows: seq<Row>, c: Category, t: Tables)
    requires AllOf(rows, c) && !c.Inverters?
    ensures Effects(job, rows, t).inverters == t.inverters
  {
    if rows != [] {
      EffectsKeepInverters(job, rows[..|rows| - 1], c, t);
      assert CategoryOf(rows[|rows| - 1]) == c;
      RowKeepsInverters(job, rows[|rows| - 1], Effects(job, rows[..|rows| - 1], t));
    }
  }

  /** A batch that can be stored where the category stands consists of committable rows. */
  lemma StoredRowsAreCommittable(job: Job, p: nat, k: nat, rows: seq<Row>)
    requires ValidJob(job) && p < COUNT && k <= |Todo(job, p)| && AllOf(rows, CATEGORIES[p])
    requires CanStore(job, p, rows, TablesAt(job, p, k).inverters.Keys)
    ensures AllCommittable(job, rows, TablesBefore(job, p).inverters.Keys)
  {
    TodoCategory(job, p, k);
    if !CATEGORIES[p].Inverters? {
      EffectsKeepInverters(job, Todo(job, p)[..k], CATEGORIES[p], TablesBefore(job, p));
    }
    hide Effects, Todo, TablesBefore, DecodesX;
    forall i | 0 <= i < |rows|
      ensures Committable(job, rows[i], TablesBefore(job, p).inverters.Keys)
    {
      assert CategoryOf(rows[i]) == CATEGORIES[p];
    }
  }

  /** Rows that succeed one at a time can be stored in any batch. */
  lemma SucceedingRowsCanBeStored(job: Job, p: nat, k: nat, rows: seq<Row>)
    requires ValidJob(job) && p < COUNT && k <= |Todo(job, p)| && AllOf(rows, CATEGORIES[p])
    requires RowsSucceed(job, rows, TablesBefore(job, p).inverters.Keys)
    ensures CanStore(job, p, rows, TablesAt(job, p, k).inverters.Keys)
  {
    TodoCategory(job, p, k);
    if CATEGORIES[p].Inverters? {
      forall i | 0 <= i < |rows|
        ensures RowOk(job, rows[i], TablesAt(job, p, k).inverters.Keys)
      {
        assert CategoryOf(rows[i]) == CATEGORIES[p];
      }
    } else {
      EffectsKeepInverters(job, Todo(job, p)[..k], CATEGORIES[p], TablesBefore(job, p));
    }
    if CATEGORIES[p].SpotDataX? {
      assert AllX(rows) by {
        forall i | 0 <= i < |rows| ensures rows[i].SpotXRow? { assert CategoryOf(rows[i]) == CATEGORIES[p]; }
      }
      RowsSucceedExactlyWhen(job, rows, TablesAt(job, p, k).inverters.Keys);
    }
  }

  /** Every row of the source succeeds on its own. */
  ghost predicate EveryRowSucceeds(job: Job)
    requires |job.rows| == COUNT
  {
    forall p: nat | p < COUNT :: RowsSucceed(job, Todo(job, p), TablesBefore(job, p).inverters.Keys)
  }

  // ---------------------------------------------------------------- one batch

  datatype BatchResult = NoRows | Stopped(ending: Ending) | Moved(through: Key)

  /** The rows of the next batch: as many as asked for, or what is left of the category. */
  function BatchLength(job: Job, p: nat, k: nat, batchSize: nat): nat
    requires p < |job.rows| == COUNT && k <= |Todo(job, p)|
  {
    if k + batchSize <= |Todo(job, p)| then batchSize else |Todo(job, p)| - k
  }

  /**
   How a batch ends whose rows can or cannot be stored. It is committed or left out as a whole, and
   an error after the commit leaves it committed.
   */
  predicate BatchEnds(canStore: bool, fault: Fault, result: BatchResult, committed: bool) {
    if !canStore then result == Stopped(Failed) && !committed
    else
      match fault
      case NoFault => result.Moved? && committed
      case HookFailsBeforeCommit => result == Stopped(Failed) && !committed
      case HookFailsAfterCommit => result == Stopped(Failed) && committed
      case CrashBeforeCommit => result == Stopped(Crashed) && !committed
      case CrashAfterCommit => result == Stopped(Crashed) && committed
  }

  /** The page a cursor yields is the slice of the category's rows that comes next. */
  lemma PageIsSlice(job: Job, p: nat, k: nat, batchSize: nat)
    requires ValidJob(job) && p < COUNT && k <= |Todo(job, p)| && batchSize > 0
    ensures var after := CursorKey(job, p, k);
            var page := Page(job.rows[p], KeyOf, after, batchSize);
            && k + |page| <= |Todo(job, p)| && page == NextRows(job, p, k, |page|)
            && AllOf(page, CATEGORIES[p])
            && |page| == BatchLength(job, p, k, batchSize) && (page == [] <==> k == |Todo(job, p)|)
            && (page != [] ==> && KeyOf(page[|page| - 1]) == CursorKey(job, p, k + |page|)
                               && Range(job.rows[p], KeyOf, after, KeyOf(page[|page| - 1])) == page)
  {
    CategoryAscends(job, p);
    TodoCategory(job, p, k);
    hide ValidRows, Keyset.Page, Keyset.Range, KeyOf, Cursor, Skip, CursorKey;
    var rows, from, after := job.rows[p], Skipped(job, p), CursorKey(job, p, k);
    CursorAfter(job, p, k);
    PageAtCursor(rows, KeyOf, after, batchSize, from + k);
    var page := Page(rows, KeyOf, after, batchSize);
    var n := |page|;
    SliceOfSuffix(rows, from, k, n);
    assert page == NextRows(job, p, k, n);
    SuffixLength(rows, from, k);
    SliceCategory(Todo(job, p), k, n, CATEGORIES[p]);
    if page != [] {
      hide Todo;
      RangeRereadsPage(rows, KeyOf, after, batchSize, from + k);
      LastKeyIsCursor(job, p, k, n);
    }
  }

  lemma SuffixLength(rows: seq<Row>, from: nat, k: nat)
    requires from + k <= |rows|
    ensures |rows[from..]| == |rows| - from
  {}

  lemma SliceCategory(rows: seq<Row>, k: nat, n: nat, c: Category)
    requires k + n <= |rows| && AllOf(rows, c)
    ensures AllOf(rows[k..k + n], c)
  {}

  lemma LastKeyIsCursor(job: Job, p: nat, k: nat, n: nat)
    requires p < |job.rows| == COUNT && 0 < n && k + n <= |Todo(job, p)|
    ensures KeyOf(NextRows(job, p, k, n)[n - 1]) == CursorKey(job, p, k + n)
  {
    hide Todo;
  }

  lemma CategoryAscends(job: Job, p: nat)
    requires ValidJob(job) && p < COUNT
    ensures |job.rows| == COUNT && Ascending(job.rows[p], KeyOf)
  {}

  lemma SliceOfSuffix(rows: seq<Row>, from: nat, k: nat, n: nat)
    requires from + k + n <= |rows|
    ensures rows[from + k..from + k + n] == rows[from..][k..k + n]
  {}

  lemma SucceedingSlice(job: Job, db: Database, p: nat, k: nat, n: nat)
    requires ValidJob(job) && p < COUNT && At(job, db, p, k) && k + n <= |Todo(job, p)|
    requires EveryRowSucceeds(job)
    ensures var batch := NextRows(job, p, k, n);
            AllOf(batch, CATEGORIES[p]) && CanStore(job, p, batch, db.tables.inverters.Keys)
  {
    TodoCategory(job, p, k);
    AtPosition(job, db, p, k);
    hide At;
    assert RowsSucceed(job, Todo(job, p), TablesBefore(job, p).inverters.Keys);
    SucceedingRowsCanBeStored(job, p, k, NextRows(job, p, k, n));
  }

  /** A batch that could be stored, committed with its checkpoint advance, moves the run by that batch. */
  lemma BatchMovesRun(job: Job, db: Database, p: nat, k: nat, n: nat, db': Database)
    requires ValidJob(job) && p < COUNT && At(job, db, p, k) && 0 < n && k + n <= |Todo(job, p)|
    requires AllOf(NextRows(job, p, k, n), CATEGORIES[p])
    requires CanStore(job, p, NextRows(job, p, k, n), db.tables.inverters.Keys)
    requires BatchStep(job, db, p, k, n, db')
    ensures At(job, db', p, k + n)
  {
    AtPosition(job, db, p, k);
    hide *;
    StoredRowsAreCommittable(job, p, k, NextRows(job, p, k, n));
    AdvanceAt(job, db, p, k, n, db');
  }

  /** Rows migrated under the same options have the same effects and can be stored alike. */
  lemma SameBatch(mix: Job, job: Job, p: nat, rows: seq<Row>, t: Tables)
    requires p < COUNT && SameOptions(mix, job, rows) && AllOf(rows, CATEGORIES[p])
    ensures Effects(mix, rows, t) == Effects(job, rows, t)
    ensures CanStore(mix, p, rows, t.inverters.Keys) == CanStore(job, p, rows, t.inverters.Keys)
  {
    SameOptionsSameEffects(mix, job, rows, t);
    hide Effects, RowOk;
    forall i | 0 <= i < |rows|
      ensures RowOk(mix, rows[i], t.inverters.Keys) == RowOk(job, rows[i], t.inverters.Keys)
    {
      SameOptionsSameRows(mix, job, rows[i], t.inverters.Keys);
    }
  }

  /** The writes of one batch and its checkpoint advance, still uncommitted. */
  method WriteBatch(target: WritableTarget, ghost mix: Job, job: Job, p: nat, ghost k: nat, batch: seq<Row>, through: Key)
    returns (ok: bool)
    requires target.Idle() && ValidJob(mix) && p < COUNT && At(mix, target.committed, p, k)
    requires |job.rows| == COUNT && Position(mix, p, k) && AgreeFrom(mix, job, p, k)
    requires 0 < |batch| && k + |batch| <= |Todo(mix, p)| && batch == NextRows(mix, p, k, |batch|)
    requires AllOf(batch, CATEGORIES[p]) && through == CursorKey(mix, p, k + |batch|)
    modifies target
    ensures target.committed == old(target.committed)
    ensures ok ==> SameRun(target.working, target.committed) && At(mix, target.working, p, k + |batch|)
    ensures ok <==> CanStore(job, p, batch, old(target.committed).tables.inverters.Keys)
    ensures EveryRowSucceeds(mix) ==> ok
  {
    hide At, EveryRowSucceeds, CanStore, Effects, NextRows, CursorKey, AllOf, Todo, AgreeFrom, SameOptions;
    ghost var before := target.committed;
    if EveryRowSucceeds(mix) { SucceedingSlice(mix, before, p, k, |batch|); }
    AgreeOnBatch(mix, job, p, k, |batch|);
    SameBatch(mix, job, p, batch, before.tables);
    target.Begin();
    ok := target.MigrateBatch(job, p, batch);
    if !ok { return; }
    ghost var written := target.working;
    target.AdvanceCheckpoint(CATEGORIES[p], through, |batch|);
    assert Advanced(written, CATEGORIES[p], through, |batch|) == Advanced(before, CATEGORIES[p], through, |batch|);
    assert BatchStep(mix, before, p, k, |batch|, target.working);
    BatchMovesRun(mix, before, p, k, |batch|, target.working);
  }

  /**
   One batch: a keyset page, its re-read, its writes and its checkpoint advance in one
   transaction, and the fault that befalls it. Whatever happens, the committed state is a
   position of the run.
   */
  method RunBatch(target: WritableTarget, ghost mix: Job, job: Job, p: nat, ghost k: nat, after: Key, batchSize: nat,
                  fault: Fault)
    returns (result: BatchResult, ghost k': nat)
    requires target.Idle() && ValidJob(mix) && p < COUNT && batchSize > 0 && |job.rows| == COUNT
    requires Position(mix, p, k) && At(mix, target.committed, p, k) && after == CursorKey(mix, p, k)
    requires AgreeFrom(mix, job, p, k)
    modifies target
    ensures At(mix, target.committed, p, k') && k <= k' && SameRun(target.committed, old(target.committed))
    ensures !(result.Stopped? && result.ending.Crashed?) ==> target.Idle()
    ensures result.NoRows? ==> k' == k == |Todo(mix, p)|
    ensures result.Moved? ==> k < k' <= |Todo(mix, p)| && result.through == CursorKey(mix, p, k')
    ensures result.Stopped? ==> IsStop(result.ending)
    ensures fault.NoFault? && EveryRowSucceeds(mix) ==> !result.Stopped?
    ensures k' == k ==> target.committed == old(target.committed)
    ensures k < |Todo(mix, p)| ==>
              var n := BatchLength(mix, p, k, batchSize);
              && AllOf(NextRows(mix, p, k, n), CATEGORIES[p]) && (k' == k || k' == k + n)
              && BatchEnds(CanStore(job, p, NextRows(mix, p, k, n), old(target.committed).tables.inverters.Keys), fault, result,
                           k' == k + n)
  {
    hide At, EveryRowSucceeds, Todo, CursorKey, NextRows, KeyOf, Keyset.Page, Keyset.Range, AllOf, SameOptions, BatchLength,
         CanStore;
    k' := k;
    PageIsSlice(mix, p, k, batchSize);
    assert job.rows[p] == mix.rows[p];
    var page := Page(job.rows[p], KeyOf, after, batchSize);
    if page == [] { return NoRows, k; }
    var through := KeyOf(page[|page| - 1]);
    var batch := Range(job.rows[p], KeyOf, after, through);
    hide AgreeFrom;
    var ok := WriteBatch(target, mix, job, p, k, batch, through);
    if !ok || fault.HookFailsBeforeCommit? {
      target.Rollback();
      return Stopped(Failed), k;
    }
    if fault.CrashBeforeCommit? { return Stopped(Crashed), k; }
    target.Commit();
    k' := k + |page|;
    result := if fault.HookFailsAfterCommit? then Stopped(Failed)
              else if fault.CrashAfterCommit? then Stopped(Crashed)
              else Moved(through);
  }

  // ---------------------------------------------------------------- one category

  lemma StoredKeyIsCursor(job: Job, db: Database, p: nat, k: nat)
    requires ValidJob(job) && p < COUNT && At(job, db, p, k)
    ensures ParseKey(CATEGORIES[p], LastKeyText(db, CATEGORIES[p])) == Some(CursorKey(job, p, k))
  {
    assert CategoryAt(job, db, p, k, p);
    StoredKeyParses(job, db, p, k, false);
  }

  /**
   All batches of one category from wherever its checkpoint stands. A stored key always parses;
   the rows left above the key decrease with every committed batch.
   */
  method ProcessCategory(target: WritableTarget, ghost mix: Job, job: Job, p: nat, ghost k: nat, batchSize: nat,
                         faults: seq<Fault>, firstBatch: nat)
    returns (ending: Option<Ending>, batches: nat, ghost k': nat)
    requires target.Idle() && ValidJob(mix) && p < COUNT && batchSize > 0 && |job.rows| == COUNT
    requires Position(mix, p, k) && At(mix, target.committed, p, k) && AgreeFrom(mix, job, p, k)
    modifies target
    ensures SameRun(target.committed, old(target.committed))
    ensures ending.None? ==> target.Idle() && k' == 0 && At(mix, target.committed, p + 1, 0)
    ensures ending.None? && p + 1 == COUNT ==> target.committed.tables == TablesBefore(mix, COUNT)
    ensures ending.Some? ==> k <= k' && At(mix, target.committed, p, k') && IsStop(ending.value)
    ensures ending.Some? && ending.value.Failed? ==> target.Idle()
    ensures faults == [] && EveryRowSucceeds(mix) ==> ending.None?
  {
    hide At, EveryRowSucceeds, AgreeFrom, SameOptions;
    k', batches := k, firstBatch;
    StoredKeyIsCursor(mix, target.committed, p, k);
    var last := ParseKey(CATEGORIES[p], LastKeyText(target.committed, CATEGORIES[p]));
    var after := last.value;
    var more := true;
    while more
      invariant target.Idle() && SameRun(target.committed, old(target.committed))
      invariant k <= k' && Position(mix, p, k') && At(mix, target.committed, p, k') && after == CursorKey(mix, p, k')
      invariant AgreeFrom(mix, job, p, k')
      invariant !more ==> k' == |Todo(mix, p)|
      decreases |Todo(mix, p)| - k', more
    {
      var result;
      ghost var from := k';
      result, k' := RunBatch(target, mix, job, p, k', after, batchSize, FaultAt(faults, batches));
      AtPosition(mix, target.committed, p, k');
      AgreeFurther(mix, job, p, from, p, k');
      batches := batches + 1;
      match result
      case Stopped(e) => return Some(e), batches, k';
      case NoRows => more := false;
      case Moved(through) => after := through;
    }
    ghost var before := target.committed;
    target.CompleteCheckpoint(CATEGORIES[p]);
    CompleteAt(mix, before, p, target.committed);
    ending, k' := None, 0;
  }

  /** `process_categories`: every category not yet completed, in order. */
  method ProcessCategories(target: WritableTarget, ghost mix: Job, job: Job, ghost p0: nat, ghost k0: nat, batchSize: nat,
                           faults: seq<Fault>)
    returns (ending: Option<Ending>, ghost p: nat, ghost k: nat)
    requires target.Idle() && ValidJob(mix) && batchSize > 0 && |job.rows| == COUNT
    requires Position(mix, p0, k0) && At(mix, target.committed, p0, k0) && AgreeFrom(mix, job, p0, k0)
    modifies target
    ensures SameRun(target.committed, old(target.committed))
    ensures At(mix, target.committed, p, k) && NotBefore(p0, k0, p, k)
    ensures ending.None? ==> target.Idle() && p == COUNT
    ensures p0 == COUNT ==> ending.None? && target.committed.tables == old(target.committed).tables
    ensures p0 < COUNT && p == COUNT ==> target.committed.tables == TablesBefore(mix, COUNT)
    ensures ending.Some? ==> IsStop(ending.value)
    ensures ending.Some? && ending.value.Failed? ==> target.Idle()
    ensures faults == [] && EveryRowSucceeds(mix) ==> ending.None?
  {
    hide At, EveryRowSucceeds, AgreeFrom, SameOptions;
    p, k := p0, k0;
    var batches := 0;
    for c := 0 to COUNT
      invariant target.Idle() && SameRun(target.committed, old(target.committed))
      invariant At(mix, target.committed, p, k) && NotBefore(p0, k0, p, k)
      invariant if c <= p0 then p == p0 && k == k0 else p == c && k == 0
      invariant p == p0 && k == k0 ==> target.committed.tables == old(target.committed).tables
      invariant p0 == COUNT ==> p == p0 && k == k0
      invariant p0 < COUNT && p == COUNT ==> target.committed.tables == TablesBefore(mix, COUNT)
    {
      AtPosition(mix, target.committed, p, k);
      CoveredAt(mix, target.committed, p, k, c);
      AgreeFurther(mix, job, p0, k0, p, k);
      var completed := CATEGORIES[c] in target.committed.checkpoints && target.committed.checkpoints[CATEGORIES[c]].completed;
      if !completed {
        ending, batches, k := ProcessCategory(target, mix, job, c, k, batchSize, faults, batches);
        if ending.Some? { return; }
        p := c + 1;
      }
    }
    ending := None;
  }

  // ---------------------------------------------------------------- the yield rebuild

  const DEFAULT_BATCH_SIZE: nat := 10_000

  datatype YieldReport = YieldReport(copied: seq<CopiedEntry>, reconstructed: seq<Detail>, missing: seq<MissingDay>)

  /** What the report says of these tables, for the dates copied in the session's timezone. */
  ghost predicate IsReport(report: YieldReport, dateOf: int -> int, copied: set<DayKey>, t: Tables) {
    && ListsCopied(report.copied, copied, t.dailyYields)
    && exists s :: IsScan(t.energy, s)
                   && Reports(s, dateOf, copied, d => InSpan(s, dateOf, d), report.reconstructed, report.missing)
  }

  /** The same options served throughout, and no dates have yields but copied and reconstructed ones. */
  ghost predicate OneZone(mix: Job, o: Options, t: Tables)
    requires |mix.rows| == COUNT
  {
    IsUniform(mix, o) && Rebuilding(mix, o.dateOf, t)
  }

  lemma CopiedInOneZone(mix: Job, o: Options, db: Database)
    requires ValidJob(mix) && At(mix, db, COUNT, 0) && OneZone(mix, o, db.tables)
    ensures TablesBefore(mix, COUNT).dailyYields.Keys == CopiedDates(o.dateOf, Todo(mix, MONTH))
  {
    CopiedYields(mix, db);
    UniformDates(mix, o, Todo(mix, MONTH));
  }

  lemma RebuildInOneZone(mix: Job, o: Options, today: int, before: Tables, after: Tables)
    requires |mix.rows| == COUNT && OneZone(mix, o, before)
    requires StoresSome(before, after,
                        ReconstructedYields(o.dateOf, today, before.energy, TablesBefore(mix, COUNT).dailyYields.Keys))
    ensures OneZone(mix, o, after) && forall d | d in TablesBefore(mix, COUNT).dailyYields :: d in after.dailyYields
    ensures after == Overwrite(before, ReconstructedYields(o.dateOf, today, before.energy,
                                                           TablesBefore(mix, COUNT).dailyYields.Keys)) ==>
              after == FinalTables(mix, o.dateOf, today)
  {
    hide TablesBefore, ReconstructedYields, ReconstructedDates, StoresSome, IsUniform, Overwrite;
    StoringKeepsRebuilding(mix, o.dateOf, today, before, after);
    OverwritingFinishes(mix, o.dateOf, today, before);
  }

  lemma NextEntry(before: Tables, r: seq<Detail>, today: int, i: nat)
    requires i < |r|
    ensures UpsertYields(before, r[..i + 1], today) == UpsertYield(UpsertYields(before, r[..i], today), r[i], today)
  {
    hide UpsertYield;
    assert r[..i + 1][..i] == r[..i];
  }

  /**
   Stores the reconstructed yields one statement at a time, complete when their date was over on
   the day the session started, then reads the copied ones back for the report. A crash may leave
   some yields stored; a copied date that is not stored is an error. Whatever yields are there
   beside, they stay.
   */
  method RebuildYields(target: WritableTarget, ghost mix: Job, job: Job, o: Options, today: int, yieldsBeforeCrash: Option<nat>)
    returns (ending: Option<Ending>, report: YieldReport)
    requires target.Idle() && ValidJob(mix) && Monotone(o.dateOf) && mix.rows == job.rows && |job.rows| == COUNT
    requires At(mix, target.committed, COUNT, 0)
    modifies target
    ensures target.Idle() && target.committed == old(target.committed).(tables := target.committed.tables)
    ensures StoresSome(old(target.committed).tables, target.committed.tables,
                       SessionYields(job, o, today, old(target.committed).tables))
    ensures ending != Some(Crashed) ==>
              target.committed.tables ==
              Overwrite(old(target.committed).tables, SessionYields(job, o, today, old(target.committed).tables))
    ensures ending.Some? ==> IsStop(ending.value) && (yieldsBeforeCrash.None? ==> ending == Some(Failed))
    ensures ending == Some(Failed) ==>
              exists d | d in CopiedDates(o.dateOf, Todo(job, MONTH)) :: d !in target.committed.tables.dailyYields
    ensures ending.None? ==>
              && IsReport(report, o.dateOf, CopiedDates(o.dateOf, Todo(job, MONTH)), target.committed.tables)
              && target.committed.tables == UpsertYields(old(target.committed).tables, report.reconstructed, today)
              && forall d | d in CopiedDates(o.dateOf, Todo(job, MONTH)) :: d in target.committed.tables.dailyYields
    ensures OneZone(mix, o, old(target.committed).tables) ==>
              && OneZone(mix, o, target.committed.tables)
              && (ending.None? ==> target.committed.tables == FinalTables(mix, o.dateOf, today))
              && (yieldsBeforeCrash.None? ==> ending.None?)
  {
    hide At, OneZone, FinalTables, IsScan, Reports, Effects, ValidSamples, CopiedDates, Todo, StoresSome, TablesBefore,
         UpsertYield, UpsertYields, ListsCopied, Lists, Overwrite, ReconstructedYields;
    report := YieldReport([], [], []);
    ghost var before := target.committed.tables;
    SameTodo(mix, job, MONTH);
    var copied := CopiedDates(o.dateOf, Todo(job, MONTH));
    ghost var y := SessionYields(job, o, today, before);
    if OneZone(mix, o, before) { CopiedInOneZone(mix, o, target.committed); }
    var samples := ScanEnergy(target.committed.tables.energy);
    ScanIsValid(target.committed.tables.energy, samples);
    var reconstructed, missing := RebuildDailyYields(samples, o.dateOf, copied, DEFAULT_BATCH_SIZE);
    ReportGivesYields(o.dateOf, today, before.energy, copied, samples, reconstructed, missing);
    NoEntries(before, reconstructed, today);
    for i := 0 to |reconstructed|
      invariant target.Idle() && target.committed == old(target.committed).(tables := target.committed.tables)
      invariant target.committed.tables == UpsertYields(before, reconstructed[..i], today)
    {
      if yieldsBeforeCrash == Some(i) {
        Stored(mix, o, today, before, reconstructed, y, i);
        return Some(Crashed), report;
      }
      NextEntry(before, reconstructed, today, i);
      target.Execute(target.committed.(tables := UpsertYield(target.committed.tables, reconstructed[i], today)));
    }
    assert reconstructed[..|reconstructed|] == reconstructed;
    Stored(mix, o, today, before, reconstructed, y, |reconstructed|);
    ReportOverwrites(before, reconstructed, today, y);
    StoresEnergy(before, target.committed.tables, y);
    var list := ListCopied(copied, target.committed.tables.dailyYields);
    if list.None? { return Some(Failed), report; }
    report := YieldReport(list.value, reconstructed, missing);
    ending := None;
  }

  lemma SameSessionYields(a: Job, b: Job, o: Options, today: int, t: Tables)
    requires a.rows == b.rows && |a.rows| == COUNT
    ensures SessionYields(a, o, today, t) == SessionYields(b, o, today, t)
  {
    SameTodo(a, b, MONTH);
  }

  lemma NoEntries(t: Tables, r: seq<Detail>, today: int)
    ensures UpsertYields(t, r[..0], today) == t
  {}

  lemma Stored(mix: Job, o: Options, today: int, before: Tables, r: seq<Detail>, y: map<DayKey, DailyYield>, i: nat)
    requires |mix.rows| == COUNT && i <= |r| && Lists(r, today, y)
    ensures var after := UpsertYields(before, r[..i], today);
            && StoresSome(before, after, y)
            && (OneZone(mix, o, before)
                && y == ReconstructedYields(o.dateOf, today, before.energy, TablesBefore(mix, COUNT).dailyYields.Keys) ==>
                  && OneZone(mix, o, after)
                  && (forall d | d in TablesBefore(mix, COUNT).dailyYields :: d in after.dailyYields)
                  && (after == Overwrite(before, y) ==> after == FinalTables(mix, o.dateOf, today)))
  {
    hide OneZone, FinalTables, TablesBefore, StoresSome, UpsertYields, Lists, Overwrite, ReconstructedYields;
    EntriesStore(before, r, today, y, i);
    if OneZone(mix, o, before)
       && y == ReconstructedYields(o.dateOf, today, before.energy, TablesBefore(mix, COUNT).dailyYields.Keys) {
      RebuildInOneZone(mix, o, today, before, UpsertYields(before, r[..i], today));
    }
  }

  lemma StoresEnergy(before: Tables, after: Tables, y: map<DayKey, DailyYield>)
    requires StoresSome(before, after, y)
    ensures after.energy == before.energy && SameButYields(after, before)
  {}

  /** Nothing stored beyond the copied yields is one zone so far. */
  lemma CopiedIsOneZone(mix: Job, o: Options)
    requires |mix.rows| == COUNT && IsUniform(mix, o)
    ensures OneZone(mix, o, TablesBefore(mix, COUNT))
  {}

  // ---------------------------------------------------------------- copy and rebuild

  /** The tables that a session's rebuild starts from, on a target found at category `p0`. */
  function CopiedTables(mix: Job, found: Tables, p0: nat): Tables
    requires |mix.rows| == COUNT
  {
    if p0 == COUNT then found else TablesBefore(mix, COUNT)
  }

  /** What a session's rebuild leaves: its reconstructed yields over those it started from, and every date it calls copied. */
  ghost predicate IsRebuilt(mix: Job, o: Options, today: int, before: Tables, after: Tables)
    requires |mix.rows| == COUNT
  {
    && after == Overwrite(before, SessionYields(mix, o, today, before))
    && forall d | d in CopiedDates(o.dateOf, Todo(mix, MONTH)) :: d in after.dailyYields
  }

  /**
   Everything a session does before verification, from any position of a run: all categories,
   then the yield rebuild. `None` means that it got to the end.
   */
  method Copy(target: WritableTarget, ghost mix: Job, job: Job, o: Options, today: int, batchSize: nat,
              faults: seq<Fault>, yieldsBeforeCrash: Option<nat>, ghost p0: nat, ghost k0: nat)
    returns (ending: Option<Ending>, ghost p: nat, ghost k: nat)
    requires target.Idle() && ValidJob(mix) && batchSize > 0 && Monotone(o.dateOf) && |job.rows| == COUNT
    requires Position(mix, p0, k0) && At(mix, target.committed, p0, k0) && AgreeFrom(mix, job, p0, k0)
    modifies target
    ensures At(mix, target.committed, p, k) && NotBefore(p0, k0, p, k)
    ensures SameRun(target.committed, old(target.committed))
    ensures ending.None? ==> target.Idle() && p == COUNT
    ensures ending.Some? ==> IsStop(ending.value)
    ensures ending.Some? && ending.value.Failed? ==> target.Idle()
    ensures ending.None? ==>
              IsRebuilt(mix, o, today, CopiedTables(mix, old(target.committed).tables, p0), target.committed.tables)
    ensures p0 == COUNT ==>
              && StoresSome(old(target.committed).tables, target.committed.tables,
                            SessionYields(mix, o, today, old(target.committed).tables))
              && (yieldsBeforeCrash.None? && ending.Some? ==>
                    exists d | d in CopiedDates(o.dateOf, Todo(mix, MONTH)) :: d !in target.committed.tables.dailyYields)
    ensures IsUniform(mix, o) && (p0 == COUNT ==> OneZone(mix, o, old(target.committed).tables)) ==>
              && (p == COUNT ==> OneZone(mix, o, target.committed.tables))
              && (ending.None? ==> target.committed.tables == FinalTables(mix, o.dateOf, today))
              && (faults == [] && yieldsBeforeCrash.None? && EveryRowSucceeds(mix) ==> ending.None?)
  {
    hide At, EveryRowSucceeds, OneZone, FinalTables, TablesBefore, SameOptions, IsUniform, SameButYields, StoresSome,
         SessionYields, CopiedDates, Overwrite;
    ending, p, k := ProcessCategories(target, mix, job, p0, k0, batchSize, faults);
    AtPosition(mix, target.committed, p, k);
    if IsUniform(mix, o) { CopiedIsOneZone(mix, o); }
    if ending.Some? { return; }
    ghost var copied := target.committed;
    var report;
    ending, report := RebuildYields(target, mix, job, o, today, yieldsBeforeCrash);
    SameTodo(mix, job, MONTH);
    SameSessionYields(mix, job, o, today, copied.tables);
    StoresEnergy(copied.tables, target.committed.tables, SessionYields(mix, o, today, copied.tables));
    AtCount(mix, copied, target.committed);
  }
}
