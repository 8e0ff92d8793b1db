/**
 Migration sessions over one target: opened or refused, copied, verified and completed, with
 errors, crashes and resumes at any point and under any options.
 */
module Sessions {
  import opened Wrappers
  import opened Keyset
  import opened Canonical
  import opened SpotDataX
  import opened MigrationRun
  import opened DailyYieldRebuild
  import opened RebuiltYields
  import opened LastWriter
  import opened Migrator
  import opened Orchestrate
  import opened Verification

  datatype Mode = Execute | Resume

  /**
   One session: its source, options, mode and batch size, the local dates on which it and the
   second migration of its verification start, the faults of its successive batches, after how
   many stored yields its rebuild crashes, how its verifier reads the tables, and whether the
   checks of the database engines pass.
   */
  datatype Session = Session(source: Source, options: Options, mode: Mode, batchSize: nat, today: int, shadowDay: int,
                             faults: seq<Fault>, yieldsBeforeCrash: Option<nat>, view: View, engineChecks: bool)

  function JobFor(s: Session): Job { JobOf(s.source, s.options, s.today) }

  ghost predicate ValidSession(s: Session) { ValidRows(s.source.rows) && Monotone(s.options.dateOf) }

  // ---------------------------------------------------------------- what the committed database is

  /** A run marked completed: all categories, every source row counted, none skipped. */
  ghost predicate IsCompleted(job: Job, db: Database)
    requires |job.rows| == COUNT
  {
    && db.run.Some? && db.run.value.rowsProcessed == SourceTotal(job, COUNT) && db.run.value.categoriesCompleted == COUNT
    && SkippedTotal(job, COUNT) == 0
  }

  /**
   What holds of the committed database whenever a process may stop: it is at a position of a run
   of its source, whose rows were migrated under the options and on the days that `mix` says.
   */
  ghost predicate Consistent(mix: Job, db: Database, p: nat, k: nat) {
    && ValidJob(mix) && At(mix, db, p, k)
    && (db.run.None? ==> db == NO_DATABASE.(exportsTable := db.exportsTable) && p == 0 && k == 0)
    && (db.run.Some? ==> db.run.value.fingerprint == mix.fingerprint)
    && (db.run.Some? && db.run.value.status.Completed? ==> p == COUNT && IsCompleted(mix, db))
  }

  /** Only sessions with these options have touched the target, on whatever days. */
  ghost predicate OnlyUnder(o: Options, mix: Job, db: Database, p: nat)
    requires |mix.rows| == COUNT
  {
    && (db.exportsTable ==> o.legacyPvOutput)
    && (db.run.Some? ==>
          && RunMatches(db, o) && IsUniform(mix, o)
          && (p == COUNT ==> OneZone(mix, o, db.tables))
          && (db.run.value.status.Completed? ==> exists day :: db.tables == FinalTables(mix, o.dateOf, day)))
  }

  // ---------------------------------------------------------------- opening a run

  /** Opening a target creates the optional table first, whether or not the session is then refused. */
  function Initialized(db: Database, s: Session): Database {
    if CreatesExports(s) then db.(exportsTable := true) else db
  }

  predicate CreatesExports(s: Session) { s.batchSize > 0 && s.options.legacyPvOutput }

  /** One of the first `n` sessions asks for the optional table, refused or not. */
  predicate AnyCreatesExports(sessions: seq<Session>, n: nat) {
    exists i | 0 <= i < n && i < |sessions| :: CreatesExports(sessions[i])
  }

  /** `open_run` refuses a second execute, a resume of nothing, and a source with another fingerprint. */
  predicate Opens(db: Database, s: Session) {
    && s.batchSize > 0
    && if db.run.Some? then s.mode.Resume? && db.run.value.fingerprint == s.source.fingerprint else s.mode.Execute?
  }

  /** A new run records fingerprint and timezone; a resumed run only changes its status. */
  function Opened(db: Database, s: Session): Database {
    db.(run := Some(if db.run.Some? then db.run.value.(status := Running)
                    else Run(s.source.fingerprint, s.options.timezone, Running, 0, 0)))
  }

  /** Recording the run's status with its totals. */
  function WithStatus(db: Database, status: RunStatus): Database
    requires db.run.Some?
  {
    db.(run := Some(db.run.value.(status := status, rowsProcessed := TotalRows(db, COUNT),
                                  categoriesCompleted := CompletedCategories(db, COUNT))))
  }

  lemma AtIgnoresRun(job: Job, db: Database, db': Database, p: nat, k: nat)
    requires |job.rows| == COUNT && At(job, db, p, k)
    requires db'.tables == db.tables && db'.checkpoints == db.checkpoints
    ensures At(job, db', p, k)
  {
    hide AllCommittable;
    forall c: nat | c < COUNT
      ensures CategoryAt(job, db', p, k, c)
    {
      assert CategoryAt(job, db, p, k, c);
    }
  }

  /**
   Opening: the run goes on from where it stands, its next rows under the options and on the day of this session.
   A run that is opened for the first time is the session's own.
   */
  lemma OpeningSwitches(mix0: Job, s: Session, db: Database, p: nat, k: nat) returns (mix: Job)
    requires Consistent(mix0, db, p, k) && ValidSession(s) && Opens(db, s)
    requires db.run.Some? ==> mix0.rows == s.source.rows
    ensures ValidJob(mix) && mix.fingerprint == s.source.fingerprint && |mix.rows| == COUNT && mix.rows == s.source.rows
    ensures MigrationRun.Position(mix, p, k) && At(mix, Opened(Initialized(db, s), s), p, k)
    ensures AgreeFrom(mix, JobFor(s), p, k)
    ensures db.run.Some? ==> MigrationRun.Position(mix0, p, k) && AgreeBefore(mix0, mix, p, k)
    ensures OnlyUnder(s.options, mix0, db, p) ==> IsUniform(mix, s.options)
    ensures OnlyUnder(s.options, mix0, db, p) && p == COUNT ==> OneZone(mix, s.options, db.tables)
  {
    if db.run.Some? {
      AtPosition(mix0, db, p, k);
      mix := Switched(mix0, s.options, s.today, p, k);
      SwitchedAgrees(mix0, s.options, s.today, p, k);
      SameJobFor(mix, mix0, s, p, k);
      AgreeingAt(mix0, mix, db, p, k);
      if OnlyUnder(s.options, mix0, db, p) { SwitchKeepsUniform(mix0, s.options, s.today, db.tables, p, k); }
    } else {
      mix := JobFor(s);
      StartsUniform(s.source, s.options, s.today);
    }
    hide At, AgreeFrom, AgreeBefore, IsUniform, OneZone, OnlyUnder, ValidRows;
    if db.run.Some? {
      AtIgnoresRun(mix, db, Opened(Initialized(db, s), s), p, k);
    } else {
      AtIgnoresRun(mix, NO_DATABASE.(exportsTable := s.options.legacyPvOutput), Opened(Initialized(db, s), s), 0, 0);
    }
  }

  lemma SameJobFor(mix: Job, mix0: Job, s: Session, p: nat, k: nat)
    requires |mix.rows| == COUNT && mix0.rows == s.source.rows && MigrationRun.Position(mix, p, k)
    requires mix.rows == mix0.rows && AgreeFrom(mix, JobOf(Source(mix0.fingerprint, mix0.rows), s.options, s.today), p, k)
    ensures AgreeFrom(mix, JobFor(s), p, k)
  {
    hide Todo;
    forall c: nat | c < COUNT
      ensures SameOptions(mix, JobFor(s), Todo(mix, c)[Reached(mix, p, k, c)..])
    {
      var job := JobOf(Source(mix0.fingerprint, mix0.rows), s.options, s.today);
      assert SameOptions(mix, job, Todo(mix, c)[Reached(mix, p, k, c)..]);
    }
  }

  /** A run that goes on under the same options on another day has nothing else stored. */
  lemma SwitchKeepsUniform(job: Job, o: Options, today: int, t: Tables, p: nat, k: nat)
    requires ValidJob(job) && |job.rows| == COUNT && MigrationRun.Position(job, p, k) && IsUniform(job, o)
    ensures IsUniform(Switched(job, o, today, p, k), o)
    ensures OneZone(job, o, t) && p == COUNT ==> OneZone(Switched(job, o, today, p, k), o, t)
  {
    SwitchedAgrees(job, o, today, p, k);
    hide IsDone, ValidRows;
    if p == COUNT {
      AgreeingTables(job, Switched(job, o, today, p, k), p, k, COUNT);
      hide TablesBefore, AgreeBefore, AgreeFrom, ReconstructedDates;
    }
  }

  lemma UniformRowsSucceed(a: Job, b: Job, o: Options)
    requires |a.rows| == COUNT && a.rows == b.rows && IsUniform(a, o) && IsUniform(b, o) && EveryRowSucceeds(a)
    ensures EveryRowSucceeds(b)
  {
    forall p: nat | p < COUNT
      ensures RowsSucceed(b, Todo(b, p), TablesBefore(b, p).inverters.Keys)
    {
      SameTodo(a, b, p);
      RestBefore(a, b, p);
      hide TablesBefore, Todo, RowOk;
      var rows, known := Todo(a, p), TablesBefore(a, p).inverters.Keys;
      assert known == TablesBefore(b, p).inverters.Keys;
      assert RowsSucceed(a, rows, known);
      forall i | 0 <= i < |rows|
        ensures RowOk(b, rows[i], known)
      {
        SameOptionsSameRows(a, b, rows[i], known);
      }
    }
  }

  // ---------------------------------------------------------------- one session

  /** What a session that succeeds leaves: a completed run whose every check passes for this very session. */
  ghost predicate IsFinished(s: Session, db: Database)
    requires |s.source.rows| == COUNT
  {
    && Verifies(db, s.source, s.options, s.shadowDay, s.view)
    && db.run == Some(Run(s.source.fingerprint, s.options.timezone, Completed, SourceTotal(JobFor(s), COUNT), COUNT))
    && SkippedTotal(JobFor(s), COUNT) == 0
  }

  /** Neither a fault nor a row that cannot be migrated stands in the way. */
  ghost predicate Undisturbed(s: Session)
    requires |s.source.rows| == COUNT
  {
    s.faults == [] && s.yieldsBeforeCrash.None? && EveryRowSucceeds(JobFor(s))
  }

  /** Records how a session that processed every category and stored every yield ended. */
  method FinishRun(target: WritableTarget, ghost mix: Job, s: Session, passed: bool)
    requires target.Idle() && ValidJob(mix) && mix.rows == s.source.rows && target.committed.run.Some?
    requires At(mix, target.committed, COUNT, 0)
    requires passed ==> Verifies(target.committed, s.source, s.options, s.shadowDay, s.view)
    modifies target
    ensures target.Idle() && At(mix, target.committed, COUNT, 0)
    ensures target.committed == WithStatus(old(target.committed), if passed then Completed else VerificationFailed)
    ensures passed ==> IsCompleted(mix, target.committed)
  {
    hide At, Verifies;
    if passed {
      VerifiedIsComplete(mix, target.committed, s);
      CompletedTotals(mix, target.committed, COUNT);
      TotalsCountCoveredRows(mix, target.committed, COUNT, 0, COUNT);
    }
    var done := WithStatus(target.committed, if passed then Completed else VerificationFailed);
    AtIgnoresRun(mix, target.committed, done, COUNT, 0);
    target.Execute(done);
  }

  lemma VerifiedIsComplete(mix: Job, db: Database, s: Session)
    requires ValidJob(mix) && mix.rows == s.source.rows && At(mix, db, COUNT, 0)
    requires Verifies(db, s.source, s.options, s.shadowDay, s.view)
    ensures SkippedTotal(mix, COUNT) == 0
  {
    hide At;
    CountsMatchExactlyWhen(mix, db);
  }

  lemma {:induction false} SameTotals(a: Job, b: Job, p: nat)
    requires a.rows == b.rows && p <= |a.rows| == COUNT
    ensures SourceTotal(a, p) == SourceTotal(b, p) && SkippedTotal(a, p) == SkippedTotal(b, p)
  {
    if p > 0 { SameTotals(a, b, p - 1); }
  }

  lemma StatusKeepsChecks(db: Database, db': Database, s: Session)
    requires |s.source.rows| == COUNT && db.run.Some? && db'.run.Some?
    requires db'.tables == db.tables && db'.checkpoints == db.checkpoints && db'.exportsTable == db.exportsTable
    requires db'.run.value.timezone == db.run.value.timezone
    ensures Verifies(db, s.source, s.options, s.shadowDay, s.view) <==> Verifies(db', s.source, s.options, s.shadowDay, s.view)
  {
    hide FinalOf, TableAgrees;
  }

  /** The tables that the second migration of the session's verification ends with. */
  ghost function Expected(s: Session): Tables
    requires |s.source.rows| == COUNT
  {
    FinalOf(s.source, s.options, s.shadowDay)
  }

  /**
   What a session has stored when it gets to its verification on a target that knows only its
   options: the tables it is verified against, the completeness of yields aside, and exactly these
   if and only if every date is over for its last writer when it is over for the verification.
   */
  ghost predicate HasFinalTables(mix: Job, db: Database, s: Session)
    requires |s.source.rows| == |mix.rows| == COUNT
  {
    && db.tables == FinalTables(mix, s.options.dateOf, s.today)
    && WithoutFlags(db.tables) == WithoutFlags(Expected(s))
    && (db.tables == Expected(s) <==> FlagsAgree(mix, s.options, s.today, s.shadowDay))
  }

  lemma AloneHasFinalTables(mix: Job, db: Database, s: Session)
    requires ValidJob(mix) && mix.rows == s.source.rows && IsUniform(mix, s.options)
    requires db.tables == FinalTables(mix, s.options.dateOf, s.today)
    ensures |mix.rows| == COUNT && HasFinalTables(mix, db, s)
  {
    EightTables(mix);
    FinalTablesAgreeExactlyWhen(mix, JobOf(s.source, s.options, s.shadowDay), s.options, s.today, s.shadowDay);
    hide FinalTables, FlagsAgree, WithoutFlags, ValidRows;
  }

  /** Such a session passes its checks exactly when no row was skipped and the tables agree, in particular when the days do. */
  lemma AloneVerifies(mix: Job, db: Database, s: Session)
    requires ValidJob(mix) && mix.rows == s.source.rows && At(mix, db, COUNT, 0) && RunMatches(db, s.options)
    ensures |mix.rows| == COUNT
    ensures Verifies(db, s.source, s.options, s.shadowDay, s.view) <==>
            SkippedTotal(mix, COUNT) == 0 && ViewsAgree(s.view, Expected(s), db.tables)
    ensures HasFinalTables(mix, db, s) && FlagsAgree(mix, s.options, s.today, s.shadowDay) ==>
              ViewsAgree(s.view, Expected(s), db.tables)
  {
    CountsMatchExactlyWhen(mix, db);
    EqualViewsAgree(s.view, db.tables);
    hide At, ViewsAgree, FinalTables, CountsMatch, SkippedTotal, FlagsAgree, WithoutFlags;
  }

  predicate IsVerdict(e: Ending) { e.Succeeded? || e.NotVerified? }

  /**
   What a session stores beyond the rows it copies, on a target found at category `p0`: at a verdict
   all its reconstructed yields over the yields it found; when nothing was left to copy, in any case
   some of them, and without a crash it gets to a verdict unless a date it calls copied is not stored.
   */
  ghost predicate StoresItsYields(mix: Job, s: Session, p0: nat, found: Tables, ending: Ending, p: nat, after: Tables)
    requires |mix.rows| == COUNT
  {
    && (IsVerdict(ending) ==> p == COUNT && IsRebuilt(mix, s.options, s.today, CopiedTables(mix, found, p0), after))
    && (p0 == COUNT ==>
          && StoresSome(found, after, SessionYields(mix, s.options, s.today, found))
          && (s.yieldsBeforeCrash.None? && !IsVerdict(ending) ==>
                exists d | d in CopiedDates(s.options.dateOf, Todo(mix, MONTH)) :: d !in after.dailyYields))
  }

  /**
   How a session ends on a target that knows only its options: it gets to its verification with the
   final tables, and undisturbed it succeeds exactly when the checks of the engines pass, no row was
   skipped and the tables agree with those of the second migration; they do whenever the days agree.
   */
  ghost predicate EndsAlone(mix: Job, s: Session, ending: Ending, db: Database)
    requires |mix.rows| == |s.source.rows| == COUNT
  {
    && (IsVerdict(ending) ==> HasFinalTables(mix, db, s))
    && (Undisturbed(s) && !ending.Refused? ==>
          var passes := s.engineChecks && SkippedTotal(JobFor(s), COUNT) == 0;
          && ending == (if passes && ViewsAgree(s.view, Expected(s), db.tables) then Succeeded else NotVerified)
          && (FlagsAgree(mix, s.options, s.today, s.shadowDay) ==> ending == if passes then Succeeded else NotVerified))
  }

  /**
   The run row says how a session ended that was not refused: still running after a crash, and
   otherwise with the number of source rows that the committed checkpoints cover and the number of
   completed categories.
   */
  ghost predicate RecordsStatus(mix: Job, ending: Ending, p: nat, db: Database)
    requires |mix.rows| == COUNT
  {
    && db.run.Some?
    && (ending.Crashed? ==> db.run.value.status == Running)
    && (ending.Failed? ==> db.run.value.status == Interrupted)
    && (ending.NotVerified? ==> db.run.value.status == VerificationFailed)
    && (ending.Succeeded? ==> db.run.value.status == Completed)
    && (!ending.Crashed? ==>
          db.run.value.rowsProcessed == CoveredTotal(mix, db, COUNT) && db.run.value.categoriesCompleted == p)
  }

  /** ... of the session's source, in the timezone it was created in, and after a crash with the totals it was opened with. */
  ghost predicate RecordsEnding(mix: Job, s: Session, before: Option<Run>, ending: Ending, p: nat, db: Database)
    requires |mix.rows| == COUNT
  {
    && RecordsStatus(mix, ending, p, db) && db.run.value.fingerprint == s.source.fingerprint
    && db.run.value.timezone == (if before.Some? then before.value.timezone else s.options.timezone)
    && (ending.Crashed? ==>
          && db.run.value.rowsProcessed == (if before.Some? then before.value.rowsProcessed else 0)
          && db.run.value.categoriesCompleted == (if before.Some? then before.value.categoriesCompleted else 0))
  }

  lemma TotalsAreRecorded(mix: Job, db: Database, status: RunStatus, p: nat, k: nat)
    requires ValidJob(mix) && |mix.rows| == COUNT && At(mix, db, p, k) && db.run.Some?
    ensures var after := WithStatus(db, status);
            && after.run.Some? && after.run.value.status == status
            && after.run.value.rowsProcessed == CoveredTotal(mix, after, COUNT)
            && after.run.value.categoriesCompleted == p
            && after.run.value.fingerprint == db.run.value.fingerprint && after.run.value.timezone == db.run.value.timezone
  {
    var after := WithStatus(db, status);
    AtIgnoresRun(mix, db, after, p, k);
    AtPosition(mix, db, p, k);
    TotalsCountCoveredRows(mix, db, p, k, COUNT);
    SameCovered(mix, db, after, COUNT);
    hide At, CoveredTotal, TotalRows, CompletedCategories;
  }

  lemma {:induction false} SameCovered(mix: Job, db: Database, after: Database, c: nat)
    requires c <= |mix.rows| == COUNT && after.checkpoints == db.checkpoints
    ensures CoveredTotal(mix, after, c) == CoveredTotal(mix, db, c)
  {
    if c > 0 { SameCovered(mix, db, after, c - 1); }
  }

  lemma RecordedFromOpened(mix: Job, s: Session, before: Database, ending: Ending, p: nat, db: Database)
    requires |mix.rows| == COUNT && RecordsEnding(mix, s, Opened(before, s).run, ending, p, db)
    ensures RecordsEnding(mix, s, before.run, ending, p, db)
  {
    hide CoveredTotal;
  }

  /**
   One session, from a target left in any consistent state by sessions with any options. It is
   refused exactly when `open_run` refuses it. Otherwise the run goes on from where it stands,
   its next rows under this session's options and on its day, and succeeds only as a finished run
   of this session: in the timezone it was created in, with every source row counted and every
   table check passed. The optional table of exports is never removed. The optional daily
   statistics are not among the tables checked: their rebuild may fail, and their check, which is
   one of the engine checks, may not pass.
   */
  method RunSession(target: WritableTarget, ghost mix0: Job, s: Session, ghost p0: nat, ghost k0: nat)
    returns (ending: Ending, ghost mix: Job, ghost p: nat, ghost k: nat)
    requires Consistent(mix0, target.committed, p0, k0) && ValidSession(s)
    requires target.committed.run.Some? && mix0.fingerprint == s.source.fingerprint ==> mix0.rows == s.source.rows
    modifies target
    ensures Consistent(mix, target.committed, p, k) && |mix.rows| == |s.source.rows| == COUNT
    ensures target.committed.exportsTable == Initialized(old(target.committed), s).exportsTable
    ensures ending.Refused? <==>
              || s.batchSize == 0 || (old(target.committed).run.None? && s.mode.Resume?)
              || (old(target.committed).run.Some?
                  && (s.mode.Execute? || old(target.committed).run.value.fingerprint != s.source.fingerprint))
    ensures ending.Refused? <==> !Opens(old(target.committed), s)
    ensures target.committed.exportsTable ==
            (old(target.committed).exportsTable || (s.batchSize > 0 && s.options.legacyPvOutput))
    ensures !ending.Refused? ==>
              |mix.rows| == COUNT && RecordsEnding(mix, s, old(target.committed).run, ending, p, target.committed)
    ensures ending.Refused? ==> target.committed == Initialized(old(target.committed), s) && (mix, p, k) == (mix0, p0, k0)
    ensures !ending.Refused? ==>
              && mix.fingerprint == s.source.fingerprint && mix.rows == s.source.rows && target.committed.run.Some?
              && NotBefore(p0, k0, p, k)
              && MigrationRun.Position(mix, p0, k0) && AgreeFrom(mix, JobFor(s), p0, k0)
              && StoresItsYields(mix, s, p0, old(target.committed).tables, ending, p, target.committed.tables)
    ensures old(target.committed).run.Some? ==>
              && target.committed.run.Some?
              && target.committed.run.value.timezone == old(target.committed).run.value.timezone
              && mix.fingerprint == mix0.fingerprint && mix.rows == mix0.rows
              && MigrationRun.Position(mix0, p0, k0) && AgreeBefore(mix0, mix, p0, k0)
    ensures ending.Succeeded? ==> IsFinished(s, target.committed)
    ensures OnlyUnder(s.options, mix0, old(target.committed), p0) ==>
              OnlyUnder(s.options, mix, target.committed, p) && EndsAlone(mix, s, ending, target.committed)
  {
    hide At, OneZone, FinalTables, IsUniform, AgreeFrom, AgreeBefore, ValidRows, EndsAlone, StoresItsYields, IsFinished,
         SourceTotal, SkippedTotal, CompletedCategories, TotalRows, RecordsEnding;
    p, k := p0, k0;
    SessionHasEightTables(s);
    var isOpen;
    isOpen, mix := OpenSession(target, mix0, s, p0, k0);
    if !isOpen {
      RefusedEndsAlone(mix, s, target.committed);
      return Refused, mix, p, k;
    }
    ending, p, k := MigrateAndVerify(target, mix, s, p0, k0);
    RecordedFromOpened(mix, s, Initialized(old(target.committed), s), ending, p, target.committed);
  }

  lemma RefusedEndsAlone(mix: Job, s: Session, db: Database)
    requires |mix.rows| == |s.source.rows| == COUNT
    ensures EndsAlone(mix, s, Refused, db)
  {}

  /** An opened session: copy, rebuild and verification. */
  method MigrateAndVerify(target: WritableTarget, ghost mix: Job, s: Session, ghost p0: nat, ghost k0: nat)
    returns (ending: Ending, ghost p: nat, ghost k: nat)
    requires target.Idle() && ValidSession(s) && s.batchSize > 0 && ValidJob(mix) && |mix.rows| == |s.source.rows| == COUNT
    requires mix.fingerprint == s.source.fingerprint && mix.rows == s.source.rows
    requires target.committed.run.Some? && target.committed.run.value.fingerprint == s.source.fingerprint
    requires target.committed.run.value.status == Running
    requires MigrationRun.Position(mix, p0, k0) && At(mix, target.committed, p0, k0) && AgreeFrom(mix, JobFor(s), p0, k0)
    modifies target
    ensures Consistent(mix, target.committed, p, k) && NotBefore(p0, k0, p, k) && !ending.Refused?
    ensures target.committed.exportsTable == old(target.committed).exportsTable
    ensures target.committed.run.Some?
            && target.committed.run.value.timezone == old(target.committed).run.value.timezone
    ensures RecordsEnding(mix, s, old(target.committed).run, ending, p, target.committed)
    ensures StoresItsYields(mix, s, p0, old(target.committed).tables, ending, p, target.committed.tables)
    ensures ending.Succeeded? ==> IsFinished(s, target.committed)
    ensures RunMatches(old(target.committed), s.options) && IsUniform(mix, s.options)
            && (p0 == COUNT ==> OneZone(mix, s.options, old(target.committed).tables)) ==>
              && OnlyUnder(s.options, mix, target.committed, p)
              && EndsAlone(mix, s, ending, target.committed)
  {
    hide At, EveryRowSucceeds, OneZone, FinalTables, TablesBefore, SourceTotal, SkippedTotal, Verifies, IsUniform,
         AgreeFrom, AgreeBefore, ValidRows, TotalRows, CompletedCategories, FlagsAgree, HasFinalTables, ViewsAgree, Expected,
         IsRebuilt, StoresSome, SessionYields, CopiedDates, CoveredTotal;
    var stop;
    stop, p, k := Copy(target, mix, JobFor(s), s.options, s.today, s.batchSize, s.faults, s.yieldsBeforeCrash, p0, k0);
    if Undisturbed(s) && IsUniform(mix, s.options) { UniformRowsSucceedFor(mix, s); }
    if stop.Some? {
      ending := stop.value;
      if ending.Failed? {
        TotalsAreRecorded(mix, target.committed, Interrupted, p, k);
        Interrupt(target, mix, p, k);
      }
      return;
    }
    AtPosition(mix, target.committed, p, k);
    TotalsAreRecorded(mix, target.committed, Completed, p, k);
    TotalsAreRecorded(mix, target.committed, VerificationFailed, p, k);
    var passed := VerifyAndFinish(target, mix, s);
    ending := if passed then Succeeded else NotVerified;
  }

  /** Opens the target for the session, or refuses it. */
  method OpenSession(target: WritableTarget, ghost mix0: Job, s: Session, ghost p: nat, ghost k: nat)
    returns (isOpen: bool, ghost mix: Job)
    requires Consistent(mix0, target.committed, p, k) && ValidSession(s)
    requires target.committed.run.Some? && mix0.fingerprint == s.source.fingerprint ==> mix0.rows == s.source.rows
    modifies target
    ensures target.Idle() && |mix0.rows| == COUNT && (isOpen <==> Opens(old(target.committed), s))
    ensures MigrationRun.Position(mix0, p, k) && AgreeBefore(mix0, mix0, p, k)
    ensures !isOpen ==>
              mix == mix0 && target.committed == Initialized(old(target.committed), s) && At(mix0, target.committed, p, k)
    ensures isOpen ==>
              && target.committed == Opened(Initialized(old(target.committed), s), s)
              && ValidJob(mix) && mix.fingerprint == s.source.fingerprint && |mix.rows| == COUNT && mix.rows == s.source.rows
              && MigrationRun.Position(mix, p, k) && At(mix, target.committed, p, k) && AgreeFrom(mix, JobFor(s), p, k)
              && (old(target.committed).run.Some? ==> AgreeBefore(mix0, mix, p, k))
              && (OnlyUnder(s.options, mix0, old(target.committed), p) ==>
                    IsUniform(mix, s.options) && (p == COUNT ==> OneZone(mix, s.options, target.committed.tables)))
  {
    hide At, OneZone, FinalTables, IsUniform, AgreeFrom, AgreeBefore, ValidRows, OnlyUnder, IsCompleted;
    mix := mix0;
    ghost var before := target.committed;
    target.Rollback();
    SelfAgrees(mix0, before, p, k);
    if s.batchSize > 0 && s.options.legacyPvOutput {
      target.Execute(target.committed.(exportsTable := true));
    }
    AtIgnoresRun(mix0, before, target.committed, p, k);
    isOpen := Opens(target.committed, s);
    if isOpen {
      mix := OpeningSwitches(mix0, s, before, p, k);
      target.Execute(Opened(target.committed, s));
    }
  }

  method Interrupt(target: WritableTarget, ghost mix: Job, ghost p: nat, ghost k: nat)
    requires target.Idle() && |mix.rows| == COUNT && At(mix, target.committed, p, k) && target.committed.run.Some?
    modifies target
    ensures target.Idle() && At(mix, target.committed, p, k)
    ensures target.committed == WithStatus(old(target.committed), Interrupted)
  {
    hide At;
    AtIgnoresRun(mix, target.committed, WithStatus(target.committed, Interrupted), p, k);
    target.Execute(WithStatus(target.committed, Interrupted));
  }

  /** Verifies a copied target and records the outcome. */
  method VerifyAndFinish(target: WritableTarget, ghost mix: Job, s: Session) returns (passed: bool)
    requires target.Idle() && ValidJob(mix) && mix.rows == s.source.rows && target.committed.run.Some?
    requires ValidSession(s) && At(mix, target.committed, COUNT, 0)
    requires target.committed.run.value.fingerprint == s.source.fingerprint
    modifies target
    ensures At(mix, target.committed, COUNT, 0) && |mix.rows| == COUNT
    ensures target.committed == WithStatus(old(target.committed), if passed then Completed else VerificationFailed)
    ensures passed ==> IsCompleted(mix, target.committed) && IsFinished(s, target.committed)
    ensures RunMatches(old(target.committed), s.options) && IsUniform(mix, s.options)
            && old(target.committed).tables == FinalTables(mix, s.options.dateOf, s.today) ==>
              && HasFinalTables(mix, target.committed, s)
              && (EveryRowSucceeds(JobFor(s)) ==>
                    var passes := s.engineChecks && SkippedTotal(JobFor(s), COUNT) == 0;
                    && (passed <==> passes && ViewsAgree(s.view, Expected(s), target.committed.tables))
                    && (FlagsAgree(mix, s.options, s.today, s.shadowDay) ==> (passed <==> passes)))
  {
    EightTables(mix);
    hide At, EveryRowSucceeds, FinalTables, Expected, SourceTotal, SkippedTotal, Verifies, IsUniform, TotalRows,
         CompletedCategories, FlagsAgree, HasFinalTables, ViewsAgree, ValidRows;
    ghost var copied := target.committed;
    passed := Verify(target.committed, s.source, s.options, s.shadowDay, s.view, s.engineChecks);
    if RunMatches(copied, s.options) && IsUniform(mix, s.options)
       && copied.tables == FinalTables(mix, s.options.dateOf, s.today) {
      VerdictAlone(mix, copied, s, passed);
      SameFinalTables(mix, copied, WithStatus(copied, if passed then Completed else VerificationFailed), s);
    }
    SameTotals(mix, JobFor(s), COUNT);
    FinishRun(target, mix, s, passed);
    StatusKeepsChecks(copied, target.committed, s);
    if passed { VerifiedRunMatches(copied, s); }
  }

  /** What the verdict on a target that knows only the session's options says. */
  lemma VerdictAlone(mix: Job, db: Database, s: Session, passed: bool)
    requires ValidJob(mix) && mix.rows == s.source.rows && At(mix, db, COUNT, 0) && ValidSession(s)
    requires RunMatches(db, s.options) && IsUniform(mix, s.options) && db.tables == FinalTables(mix, s.options.dateOf, s.today)
    requires passed ==> s.engineChecks && Verifies(db, s.source, s.options, s.shadowDay, s.view)
    requires s.engineChecks && Verifies(db, s.source, s.options, s.shadowDay, s.view) ==>
               EveryRowSucceeds(JobOf(s.source, s.options, s.shadowDay)) ==> passed
    ensures |mix.rows| == COUNT && HasFinalTables(mix, db, s)
    ensures EveryRowSucceeds(JobFor(s)) ==>
              var passes := s.engineChecks && SkippedTotal(JobFor(s), COUNT) == 0;
              && (passed <==> passes && ViewsAgree(s.view, Expected(s), db.tables))
              && (FlagsAgree(mix, s.options, s.today, s.shadowDay) ==> (passed <==> passes))
  {
    AloneHasFinalTables(mix, db, s);
    AloneVerifies(mix, db, s);
    SameTotals(mix, JobFor(s), COUNT);
    hide At, EveryRowSucceeds, FinalTables, Expected, SkippedTotal, Verifies, IsUniform, FlagsAgree, HasFinalTables,
         ViewsAgree, ValidRows;
    if EveryRowSucceeds(JobFor(s)) { ShadowSucceeds(s); }
  }

  lemma SameFinalTables(mix: Job, db: Database, db': Database, s: Session)
    requires |mix.rows| == |s.source.rows| == COUNT && HasFinalTables(mix, db, s) && db'.tables == db.tables
    ensures HasFinalTables(mix, db', s)
  {
    hide FinalTables, Expected, FlagsAgree;
  }

  lemma ShadowSucceeds(s: Session)
    requires |s.source.rows| == COUNT && EveryRowSucceeds(JobFor(s))
    ensures EveryRowSucceeds(JobOf(s.source, s.options, s.shadowDay))
  {
    hide EveryRowSucceeds;
    UniformRowsSucceed(JobFor(s), JobOf(s.source, s.options, s.shadowDay), s.options);
  }

  lemma VerifiedRunMatches(db: Database, s: Session)
    requires |s.source.rows| == COUNT && Verifies(db, s.source, s.options, s.shadowDay, s.view)
    ensures RunMatches(db, s.options)
  {}

  lemma SelfAgrees(mix: Job, db: Database, p: nat, k: nat)
    requires ValidJob(mix) && At(mix, db, p, k)
    ensures |mix.rows| == COUNT && MigrationRun.Position(mix, p, k) && AgreeBefore(mix, mix, p, k)
  {
    AtPosition(mix, db, p, k);
    hide At, Todo;
  }

  lemma UniformRowsSucceedFor(mix: Job, s: Session)
    requires |mix.rows| == COUNT && mix.rows == s.source.rows && IsUniform(mix, s.options) && Undisturbed(s)
    ensures EveryRowSucceeds(mix)
  {
    hide EveryRowSucceeds;
    UniformRowsSucceed(JobFor(s), mix, s.options);
  }

  /** Sessions with one fingerprint present one source. */
  ghost predicate OneSourcePerFingerprint(sessions: seq<Session>) {
    forall i, j | 0 <= i < |sessions| && 0 <= j < |sessions| ::
      sessions[i].source.fingerprint == sessions[j].source.fingerprint ==> sessions[i].source.rows == sessions[j].source.rows
  }

  /** ... which is also the source of the run that the target holds. */
  ghost predicate KnowsSource(mix: Job, db: Database, sessions: seq<Session>) {
    db.run.Some? ==> forall i | 0 <= i < |sessions| ::
      sessions[i].source.fingerprint == mix.fingerprint ==> sessions[i].source.rows == mix.rows
  }

  lemma KnowsSourceAfter(mix0: Job, mix: Job, before: Database, after: Database, sessions: seq<Session>, n: nat,
                         refused: bool)
    requires n < |sessions| && OneSourcePerFingerprint(sessions) && KnowsSource(mix0, before, sessions)
    requires refused ==> mix == mix0 && after.run == before.run
    requires !refused ==> mix.fingerprint == sessions[n].source.fingerprint && mix.rows == sessions[n].source.rows
    ensures KnowsSource(mix, after, sessions)
  {}

  /**
   Any history of sessions: executes and resumes of any sources under any options, on any days,
   with any batch sizes, errors and crashes anywhere. The committed database stays a position of
   one run and never moves back, and sessions succeed only in the timezone in which the run was
   created. The optional table of exports exists once any session has asked for it, refused or not,
   and from then on no session without it succeeds. The run row says how the last session ended
   that was not refused. After a session that succeeds the database is finished for that session, and if all
   sessions had the same options its tables are those of an undisturbed migration within one day,
   up to the completeness of yields, whose condition is that of the session's days.
   */
  method RunSessions(target: WritableTarget, ghost mix0: Job, sessions: seq<Session>, ghost o: Options, ghost p0: nat,
                     ghost k0: nat)
    returns (endings: seq<Ending>, ghost mix: Job, ghost p: nat, ghost k: nat)
    requires Consistent(mix0, target.committed, p0, k0)
    requires forall i | 0 <= i < |sessions| :: ValidSession(sessions[i])
    requires OneSourcePerFingerprint(sessions) && KnowsSource(mix0, target.committed, sessions)
    modifies target
    ensures |endings| == |sessions|
    ensures Consistent(mix, target.committed, p, k) && NotBefore(p0, k0, p, k)
    ensures old(target.committed).run.Some? ==>
              target.committed.run.Some?
              && target.committed.run.value.timezone == old(target.committed).run.value.timezone
    ensures target.committed.exportsTable == (old(target.committed).exportsTable || AnyCreatesExports(sessions, |sessions|))
    ensures forall i | 0 <= i < |sessions| && endings[i].Succeeded? ::
              && target.committed.run.Some? && sessions[i].options.timezone == target.committed.run.value.timezone
              && sessions[i].options.legacyPvOutput == (old(target.committed).exportsTable || AnyCreatesExports(sessions, i + 1))
    ensures forall n | 0 <= n < |endings| && IsLastOpened(endings, n) ::
              |mix.rows| == COUNT && RecordsStatus(mix, endings[n], p, target.committed)
    ensures sessions != [] && endings[|sessions| - 1].Succeeded? ==>
              |sessions[|sessions| - 1].source.rows| == COUNT && IsFinished(sessions[|sessions| - 1], target.committed)
    ensures |mix0.rows| == |mix.rows| == COUNT
    ensures OnlyUnder(o, mix0, old(target.committed), p0) && (forall i | 0 <= i < |sessions| :: sessions[i].options == o) ==>
              && OnlyUnder(o, mix, target.committed, p)
              && (sessions != [] && endings[|sessions| - 1].Succeeded? ==>
                    |sessions[|sessions| - 1].source.rows| == COUNT
                    && HasFinalTables(mix, target.committed, sessions[|sessions| - 1]))
  {
    hide *;
    mix, p, k, endings := mix0, p0, k0, [];
    HasEightTables(mix0, target.committed, p0, k0);
    NotBeforeItself(p0, k0);
    NoneCreatesExports(sessions);
    NothingOpened();
    ghost var alone := OnlyUnder(o, mix0, target.committed, p0) && forall i | 0 <= i < |sessions| :: sessions[i].options == o;
    for n := 0 to |sessions|
      invariant |endings| == n && |mix.rows| == COUNT
      invariant Consistent(mix, target.committed, p, k) && NotBefore(p0, k0, p, k)
      invariant KnowsSource(mix, target.committed, sessions)
      invariant old(target.committed).run.Some? ==>
                  target.committed.run.Some?
                  && target.committed.run.value.timezone == old(target.committed).run.value.timezone
      invariant target.committed.exportsTable == (old(target.committed).exportsTable || AnyCreatesExports(sessions, n))
      invariant forall i | 0 <= i < n && endings[i].Succeeded? ::
                  && target.committed.run.Some? && sessions[i].options.timezone == target.committed.run.value.timezone
                  && sessions[i].options.legacyPvOutput ==
                     (old(target.committed).exportsTable || AnyCreatesExports(sessions, i + 1))
      invariant forall m | 0 <= m < n && IsLastOpened(endings, m) :: RecordsStatus(mix, endings[m], p, target.committed)
      invariant n > 0 && endings[n - 1].Succeeded? ==>
                  |sessions[n - 1].source.rows| == COUNT && IsFinished(sessions[n - 1], target.committed)
      invariant alone ==> OnlyUnder(o, mix, target.committed, p)
      invariant alone && n > 0 && endings[n - 1].Succeeded? ==> HasFinalTables(mix, target.committed, sessions[n - 1])
    {
      ghost var before, from, q, l := target.committed, mix, p, k;
      SessionHasEightTables(sessions[n]);
      SourceIsKnown(mix, before, sessions, n);
      var ending;
      ending, mix, p, k := RunSession(target, mix, sessions[n], p, k);
      VerdictMeans(ending);
      HasEightTables(mix, target.committed, p, k);
      InitializedKeepsRun(before, sessions[n]);
      KnowsSourceAfter(from, mix, before, target.committed, sessions, n, ending.Refused?);
      NotBeforeOnward(p0, k0, q, l, p, k, ending.Refused?);
      if ending.Succeeded? { FinishedMatches(sessions[n], target.committed); }
      if alone { EndsAloneMeans(mix, sessions[n], ending, target.committed); }
      InitializedExports(before, sessions, n);
      EndingIsRecorded(from, mix, sessions[n], before, endings, ending, q, p, target.committed);
      endings := endings + [ending];
    }
  }

  /** Session `n` is the last one that was not refused. */
  ghost predicate IsLastOpened(endings: seq<Ending>, n: int) {
    0 <= n < |endings| && !endings[n].Refused? && forall m | n < m < |endings| :: endings[m].Refused?
  }

  lemma EndingIsRecorded(from: Job, mix: Job, s: Session, before: Database, endings: seq<Ending>, ending: Ending, q: nat, p: nat,
                         db: Database)
    requires |from.rows| == |mix.rows| == COUNT
    requires forall m | 0 <= m < |endings| && IsLastOpened(endings, m) :: RecordsStatus(from, endings[m], q, before)
    requires ending.Refused? ==> db == Initialized(before, s) && mix == from && p == q
    requires !ending.Refused? ==> RecordsEnding(mix, s, before.run, ending, p, db)
    ensures forall m | 0 <= m < |endings + [ending]| && IsLastOpened(endings + [ending], m) ::
              RecordsStatus(mix, (endings + [ending])[m], p, db)
  {
    var more := endings + [ending];
    forall m | 0 <= m < |more| && IsLastOpened(more, m)
      ensures RecordsStatus(mix, more[m], p, db)
    {
      if m < |endings| {
        assert more[|endings|] == ending;
        forall j | m < j < |endings|
          ensures endings[j].Refused?
        {
          assert more[j] == endings[j];
        }
        assert IsLastOpened(endings, m);
        SameCovered(mix, before, db, COUNT);
        hide CoveredTotal;
      }
    }
  }

  lemma NothingOpened()
    ensures forall n :: !IsLastOpened([], n)
  {}

  lemma HasEightTables(mix: Job, db: Database, p: nat, k: nat)
    requires Consistent(mix, db, p, k)
    ensures |mix.rows| == COUNT
  {}

  lemma SessionHasEightTables(s: Session)
    requires ValidSession(s)
    ensures |s.source.rows| == COUNT
  {}

  lemma SourceIsKnown(mix: Job, db: Database, sessions: seq<Session>, n: nat)
    requires n < |sessions| && KnowsSource(mix, db, sessions)
    ensures db.run.Some? && mix.fingerprint == sessions[n].source.fingerprint ==> mix.rows == sessions[n].source.rows
  {}

  lemma InitializedKeepsRun(db: Database, s: Session)
    ensures Initialized(db, s).run == db.run
  {}

  lemma NotBeforeItself(p: nat, k: nat)
    ensures NotBefore(p, k, p, k)
  {}

  lemma NotBeforeOnward(p0: nat, k0: nat, q: nat, l: nat, p: nat, k: nat, refused: bool)
    requires NotBefore(p0, k0, q, l) && (if refused then p == q && k == l else NotBefore(q, l, p, k))
    ensures NotBefore(p0, k0, p, k)
  {}

  lemma FinishedMatches(s: Session, db: Database)
    requires |s.source.rows| == COUNT && IsFinished(s, db)
    ensures db.run.Some? && db.run.value.timezone == s.options.timezone && db.exportsTable == s.options.legacyPvOutput
  {}

  lemma InitializedExports(db: Database, sessions: seq<Session>, n: nat)
    requires n < |sessions|
    ensures Initialized(db, sessions[n]).exportsTable == (db.exportsTable || CreatesExports(sessions[n]))
    ensures AnyCreatesExports(sessions, n + 1) <==> AnyCreatesExports(sessions, n) || CreatesExports(sessions[n])
  {}

  lemma NoneCreatesExports(sessions: seq<Session>)
    ensures !AnyCreatesExports(sessions, 0)
  {}

  /** A new target is consistent with any source and knows no options yet. */
  lemma NewTargetIsConsistent(source: Source, o: Options, today: int)
    requires ValidRows(source.rows)
    ensures Consistent(JobOf(source, o, today), NO_DATABASE, 0, 0)
    ensures OnlyUnder(o, JobOf(source, o, today), NO_DATABASE, 0)
  {
    AtStart(JobOf(source, o, today));
  }

  // ---------------------------------------------------------------- a resume on a later day

  /** A session whose days disagree on one stored date only never passes its checks, whichever way they disagree. */
  lemma OneDisagreementFails(mix: Job, db: Database, s: Session, d: DayKey)
    requires ValidJob(mix) && |mix.rows| == COUNT && mix.rows == s.source.rows && IsUniform(mix, s.options)
    requires ShowsCompleteness(s.view) && db.tables == FinalTables(mix, s.options.dateOf, s.today)
    requires d in db.tables.dailyYields && !DateAgrees(mix, s.today, s.shadowDay, d)
    requires forall e | e in db.tables.dailyYields && e != d :: DateAgrees(mix, s.today, s.shadowDay, e)
    ensures !ViewsAgree(s.view, Expected(s), db.tables)
  {
    hide *;
    ShadowIsOneDay(s);
    OneDisagreement(mix, JobOf(s.source, s.options, s.shadowDay), s.options, s.today, s.shadowDay, d);
    OneFlagUpdated(db.tables, Expected(s), d, d.date < s.shadowDay);
    OneFlagFails(s.view, db.tables, d, d.date < s.shadowDay);
  }

  /**
   A yield copied while its date was not over keeps saying so: when the only MonthData row was
   committed on its own day, no session of a later day passes its verification.
   */
  lemma LaterDayFailsChecks(mix: Job, db: Database, s: Session, row: Row)
    requires ValidJob(mix) && mix.rows == s.source.rows && IsUniform(mix, s.options) && Todo(mix, MONTH) == [row]
    requires row.MonthRow? && row.rollup.Some? && mix.today(row) <= MonthKey(mix, row).date < s.today == s.shadowDay
    requires ShowsCompleteness(s.view) && db.tables == FinalTables(mix, s.options.dateOf, s.today)
    ensures |mix.rows| == COUNT
    ensures !FlagsAgree(mix, s.options, s.today, s.shadowDay) && !ViewsAgree(s.view, Expected(s), db.tables)
  {
    hide *;
    EightTables(mix);
    OnlyRowDisagrees(mix, s.options, s.today, row);
    OneDisagreementFails(mix, db, s, MonthKey(mix, row));
  }

  /** So does an undisturbed session of one day whose verification starts after midnight: today's yield is the one. */
  lemma MidnightFailsChecks(mix: Job, db: Database, s: Session, d: DayKey)
    requires ValidJob(mix) && |mix.rows| == COUNT && mix.rows == s.source.rows && IsOneDay(mix, s.options, s.today)
    requires ShowsCompleteness(s.view) && db.tables == FinalTables(mix, s.options.dateOf, s.today)
    requires d in db.tables.dailyYields && d.date == s.today && s.shadowDay == s.today + 1
    requires forall e | e in db.tables.dailyYields && e != d :: e.date != s.today
    ensures !FlagsAgree(mix, s.options, s.today, s.shadowDay) && !ViewsAgree(s.view, Expected(s), db.tables)
  {
    hide FinalTables, LastMonthRow, ViewsAgree, ShowsCompleteness, ValidRows;
    OneDisagreementFails(mix, db, s, d);
  }

  lemma ShadowIsOneDay(s: Session)
    requires |s.source.rows| == COUNT
    ensures var own := JobOf(s.source, s.options, s.shadowDay);
            own.rows == s.source.rows && IsOneDay(own, s.options, s.shadowDay)
            && Expected(s) == FinalTables(own, s.options.dateOf, s.shadowDay)
  {
    hide FinalTables;
  }

  lemma OneFlagUpdated(t: Tables, u: Tables, d: DayKey, complete: bool)
    requires d in t.dailyYields && t.dailyYields[d].complete == !complete
    requires u == t.(dailyYields := t.dailyYields[d := t.dailyYields[d].(complete := complete)])
    ensures WithFlag(t, d, complete) == u && WithFlag(t, d, !complete) == t
  {
    assert t.dailyYields[d := t.dailyYields[d].(complete := !complete)] == t.dailyYields;
  }

  lemma RowStaysCommitted(mix0: Job, mix: Job, p: nat, k: nat, row: Row)
    requires |mix0.rows| == |mix.rows| == COUNT && MigrationRun.Position(mix0, p, k) && AgreeBefore(mix0, mix, p, k)
    requires NotBefore(MONTH, 1, p, k) && Todo(mix0, MONTH) == [row]
    ensures Todo(mix, MONTH) == [row] && mix.today(row) == mix0.today(row) && mix.options(row) == mix0.options(row)
  {
    SameTodo(mix0, mix, MONTH);
    assert Reached(mix0, p, k, MONTH) == 1;
    assert SameOptions(mix0, mix, Todo(mix0, MONTH)[..Reached(mix0, p, k, MONTH)]);
    assert [row][..1][0] == row;
    hide Todo;
  }

  /**
   The failing resume: a session committed the only MonthData row on the row's own local date and
   stopped; a session with the same options on a later day resumes, whatever befalls it, and does
   not succeed. The run is left as it was found, so neither does any later one.
   */
  method ResumeOnALaterDay(target: WritableTarget, ghost mix0: Job, s: Session, ghost p0: nat, ghost k0: nat, ghost row: Row)
    returns (ending: Ending, ghost mix: Job, ghost p: nat, ghost k: nat)
    requires Consistent(mix0, target.committed, p0, k0) && ValidSession(s) && target.committed.run.Some?
    requires mix0.fingerprint == s.source.fingerprint && mix0.rows == s.source.rows && |mix0.rows| == COUNT
    requires OnlyUnder(s.options, mix0, target.committed, p0) && NotBefore(MONTH, 1, p0, k0)
    requires Todo(mix0, MONTH) == [row] && row.MonthRow? && row.rollup.Some?
    requires mix0.today(row) <= MonthKey(mix0, row).date < s.today == s.shadowDay && ShowsCompleteness(s.view)
    modifies target
    ensures !ending.Succeeded? && (Undisturbed(s) && s.mode.Resume? && s.batchSize > 0 ==> ending.NotVerified?)
    ensures Consistent(mix, target.committed, p, k) && target.committed.run.Some? && |mix.rows| == COUNT
    ensures mix.fingerprint == mix0.fingerprint && mix.rows == mix0.rows
    ensures OnlyUnder(s.options, mix, target.committed, p) && NotBefore(MONTH, 1, p, k)
    ensures Todo(mix, MONTH) == [row] && MonthKey(mix, row) == MonthKey(mix0, row) && mix.today(row) == mix0.today(row)
  {
    hide *;
    SessionHasEightTables(s);
    ending, mix, p, k := RunSession(target, mix0, s, p0, k0);
    RowStaysCommitted(mix0, mix, p0, k0, row);
    SameKey(mix0, mix, row);
    InitializedKeepsRun(old(target.committed), s);
    NotBeforeOnward(MONTH, 1, p0, k0, p, k, ending.Refused?);
    ResumeOpens(old(target.committed), s, mix0, p0, k0);
    VerdictMeans(ending);
    EndsAloneMeans(mix, s, ending, target.committed);
    if IsVerdict(ending) {
      AloneIsUniform(s.options, mix, target.committed, p, k);
      StoredTables(mix, target.committed, s);
      LaterDayFailsChecks(mix, target.committed, s, row);
      DisagreeingIsNotFinished(s, target.committed);
    }
  }

  lemma SameKey(a: Job, b: Job, row: Row)
    requires row.MonthRow? && a.options(row) == b.options(row)
    ensures MonthKey(a, row) == MonthKey(b, row)
  {}

  lemma ResumeOpens(db: Database, s: Session, mix: Job, p: nat, k: nat)
    requires Consistent(mix, db, p, k) && db.run.Some? && mix.fingerprint == s.source.fingerprint
    ensures s.mode.Resume? && s.batchSize > 0 ==> Opens(db, s)
  {}

  lemma EndsAloneMeans(mix: Job, s: Session, ending: Ending, db: Database)
    requires |mix.rows| == |s.source.rows| == COUNT && EndsAlone(mix, s, ending, db)
    ensures IsVerdict(ending) ==> HasFinalTables(mix, db, s)
    ensures Undisturbed(s) && !ending.Refused? ==> IsVerdict(ending)
  {}

  lemma VerdictMeans(e: Ending)
    ensures IsVerdict(e) <==> e.Succeeded? || e.NotVerified?
  {}

  lemma AloneIsUniform(o: Options, mix: Job, db: Database, p: nat, k: nat)
    requires |mix.rows| == COUNT && OnlyUnder(o, mix, db, p) && db.run.Some? && Consistent(mix, db, p, k)
    ensures IsUniform(mix, o) && ValidJob(mix)
  {}

  lemma StoredTables(mix: Job, db: Database, s: Session)
    requires |s.source.rows| == |mix.rows| == COUNT && HasFinalTables(mix, db, s)
    ensures db.tables == FinalTables(mix, s.options.dateOf, s.today)
  {}

  lemma DisagreeingIsNotFinished(s: Session, db: Database)
    requires |s.source.rows| == COUNT && !ViewsAgree(s.view, Expected(s), db.tables)
    ensures !IsFinished(s, db)
  {}
}
