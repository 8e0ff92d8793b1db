/**
 Yields that a session of another timezone leaves behind: its rebuild stores them under its own
 dates, nothing ever removes them, and the run's own timezone does not expect them.
 */
module Leftovers {
  import opened Wrappers
  import opened Bits
  import opened Keyset
  import opened CheckpointKeys
  import opened Canonical
  import opened SpotDataX
  import opened MigrationRun
  import opened DailyYieldRebuild
  import opened RebuiltYields
  import opened LastWriter
  import opened Migrator
  import opened Checksum
  import opened TableCheck
  import opened Orchestrate
  import opened Verification
  import opened Sessions
  import opened ForeignResume

  /** The dates under which a migration in this timezone stores yields, given the samples. */
  ghost function ExpectedDates(job: Job, dateOf: int -> int, energy: map<SampleKey, Energy>): set<DayKey>
    requires |job.rows| == COUNT
  {
    var copied := CopiedDates(dateOf, Todo(job, MONTH));
    copied + ReconstructedDates(dateOf, energy, copied)
  }

  /** A stored yield that a migration in this timezone does not store. */
  ghost predicate IsLeftover(job: Job, dateOf: int -> int, t: Tables, d: DayKey)
    requires |job.rows| == COUNT
  {
    d in t.dailyYields && d !in ExpectedDates(job, dateOf, t.energy)
  }

  // ---------------------------------------------------------------- a leftover is found

  /** Table `i` has as many rows as there are yields. */
  ghost predicate CountsYieldsAt(view: View, i: nat) { forall t: Tables :: |view.rows(i, t)| == |t.dailyYields| }

  ghost predicate CountsYields(view: View) { exists i: nat | i < view.count :: CountsYieldsAt(view, i) }

  lemma YieldsViewCountsYields(text: int -> seq<byte>)
    ensures CountsYields(YieldsView(text))
  {
    var view := YieldsView(text);
    hide Verification.InOrder, YieldRows;
    forall t: Tables
      ensures |view.rows(0, t)| == |t.dailyYields|
    {
      assert |Verification.InOrder(t.dailyYields.Keys)| == |t.dailyYields.Keys| == |t.dailyYields|;
    }
    assert CountsYieldsAt(view, 0);
  }

  lemma EqualCounts(view: View, t: Tables, u: Tables)
    requires CountsYields(view) && ViewsAgree(view, t, u)
    ensures |t.dailyYields.Keys| == |u.dailyYields.Keys|
  {
    var i: nat :| i < view.count && CountsYieldsAt(view, i);
    assert TableAgrees(view.rows(i, t), view.rows(i, u));
    hide SamplePositions, EncodeTable, Fnv;
    assert |view.rows(i, t)| == |view.rows(i, u)|;
  }

  lemma ProperSubset(a: set<DayKey>, b: set<DayKey>, d: DayKey)
    requires a <= b && d in b && d !in a
    ensures |a| < |b|
  {
    SmallerSet(a, b - {d});
  }

  lemma {:induction false} SmallerSet(a: set<DayKey>, b: set<DayKey>)
    requires a <= b
    ensures |a| <= |b|
  {
    if a != {} {
      var x :| x in a;
      SmallerSet(a - {x}, b - {x});
    }
  }

  /** The tables expected by a session have yields under exactly these dates. */
  lemma ExpectedKeys(mix: Job, db: Database, s: Session)
    requires ValidJob(mix) && mix.rows == s.source.rows && At(mix, db, COUNT, 0)
    ensures |mix.rows| == COUNT
    ensures Expected(s).dailyYields.Keys == ExpectedDates(mix, s.options.dateOf, db.tables.energy)
  {
    EightTables(mix);
    var own := JobOf(s.source, s.options, s.shadowDay);
    OwnCopiedDates(mix, own, s.options, db);
    var t := TablesBefore(own, COUNT);
    RebuiltKeys(s.options.dateOf, s.shadowDay, t.energy, t.dailyYields.Keys);
    hide At, TablesBefore, ReconstructedDates, ReconstructedYields, CopiedDates, ValidRows;
  }

  /**
   Whatever sessions came before, the tables that a session has when it is verified are those it is
   verified against if and only if the exports agree, the yields it found outside the dates it
   reconstructs are those of its own MonthData rows, and its own two days agree on these dates.
   */
  lemma VerdictTablesExactlyWhen(mix: Job, found: Tables, db: Database, s: Session)
    requires ValidJob(mix) && |mix.rows| == COUNT && mix.rows == s.source.rows && At(mix, db, COUNT, 0)
    requires IsRebuilt(mix, s.options, s.today, found, db.tables)
    ensures var own, y := JobOf(s.source, s.options, s.shadowDay), SessionYields(mix, s.options, s.today, found);
            db.tables == Expected(s) <==>
              && SameExports(mix, own)
              && OnlyOwnYields(own, found.dailyYields, y.Keys)
              && forall d | d in y :: d.date < s.today <==> d.date < s.shadowDay
  {
    var own := JobOf(s.source, s.options, s.shadowDay);
    AtCount(mix, db, db.(tables := found));
    OwnRebuildExactlyWhen(mix, own, s.options, s.today, s.shadowDay, db.(tables := found));
    hide At, FinalTables, SessionYields, SameExports, OnlyOwnYields, CopiedDates, ValidRows;
  }

  /** A session whose rebuild ended with a leftover beside its yields does not pass. */
  lemma LeftoverFails(mix: Job, before: Tables, db: Database, s: Session, d: DayKey)
    requires ValidJob(mix) && |mix.rows| == COUNT && mix.rows == s.source.rows && At(mix, db, COUNT, 0)
    requires IsRebuilt(mix, s.options, s.today, before, db.tables) && before.energy == db.tables.energy
    requires IsLeftover(mix, s.options.dateOf, db.tables, d) && CountsYields(s.view)
    ensures !ViewsAgree(s.view, Expected(s), db.tables)
  {
    ExpectedKeys(mix, db, s);
    var copied := CopiedDates(s.options.dateOf, Todo(mix, MONTH));
    RebuiltKeys(s.options.dateOf, s.today, before.energy, copied);
    hide At, Expected, ViewsAgree, ReconstructedDates, ReconstructedYields, CopiedDates, CountsYields, Todo;
    var expected, stored := Expected(s).dailyYields.Keys, db.tables.dailyYields.Keys;
    assert expected <= stored;
    ProperSubset(expected, stored, d);
    if ViewsAgree(s.view, Expected(s), db.tables) { EqualCounts(s.view, Expected(s), db.tables); }
  }

  // ---------------------------------------------------------------- a leftover stays

  lemma LeftoverStays(mix0: Job, mix: Job, dateOf: int -> int, before: Tables, after: Tables, y: map<DayKey, DailyYield>,
                      d: DayKey)
    requires |mix0.rows| == COUNT && mix.rows == mix0.rows && StoresSome(before, after, y)
    requires IsLeftover(mix0, dateOf, before, d)
    ensures IsLeftover(mix, dateOf, after, d) && after.energy == before.energy
  {
    SameTodo(mix0, mix, MONTH);
    hide ReconstructedDates, CopiedDates;
    assert Find(after.dailyYields, d).Some?;
  }

  lemma SameLeftover(mix0: Job, mix: Job, dateOf: int -> int, t: Tables, d: DayKey)
    requires |mix0.rows| == COUNT && mix.rows == mix0.rows && IsLeftover(mix0, dateOf, t, d)
    ensures IsLeftover(mix, dateOf, t, d)
  {
    SameTodo(mix0, mix, MONTH);
  }

  /** One session under any options: the leftover stays, and with its timezone the session does not succeed. */
  method SessionMeetsLeftover(target: WritableTarget, ghost mix0: Job, s: Session, ghost k0: nat, ghost dateOf: int -> int,
                              ghost d: DayKey)
    returns (ending: Ending, ghost mix: Job)
    requires Consistent(mix0, target.committed, COUNT, k0) && ValidSession(s) && target.committed.run.Some?
    requires mix0.fingerprint == s.source.fingerprint ==> mix0.rows == s.source.rows
    requires |mix0.rows| == COUNT && IsLeftover(mix0, dateOf, target.committed.tables, d)
    modifies target
    ensures Consistent(mix, target.committed, COUNT, 0) && target.committed.run.Some?
    ensures |mix.rows| == COUNT && mix.rows == mix0.rows && mix.fingerprint == mix0.fingerprint
    ensures IsLeftover(mix, dateOf, target.committed.tables, d)
    ensures s.options.dateOf == dateOf && CountsYields(s.view) ==> !ending.Succeeded?
  {
    hide At, IsLeftover, StoresSome, IsRebuilt, SessionYields, CountsYields, EndsAlone, OnlyUnder, ViewsAgree, IsCompleted,
         ValidRows, Verifies, AgreeFrom, AgreeBefore;
    ghost var found := target.committed;
    ghost var p, k;
    ending, mix, p, k := RunSession(target, mix0, s, COUNT, k0);
    AtPosition(mix, target.committed, p, k);
    if ending.Refused? {
      SameLeftover(mix0, mix, dateOf, target.committed.tables, d);
    } else {
      LeftoverStays(mix0, mix, dateOf, found.tables, target.committed.tables,
                    SessionYields(mix, s.options, s.today, found.tables), d);
      if ending.Succeeded? && s.options.dateOf == dateOf && CountsYields(s.view) {
        LeftoverFails(mix, found.tables, target.committed, s, d);
        DisagreeingIsNotFinished(s, target.committed);
      }
    }
  }

  /**
   Once all categories are complete and a yield is left under a date that some timezone does not
   expect, no session of that timezone ever succeeds, whatever sessions of any kind come before it.
   */
  method LeftoverNeverCompletes(target: WritableTarget, ghost mix0: Job, sessions: seq<Session>, ghost k0: nat,
                                ghost dateOf: int -> int, ghost d: DayKey)
    returns (endings: seq<Ending>, ghost mix: Job)
    requires Consistent(mix0, target.committed, COUNT, k0) && target.committed.run.Some?
    requires forall i | 0 <= i < |sessions| :: ValidSession(sessions[i])
    requires forall i | 0 <= i < |sessions| ::
               mix0.fingerprint == sessions[i].source.fingerprint ==> mix0.rows == sessions[i].source.rows
    requires |mix0.rows| == COUNT && IsLeftover(mix0, dateOf, target.committed.tables, d)
    modifies target
    ensures |endings| == |sessions| && |mix.rows| == COUNT && IsLeftover(mix, dateOf, target.committed.tables, d)
    ensures forall i | 0 <= i < |sessions| && sessions[i].options.dateOf == dateOf && CountsYields(sessions[i].view) ::
              !endings[i].Succeeded?
  {
    hide *;
    mix, endings := mix0, [];
    ghost var k := k0;
    for n := 0 to |sessions|
      invariant |endings| == n && Consistent(mix, target.committed, COUNT, k) && target.committed.run.Some?
      invariant |mix.rows| == COUNT && mix.rows == mix0.rows && mix.fingerprint == mix0.fingerprint
      invariant IsLeftover(mix, dateOf, target.committed.tables, d)
      invariant forall i | 0 <= i < n && sessions[i].options.dateOf == dateOf && CountsYields(sessions[i].view) ::
                  !endings[i].Succeeded?
    {
      var ending;
      ending, mix := SessionMeetsLeftover(target, mix, sessions[n], k, dateOf, d);
      k := 0;
      endings := endings + [ending];
    }
  }

  // ---------------------------------------------------------------- a session that leaves one

  /** Local dates of ten time units each, and the same half a date ahead. */
  function Home(): int -> int { t => t / 10 }

  function Away(): int -> int { t => (t + 5) / 10 }

  /** Two readings of one inverter on one date at home, on two dates away. */
  function TwoReadings(): map<SampleKey, Energy> {
    map[SampleKey(7, 4) := Energy(Some(100), None), SampleKey(7, 6) := Energy(Some(150), None)]
  }

  function TwoScanned(): seq<DailyYieldRebuild.Sample> {
    [DailyYieldRebuild.Sample(15, 7, 4, Some(100)), DailyYieldRebuild.Sample(15, 7, 6, Some(150))]
  }

  lemma TwoAreScanned()
    ensures TheScan(TwoReadings()) == TwoScanned()
  {
    var energy, s := TwoReadings(), TwoScanned();
    assert s[0] == SampleAt(energy, SampleKey(7, 4)) && s[1] == SampleAt(energy, SampleKey(7, 6));
    assert IsScan(energy, s);
    ScanIsUnique(energy, s, TheScan(energy));
  }

  lemma AwayOutcome()
    ensures OutcomeOf(TwoScanned(), Away(), {}, DayId(15, 7, 1)) == Rebuilt(150, 50)
  {
    var s := TwoScanned();
    var one := s[..1];
    assert one == [s[0]] && one[..0] == [];
    assert Away()(s[0].at) == 0 && Away()(s[1].at) == 1;
    assert Baseline(one, Away(), 15, 1) == Some(100);
    assert Baseline(s, Away(), 15, 1) == Some(100);
    assert LastInDay(s, Away(), 15, 1, 100) == Some(150);
  }

  lemma HomeOutcome(date: int)
    ensures !OutcomeOf(TwoScanned(), Home(), {}, DayId(15, 7, date)).Rebuilt?
  {
    var s := TwoScanned();
    var one := s[..1];
    assert one == [s[0]] && one[..0] == [];
    assert Home()(s[0].at) == 0 && Home()(s[1].at) == 0;
    if date == 0 {
      assert Baseline(one, Home(), 15, 0) == None;
      assert Baseline(s, Home(), 15, 0) == None;
    }
  }

  /** Away the rebuild stores a yield; at home it would store none. */
  lemma AwayYield(today: int)
    ensures DayKey(7, 1) in ReconstructedYields(Away(), today, TwoReadings(), {})
    ensures ReconstructedYields(Away(), today, TwoReadings(), {})[DayKey(7, 1)] == DailyYield(Some(150), Some(50), 1 < today)
    ensures ReconstructedDates(Home(), TwoReadings(), {}) == {}
  {
    TwoAreScanned();
    AwayOutcome();
    forall date: int {
      HomeOutcome(date);
    }
    hide OutcomeOf, TheScan;
    var s := TwoScanned();
    assert DayKey(s[1].serial, Away()(s[1].at)) == DayKey(7, 1);
    assert forall i | 0 <= i < |s| :: s[i].serial == 7;
  }

  /**
   Such a session: it finds all categories complete and copies nothing, its rebuild stores a yield
   that its own timezone expects and the run's does not, and the verification fails it.
   */
  method AwaySessionLeavesAYield(target: WritableTarget, ghost mix0: Job, s: Session, ghost k0: nat)
    returns (ending: Ending, ghost mix: Job)
    requires Consistent(mix0, target.committed, COUNT, k0) && ValidSession(s) && target.committed.run.Some?
    requires mix0.fingerprint == s.source.fingerprint && mix0.rows == s.source.rows && |mix0.rows| == COUNT
    requires Opens(target.committed, s) && s.yieldsBeforeCrash.None? && s.options.dateOf == Away()
    requires s.options.timezone != target.committed.run.value.timezone
    requires Todo(mix0, MONTH) == [] && target.committed.tables.energy == TwoReadings()
    modifies target
    ensures ending.NotVerified? && Consistent(mix, target.committed, COUNT, 0) && target.committed.run.Some?
    ensures |mix.rows| == COUNT && mix.rows == mix0.rows && mix.fingerprint == mix0.fingerprint
    ensures IsLeftover(mix, Home(), target.committed.tables, DayKey(7, 1))
  {
    hide At, StoresSome, IsRebuilt, SessionYields, EndsAlone, OnlyUnder, ViewsAgree, IsCompleted, ValidRows, Verifies,
         AgreeFrom, AgreeBefore, IsLeftover, CopiedDates;
    ghost var found := target.committed;
    ghost var p, k;
    ending, mix, p, k := RunSession(target, mix0, s, COUNT, k0);
    AtPosition(mix, target.committed, p, k);
    SameTodo(mix0, mix, MONTH);
    assert CopiedDates(Away(), []) == {} by { NothingCopied(Away()); }
    assert IsVerdict(ending);
    if ending.Succeeded? { FinishedMatches(s, target.committed); }
    AwayLeavesAYield(mix, s.options, s.today, found.tables, target.committed.tables);
  }

  lemma NothingCopied(dateOf: int -> int)
    ensures CopiedDates(dateOf, []) == {}
  {}

  lemma AwayLeavesAYield(mix: Job, o: Options, today: int, before: Tables, after: Tables)
    requires |mix.rows| == COUNT && Todo(mix, MONTH) == [] && o.dateOf == Away() && before.energy == TwoReadings()
    requires IsRebuilt(mix, o, today, before, after)
    ensures IsLeftover(mix, Home(), after, DayKey(7, 1))
  {
    NothingCopied(Away());
    NothingCopied(Home());
    AwayYield(today);
    hide ReconstructedYields, ReconstructedDates, CopiedDates, Todo, Away, Home, TwoReadings;
  }

  // ---------------------------------------------------------------- a whole history

  function Reading(rowid: int, at: int, total: int): Row { DayRow(rowid, 7, at, Some(Energy(Some(total), None)), None) }

  function Readings(): seq<Row> { [Reading(1, 4, 100), Reading(2, 6, 150)] }

  function Known(): seq<Row> { [InverterRow(1, 7, Identity(None, None, None), None, false, None)] }

  /** A source of one inverter with two readings and no MonthData. */
  function ReadingsSource(): Source { Source(1, [[], Known(), [], [], Readings(), [], [], []]) }

  lemma SourceIsValid()
    ensures ValidRows(ReadingsSource().rows)
  {
    var rows := ReadingsSource().rows;
    assert rows[1] == Known() && rows[4] == Readings();
    forall c | 0 <= c < |CATEGORIES|
      ensures Ascending(rows[c], KeyOf)
      ensures forall i | 0 <= i < |rows[c]| ::
                CategoryOf(rows[c][i]) == CATEGORIES[c] && IsI64(KeyOf(rows[c][i]).a) && IsI64(KeyOf(rows[c][i]).b)
                && IsI64(KeyOf(rows[c][i]).c)
    {
      assert c == 1 || c == 4 || rows[c] == [];
    }
  }

  lemma NothingSkipped(job: Job, c: nat)
    requires job.rows == ReadingsSource().rows && c < COUNT
    ensures Todo(job, c) == if c == 1 then Known() else if c == 4 then Readings() else []
  {
    assert c == 1 || c == 4 || job.rows[c] == [];
  }

  lemma NextTables(job: Job, c: nat)
    requires |job.rows| == COUNT && c < COUNT
    ensures TablesBefore(job, c + 1) == Effects(job, Todo(job, c), TablesBefore(job, c))
  {
    hide Todo, Effects;
  }

  lemma NoEffects(job: Job, t: Tables)
    ensures Effects(job, [], t) == t
  {}

  lemma TwoEffects(job: Job, a: Row, b: Row, t: Tables)
    ensures Effects(job, [a, b], t) == Effect(job, b, Effect(job, a, t))
  {
    OneEffect(job, a, t);
    hide Effect;
    assert [a, b][..1] == [a];
  }

  lemma KnownEffect(job: Job, t: Tables)
    ensures 7 in Effects(job, Known(), t).inverters && Effects(job, Known(), t).energy == t.energy
  {
    OneEffect(job, Known()[0], t);
    hide Effects, SeenRange, AllRows, WritesLatest;
  }

  lemma ReadingsEffect(job: Job, t: Tables)
    ensures t.energy == map[] ==> Effects(job, Readings(), t).energy == TwoReadings()
    ensures Effects(job, Readings(), t).inverters == t.inverters
  {
    var a, b := Readings()[0], Readings()[1];
    TwoEffects(job, a, b, t);
    ReadingEffect(job, 1, 4, 100, t);
    ReadingEffect(job, 2, 6, 150, Effect(job, a, t));
    hide Effects, Effect;
  }

  lemma ReadingEffect(job: Job, rowid: int, at: int, total: int, t: Tables)
    ensures var u := Effect(job, Reading(rowid, at, total), t);
            u.energy == t.energy[SampleKey(7, at) := Energy(Some(total), None)] && u.inverters == t.inverters
  {}

  lemma NoTables(job: Job)
    requires |job.rows| == COUNT
    ensures TablesBefore(job, 0).energy == map[]
  {}

  lemma {:induction false} StoredReadings(job: Job, c: nat)
    requires job.rows == ReadingsSource().rows && |job.rows| == COUNT && c <= COUNT
    ensures c >= 2 ==> 7 in TablesBefore(job, c).inverters
    ensures TablesBefore(job, c).energy == if c > 4 then TwoReadings() else map[]
  {
    hide *;
    if c == 0 {
      NoTables(job);
    } else {
      var t := TablesBefore(job, c - 1);
      StoredReadings(job, c - 1);
      NextTables(job, c - 1);
      NothingSkipped(job, c - 1);
      if c == 2 {
        KnownEffect(job, t);
      } else if c == 5 {
        ReadingsEffect(job, t);
      } else {
        NoEffects(job, t);
      }
    }
  }

  lemma RowsAreOk(job: Job, inverters: set<int>)
    ensures RowsSucceed(job, [], inverters) && RowsSucceed(job, Known(), inverters)
    ensures 7 in inverters ==> RowsSucceed(job, Readings(), inverters)
  {
    hide SpotTimestampExists;
  }

  lemma ReadingsSucceed(job: Job)
    requires job.rows == ReadingsSource().rows && |job.rows| == COUNT
    ensures EveryRowSucceeds(job)
  {
    hide TablesBefore, Todo, RowsSucceed, ReadingsSource, Known, Readings;
    forall c: nat | c < COUNT
      ensures RowsSucceed(job, Todo(job, c), TablesBefore(job, c).inverters.Keys)
    {
      NothingSkipped(job, c);
      StoredReadings(job, c);
      RowsAreOk(job, TablesBefore(job, c).inverters.Keys);
    }
  }

  lemma HomeSession(s: Session)
    requires s.source == ReadingsSource() && (s.options.dateOf == Home() || s.options.dateOf == Away())
    ensures ValidSession(s) && |s.source.rows| == COUNT && s.source.fingerprint == 1
    ensures s.faults == [] && s.yieldsBeforeCrash.None? ==> Undisturbed(s)
  {
    SourceIsValid();
    ReadingsSucceed(JobFor(s));
    hide EveryRowSucceeds, ReadingsSource, ValidRows;
    assert Monotone(Home()) && Monotone(Away());
  }

  /** What a first session at home leaves when the checks of the engines fail. */
  lemma HomeIsCopied(mix: Job, s: Session, ending: Ending, db: Database, p: nat, k: nat)
    requires |mix.rows| == |s.source.rows| == COUNT && mix.rows == s.source.rows == ReadingsSource().rows && !ending.Refused?
    requires EndsAlone(mix, s, ending, db) && Undisturbed(s) && !s.engineChecks
    requires StoresItsYields(mix, s, 0, NO_TABLES, ending, p, db.tables)
    requires Consistent(mix, db, p, k) && OnlyUnder(s.options, mix, db, p) && db.run.Some?
    requires mix.fingerprint == s.source.fingerprint
    ensures ending.NotVerified? && p == COUNT && db.tables.energy == TwoReadings() && Todo(mix, MONTH) == []
    ensures db.run.value.timezone == s.options.timezone && db.run.value.fingerprint == s.source.fingerprint
  {
    StoredReadings(mix, COUNT);
    NothingSkipped(mix, MONTH);
    hide TablesBefore, Todo, ReconstructedYields, CopiedDates, At, OneZone, HasFinalTables, ViewsAgree, FlagsAgree, Expected,
         IsCompleted, IsUniform, SkippedTotal, ReadingsSource, TwoReadings, EveryRowSucceeds, FinalTables, ValidRows;
  }

  /**
   From a new target: a session at home is not verified, a session away resumes and is not verified
   either, and from then on no session at home succeeds, whatever sessions come between.
   */
  method LeaveAndReturn(home: Session, away: Session, later: seq<Session>)
    returns (first: Ending, second: Ending, endings: seq<Ending>)
    requires home.source == away.source == ReadingsSource() && home.options.dateOf == Home() && away.options.dateOf == Away()
    requires home.mode.Execute? && away.mode.Resume? && home.batchSize > 0 && away.batchSize > 0
    requires home.faults == [] && home.yieldsBeforeCrash.None? && away.yieldsBeforeCrash.None? && !home.engineChecks
    requires home.options.timezone != away.options.timezone
    requires forall i | 0 <= i < |later| :: ValidSession(later[i])
    requires forall i | 0 <= i < |later| :: later[i].source.fingerprint == 1 ==> later[i].source == ReadingsSource()
    ensures first.NotVerified? && second.NotVerified? && |endings| == |later|
    ensures forall i | 0 <= i < |later| && later[i].options.dateOf == Home() && CountsYields(later[i].view) ::
              !endings[i].Succeeded?
  {
    hide *;
    SourceIsValid();
    HomeSession(home);
    HomeSession(away);
    NewTargetIsConsistent(home.source, home.options, home.today);
    NothingCommitted(home);
    var target := new WritableTarget();
    target.Execute(NO_DATABASE);
    ghost var mix, p, k;
    first, mix, p, k := RunSession(target, JobFor(home), home, 0, 0);
    HomeIsCopied(mix, home, first, target.committed, p, k);
    ResumeOpens(target.committed, away, mix, p, k);
    second, mix := AwaySessionLeavesAYield(target, mix, away, k);
    endings, mix := LeftoverNeverCompletes(target, mix, later, 0, Home(), DayKey(7, 1));
  }

  lemma NothingCommitted(s: Session)
    ensures NO_DATABASE.run.None? && NO_DATABASE.tables == NO_TABLES && JobFor(s) == JobOf(s.source, s.options, s.today)
    ensures JobFor(s).rows == s.source.rows && JobFor(s).fingerprint == s.source.fingerprint
    ensures s.mode.Execute? && s.batchSize > 0 ==> Opens(NO_DATABASE, s)
  {}
}
