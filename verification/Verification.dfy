/**
 The verification that a run has to pass before it may complete: the run and its optional tables
 against the session's options, the checkpoints against the source, and every canonical table
 against a second migration of the source into a new target.
 */
module Verification {
  import opened Wrappers
  import opened Bits
  import opened Canonical
  import opened MigrationRun
  import opened DailyYieldRebuild
  import opened RebuiltYields
  import opened LastWriter
  import opened Migrator
  import opened Checksum
  import opened TableCheck
  import opened Orchestrate

  /** How the verifier reads the canonical tables: how many there are, and the rows of each in key order. */
  datatype View = View(count: nat, rows: (nat, Tables) -> seq<TableRow>)

  const U64_MAX: int := 0xFFFF_FFFF_FFFF_FFFF

  // ---------------------------------------------------------------- the run and its checkpoints

  /** The run was created in the session's timezone and the target has the optional table the session asks for. */
  predicate RunMatches(db: Database, o: Options) {
    db.run.Some? && db.run.value.timezone == o.timezone && db.exportsTable == o.legacyPvOutput
  }

  /** The rows a completed checkpoint counts; a category that is not completed counts as the largest number. */
  function CheckpointCount(db: Database, c: Category): int {
    if c in db.checkpoints && db.checkpoints[c].completed && db.checkpoints[c].rowsProcessed >= 0
    then db.checkpoints[c].rowsProcessed
    else U64_MAX
  }

  predicate CountsMatch(db: Database, rows: seq<seq<Row>>)
    requires |rows| == COUNT
  {
    forall c: nat | c < COUNT :: CheckpointCount(db, CATEGORIES[c]) == |rows[c]|
  }

  method CheckCounts(db: Database, rows: seq<seq<Row>>) returns (ok: bool)
    requires |rows| == COUNT
    ensures ok <==> CountsMatch(db, rows)
  {
    ok := true;
    for c := 0 to COUNT
      invariant ok <==> forall i: nat | i < c :: CheckpointCount(db, CATEGORIES[i]) == |rows[i]|
    {
      if CheckpointCount(db, CATEGORIES[c]) != |rows[c]| { ok := false; }
    }
  }

  /** The category is completed and counts this many rows. */
  predicate IsCompletedWith(db: Database, c: Category, n: nat) {
    c in db.checkpoints && db.checkpoints[c].completed && db.checkpoints[c].rowsProcessed == n
  }

  /** The counts match exactly when every category is completed and counts as many rows as the source has. */
  lemma CountsNeedCompletion(db: Database, rows: seq<seq<Row>>)
    requires |rows| == COUNT && forall c: nat | c < COUNT :: |rows[c]| < U64_MAX
    ensures CountsMatch(db, rows) <==> forall c: nat | c < COUNT :: IsCompletedWith(db, CATEGORIES[c], |rows[c]|)
  {
    forall c: nat | c < COUNT
      ensures CheckpointCount(db, CATEGORIES[c]) == |rows[c]| <==> IsCompletedWith(db, CATEGORIES[c], |rows[c]|)
    {
    }
  }

  lemma {:induction false} NoneSkipped(job: Job, p: nat)
    requires p <= |job.rows| == COUNT
    ensures SkippedTotal(job, p) == 0 <==> forall c: nat | c < p :: Skipped(job, c) == 0
  {
    hide Skipped;
    if p > 0 { NoneSkipped(job, p - 1); }
  }

  /** After the last category the counts match if and only if no row of the source was skipped. */
  lemma CountsMatchExactlyWhen(job: Job, db: Database)
    requires ValidJob(job) && At(job, db, COUNT, 0)
    ensures CountsMatch(db, job.rows) <==> SkippedTotal(job, COUNT) == 0
  {
    NoneSkipped(job, COUNT);
    forall c: nat | c < COUNT
      ensures CheckpointCount(db, CATEGORIES[c]) == |job.rows[c]| <==> Skipped(job, c) == 0
    {
      assert CategoryAt(job, db, COUNT, 0, c);
    }
  }

  // ---------------------------------------------------------------- the tables

  /** A table check and all its samples pass: equal counts, equal checksums, and equal checksums of the sampled rows. */
  predicate TableAgrees(expected: seq<TableRow>, actual: seq<TableRow>) {
    && Passes(expected, actual)
    && forall k | 0 <= k < |SamplePositions(|expected|)| :: SampledAlike(expected, actual, SamplePositions(|expected|)[k])
  }

  predicate SampledAlike(expected: seq<TableRow>, actual: seq<TableRow>, position: Position) {
    && position.index < |expected| && position.index < |actual|
    && RowChecksum(expected[position.index]) == RowChecksum(actual[position.index])
  }

  lemma EqualTablesAgree(rows: seq<TableRow>)
    ensures TableAgrees(rows, rows)
  {
    SamplePositionsSpread(|rows|);
    hide SamplePositions, Fnv, EncodeTable;
  }

  method AgreeOn(expected: seq<TableRow>, actual: seq<TableRow>) returns (ok: bool)
    ensures ok <==> TableAgrees(expected, actual)
  {
    hide Passes, SamplePositions, RowChecksum;
    var passed, samples := CheckTable(expected, actual);
    ok := passed;
    for k := 0 to |samples|
      invariant ok <==> passed && forall j | 0 <= j < k ::
                          SampledAlike(expected, actual, SamplePositions(|expected|)[j])
    {
      if !samples[k].passed { ok := false; }
    }
  }

  method CompareTables(view: View, expected: Tables, actual: Tables) returns (ok: bool)
    ensures ok <==> ViewsAgree(view, expected, actual)
  {
    hide TableAgrees;
    ok := true;
    for i := 0 to view.count
      invariant ok <==> forall j: nat | j < i :: TableAgrees(view.rows(j, expected), view.rows(j, actual))
    {
      var same := AgreeOn(view.rows(i, expected), view.rows(i, actual));
      ok := ok && same;
    }
  }

  /** Every canonical table agrees with the expected one. */
  predicate ViewsAgree(view: View, expected: Tables, actual: Tables) {
    forall i: nat | i < view.count :: TableAgrees(view.rows(i, expected), view.rows(i, actual))
  }

  lemma EqualViewsAgree(view: View, t: Tables)
    ensures ViewsAgree(view, t, t)
  {
    forall i: nat | i < view.count
      ensures TableAgrees(view.rows(i, t), view.rows(i, t))
    {
      EqualTablesAgree(view.rows(i, t));
    }
  }

  // ---------------------------------------------------------------- a differing completeness

  /** A table with this text in one cell. */
  function Around(above: seq<TableRow>, left: TableRow, text: seq<byte>, right: TableRow, below: seq<TableRow>): seq<TableRow> {
    above + [left + [Some(text)] + right] + below
  }

  /** The rows are equal but for one text of one byte. */
  ghost predicate OneByteApart(x: seq<TableRow>, y: seq<TableRow>) {
    exists above, left, b, c, right, below ::
      b != c && x == Around(above, left, [b], right, below) && y == Around(above, left, [c], right, below)
  }

  lemma OneByteApartFails(x: seq<TableRow>, y: seq<TableRow>)
    requires OneByteApart(x, y)
    ensures !TableAgrees(x, y)
  {
    var above, left, b, c, right, below :|
      b != c && x == Around(above, left, [b], right, below) && y == Around(above, left, [c], right, below);
    ChangedByteFails(above, left, [], b, c, [], right, below);
    assert [] + [b] + [] == [b] && [] + [c] + [] == [c];
    hide Passes, SamplePositions;
  }

  function WithFlag(t: Tables, d: DayKey, complete: bool): Tables
    requires d in t.dailyYields
  {
    t.(dailyYields := t.dailyYields[d := t.dailyYields[d].(complete := complete)])
  }

  /** Table `i` shows the completeness of every stored yield as one byte. */
  ghost predicate ShowsFlags(view: View, i: nat) {
    forall t: Tables, d | d in t.dailyYields ::
      OneByteApart(view.rows(i, WithFlag(t, d, false)), view.rows(i, WithFlag(t, d, true)))
  }

  ghost predicate ShowsCompleteness(view: View) { exists i: nat | i < view.count :: ShowsFlags(view, i) }

  /** Tables that differ in one completeness never pass. */
  lemma OneFlagFails(view: View, t: Tables, d: DayKey, complete: bool)
    requires ShowsCompleteness(view) && d in t.dailyYields
    ensures !ViewsAgree(view, WithFlag(t, d, complete), WithFlag(t, d, !complete))
  {
    var i: nat :| i < view.count && ShowsFlags(view, i);
    var x, y := view.rows(i, WithFlag(t, d, false)), view.rows(i, WithFlag(t, d, true));
    assert OneByteApart(x, y);
    OneByteApartTurns(x, y);
    OneByteApartFails(x, y);
    OneByteApartFails(y, x);
  }

  lemma OneByteApartTurns(x: seq<TableRow>, y: seq<TableRow>)
    requires OneByteApart(x, y)
    ensures OneByteApart(y, x)
  {
    hide Around;
    var above, left, b, c, right, below :|
      b != c && x == Around(above, left, [b], right, below) && y == Around(above, left, [c], right, below);
  }

  // ---------------------------------------------------------------- how the verifier lists the yields

  /** The dates by serial and date. */
  ghost function InOrder(dates: set<DayKey>): (r: seq<DayKey>)
    ensures forall d :: d in r <==> d in dates
    ensures |r| == |dates| && forall i, j | 0 <= i < j < |r| :: r[i] != r[j]
    decreases dates
  {
    if dates == {} then []
    else
      FirstCopiedExists(dates);
      var d :| FirstCopied(dates, d);
      [d] + InOrder(dates - {d})
  }

  function CellText(c: Cell, text: int -> seq<byte>): Option<seq<byte>> {
    if c.Some? then Some(text(c.value)) else None
  }

  function FlagText(complete: bool): seq<byte> { if complete then [0x31] else [0x30] }

  function KeyText(d: DayKey, y: DailyYield, text: int -> seq<byte>): TableRow {
    [Some(text(d.serial)), Some(text(d.date)), CellText(y.total, text), CellText(y.daily, text)]
  }

  function YieldLine(d: DayKey, y: DailyYield, text: int -> seq<byte>): TableRow {
    KeyText(d, y, text) + [Some(FlagText(y.complete))]
  }

  /** Serial, date, total, daily energy and completeness of every yield, in the order of these dates. */
  ghost function YieldRows(dates: seq<DayKey>, stored: map<DayKey, DailyYield>, text: int -> seq<byte>): (r: seq<TableRow>)
    requires forall d | d in dates :: d in stored
    ensures |r| == |dates| && forall i | 0 <= i < |r| :: r[i] == YieldLine(dates[i], stored[dates[i]], text)
  {
    seq(|dates|, i requires 0 <= i < |dates| => YieldLine(dates[i], stored[dates[i]], text))
  }

  lemma OneLineApart(x: seq<TableRow>, y: seq<TableRow>, i: nat, left: TableRow, b: byte, c: byte)
    requires i < |x| == |y| && forall j | 0 <= j < |x| && j != i :: x[j] == y[j]
    requires x[i] == left + [Some([b])] && y[i] == left + [Some([c])] && b != c
    ensures OneByteApart(x, y)
  {
    var above, below := x[..i], x[i + 1..];
    assert left + [Some([b])] + [] == x[i] && left + [Some([c])] + [] == y[i];
    assert x == Around(above, left, [b], [], below);
    assert y == Around(above, left, [c], [], below);
  }

  lemma OneFlagApart(dates: seq<DayKey>, x: map<DayKey, DailyYield>, y: map<DayKey, DailyYield>, i: nat, text: int -> seq<byte>)
    requires forall e | e in dates :: e in x && e in y
    requires i < |dates| && forall j | 0 <= j < |dates| && j != i :: x[dates[j]] == y[dates[j]]
    requires !x[dates[i]].complete && y[dates[i]] == x[dates[i]].(complete := true)
    ensures OneByteApart(YieldRows(dates, x, text), YieldRows(dates, y, text))
  {
    var d := dates[i];
    KeyTextIgnoresFlag(d, x[d], y[d], text);
    hide KeyText, YieldRows;
    OneLineApart(YieldRows(dates, x, text), YieldRows(dates, y, text), i, KeyText(d, x[d], text), 0x30, 0x31);
  }

  /** Such a listing shows the completeness of every yield. */
  lemma ListingShowsCompleteness(t: Tables, d: DayKey, text: int -> seq<byte>)
    requires d in t.dailyYields
    ensures var dates := InOrder(t.dailyYields.Keys);
            && (forall e | e in dates :: e in WithFlag(t, d, false).dailyYields && e in WithFlag(t, d, true).dailyYields)
            && OneByteApart(YieldRows(dates, WithFlag(t, d, false).dailyYields, text),
                            YieldRows(dates, WithFlag(t, d, true).dailyYields, text))
  {
    hide InOrder, YieldRows, OneByteApart;
    var dates := InOrder(t.dailyYields.Keys);
    var i :| 0 <= i < |dates| && dates[i] == d;
    OneFlagApart(dates, WithFlag(t, d, false).dailyYields, WithFlag(t, d, true).dailyYields, i, text);
  }

  /** The view of a verifier that lists the yields and nothing else. */
  ghost function YieldsView(text: int -> seq<byte>): View {
    View(1, (i, t: Tables) => YieldRows(InOrder(t.dailyYields.Keys), t.dailyYields, text))
  }

  lemma YieldsViewShowsCompleteness(text: int -> seq<byte>)
    ensures ShowsCompleteness(YieldsView(text))
  {
    hide OneByteApart;
    var view := YieldsView(text);
    forall t: Tables, d | d in t.dailyYields
      ensures OneByteApart(view.rows(0, WithFlag(t, d, false)), view.rows(0, WithFlag(t, d, true)))
    {
      ListingShowsCompleteness(t, d, text);
      ListedAgain(t, d, false, text);
      ListedAgain(t, d, true, text);
      hide *;
    }
    assert ShowsFlags(view, 0);
  }

  lemma ListedAgain(t: Tables, d: DayKey, complete: bool, text: int -> seq<byte>)
    requires d in t.dailyYields
    ensures var dates, flagged := InOrder(t.dailyYields.Keys), WithFlag(t, d, complete);
            && (forall e | e in dates :: e in flagged.dailyYields)
            && YieldsView(text).rows(0, flagged) == YieldRows(dates, flagged.dailyYields, text)
  {
    assert WithFlag(t, d, complete).dailyYields.Keys == t.dailyYields.Keys;
    hide InOrder, YieldRows;
  }

  lemma KeyTextIgnoresFlag(d: DayKey, x: DailyYield, y: DailyYield, text: int -> seq<byte>)
    requires x.total == y.total && x.daily == y.daily
    ensures KeyText(d, x, text) == KeyText(d, y, text)
  {}

  // ---------------------------------------------------------------- the whole verification

  /** The tables that an undisturbed migration of the source within one day ends with. */
  ghost function FinalOf(source: Source, o: Options, day: int): Tables
    requires |source.rows| == COUNT
  {
    FinalTables(JobOf(source, o, day), o.dateOf, day)
  }

  /** What verification asks of a database: `day` is that of the second migration. */
  ghost predicate Verifies(db: Database, source: Source, o: Options, day: int, view: View)
    requires |source.rows| == COUNT
  {
    RunMatches(db, o) && CountsMatch(db, source.rows) && ViewsAgree(view, FinalOf(source, o, day), db.tables)
  }

  lemma StartsUniform(source: Source, o: Options, day: int)
    requires ValidRows(source.rows)
    ensures var job := JobOf(source, o, day);
            && ValidJob(job) && MigrationRun.Position(job, 0, 0) && IsOneDay(job, o, day) && AgreeFrom(job, job, 0, 0)
            && At(job, NO_DATABASE.(exportsTable := o.legacyPvOutput), 0, 0)
  {
    var job := JobOf(source, o, day);
    AtStart(job);
    hide Todo;
    forall c: nat | c < COUNT
      ensures CategoryAt(job, NO_DATABASE.(exportsTable := o.legacyPvOutput), 0, 0, c)
    {
      assert CategoryAt(job, NO_DATABASE, 0, 0, c);
    }
  }

  /** Migrates the source once more, into a new target and without verification, with a clock of its own. */
  method MigrateShadow(source: Source, o: Options, day: int) returns (expected: Option<Tables>)
    requires ValidRows(source.rows) && Monotone(o.dateOf)
    ensures expected.Some? ==> expected.value == FinalOf(source, o, day)
    ensures EveryRowSucceeds(JobOf(source, o, day)) ==> expected.Some?
  {
    hide At, EveryRowSucceeds, FinalTables, IsUniform, AgreeFrom;
    StartsUniform(source, o, day);
    var shadow := new WritableTarget();
    shadow.Execute(NO_DATABASE.(exportsTable := o.legacyPvOutput));
    var job := JobOf(source, o, day);
    var ending, p, k := Copy(shadow, job, job, o, day, DEFAULT_BATCH_SIZE, [], None, 0, 0);
    expected := if ending.Some? then None else Some(shadow.committed.tables);
  }

  /**
   `verify_for_run`. `engineChecks` stands for the checks that only the database engines can make:
   foreign keys, text storage, the optional table of daily statistics, and the hook before verification.
   */
  method Verify(db: Database, source: Source, o: Options, day: int, view: View, engineChecks: bool) returns (passed: bool)
    requires ValidRows(source.rows) && Monotone(o.dateOf)
    ensures passed ==> engineChecks && Verifies(db, source, o, day, view)
    ensures engineChecks && Verifies(db, source, o, day, view) && EveryRowSucceeds(JobOf(source, o, day)) ==> passed
  {
    hide EveryRowSucceeds, FinalOf, CountsMatch, TableAgrees;
    if !(db.run.Some? && db.run.value.timezone == o.timezone && db.exportsTable == o.legacyPvOutput) { return false; }
    var expected := MigrateShadow(source, o, day);
    if expected.None? { return false; }
    var counts := CheckCounts(db, source.rows);
    var tables := CompareTables(view, expected.value, db.tables);
    passed := counts && tables && engineChecks;
  }
}
