/**
 Which row wrote a daily yield or an export last, and when two migrations of one source, under
 other options or on other days, end in the same tables.
 */
module LastWriter {
  import opened Wrappers
  import opened Keyset
  import opened Canonical
  import opened MigrationRun
  import opened DailyYieldRebuild
  import opened RebuiltYields

  const DAY: nat := 4

  // ---------------------------------------------------------------- the last writer of a key

  /** The last row that stores a yield under this date. */
  function LastMonthRow(job: Job, rows: seq<Row>, d: DayKey): (r: Option<Row>)
    ensures r.Some? ==> r.value in rows && r.value.MonthRow? && r.value.rollup.Some? && MonthKey(job, r.value) == d
  {
    if rows == [] then None
    else
      var last := rows[|rows| - 1];
      if last.MonthRow? && last.rollup.Some? && MonthKey(job, last) == d then Some(last)
      else LastMonthRow(job, rows[..|rows| - 1], d)
  }

  function LastYield(job: Job, rows: seq<Row>, d: DayKey): Option<DailyYield> {
    var last := LastMonthRow(job, rows, d);
    if last.Some? then Some(MonthYield(job, last.value)) else None
  }

  predicate StoresExport(job: Job, row: Row) {
    row.DayRow? && row.sample.Some? && row.pvoutput.Some? && job.options(row).legacyPvOutput
  }

  /** The export that the last exporting row stores under this sample. */
  function LastExport(job: Job, rows: seq<Row>, k: SampleKey): Option<Export> {
    if rows == [] then None
    else
      var last := rows[|rows| - 1];
      if StoresExport(job, last) && SampleKey(last.serial, last.measuredAt) == k
      then Some(ExportOf(last.measuredAt, last.pvoutput.value))
      else LastExport(job, rows[..|rows| - 1], k)
  }

  lemma {:induction false} YieldsByLastWriter(job: Job, rows: seq<Row>, t: Tables, d: DayKey)
    ensures var last := LastYield(job, rows, d);
            Find(Effects(job, rows, t).dailyYields, d) == if last.Some? then last else Find(t.dailyYields, d)
  {
    if rows != [] {
      YieldsByLastWriter(job, rows[..|rows| - 1], t, d);
      YieldOfOne(job, rows[|rows| - 1], Effects(job, rows[..|rows| - 1], t), d);
      hide Effect, MonthYield, MonthKey;
    }
  }

  lemma YieldOfOne(job: Job, row: Row, t: Tables, d: DayKey)
    ensures Find(Effect(job, row, t).dailyYields, d) ==
            if row.MonthRow? && row.rollup.Some? && MonthKey(job, row) == d then Some(MonthYield(job, row))
            else Find(t.dailyYields, d)
  {}

  lemma {:induction false} ExportsByLastWriter(job: Job, rows: seq<Row>, t: Tables, k: SampleKey)
    ensures var last := LastExport(job, rows, k);
            Find(Effects(job, rows, t).exports, k) == if last.Some? then last else Find(t.exports, k)
  {
    if rows != [] {
      ExportsByLastWriter(job, rows[..|rows| - 1], t, k);
      ExportOfOne(job, rows[|rows| - 1], Effects(job, rows[..|rows| - 1], t), k);
      hide Effect, StoresExport, ExportOf;
    }
  }

  lemma ExportOfOne(job: Job, row: Row, t: Tables, k: SampleKey)
    ensures Find(Effect(job, row, t).exports, k) ==
            if StoresExport(job, row) && SampleKey(row.serial, row.measuredAt) == k
            then Some(ExportOf(row.measuredAt, row.pvoutput.value))
            else Find(t.exports, k)
  {}

  // ---------------------------------------------------------------- at a position of the run

  /** The rows of category `c` before position `(p, k)`. */
  function RowsBefore(job: Job, p: nat, k: nat, c: nat): seq<Row>
    requires c < |job.rows| == COUNT && Reached(job, p, k, c) <= |Todo(job, c)|
  {
    Todo(job, c)[..Reached(job, p, k, c)]
  }

  lemma ReachedFits(job: Job, p: nat, k: nat, c: nat)
    requires c < |job.rows| == COUNT && Position(job, p, k)
    ensures Reached(job, p, k, c) <= |Todo(job, c)| && (p < COUNT ==> k <= |Todo(job, p)|)
  {
    hide Todo;
  }

  /** The tables at position `(p, k)`, daily yields as the copy leaves them. */
  function TablesOf(job: Job, p: nat, k: nat): Tables
    requires |job.rows| == COUNT && (p < COUNT ==> k <= |Todo(job, p)|)
  {
    TablesUpTo(job, p, k, COUNT)
  }

  /** The tables after the first `to` categories, as far as position `(p, k)` reaches into them. */
  function Folded(job: Job, p: nat, k: nat, to: nat): Tables
    requires to <= |job.rows| == COUNT && forall c: nat | c < COUNT :: Reached(job, p, k, c) <= |Todo(job, c)|
  {
    if to == 0 then NO_TABLES else Effects(job, RowsBefore(job, p, k, to - 1), Folded(job, p, k, to - 1))
  }

  lemma {:induction false} FoldedIsUpTo(job: Job, p: nat, k: nat, to: nat)
    requires |job.rows| == COUNT && Position(job, p, k) && to <= COUNT
    requires forall c: nat | c < COUNT :: Reached(job, p, k, c) <= |Todo(job, c)|
    requires p < COUNT ==> k <= |Todo(job, p)|
    ensures Folded(job, p, k, to) == TablesUpTo(job, p, k, to)
  {
    hide Todo, Effect;
    if to > 0 {
      FoldedIsUpTo(job, p, k, to - 1);
      var c := to - 1;
      if c < p { assert Todo(job, c)[..|Todo(job, c)|] == Todo(job, c); }
    }
  }

  lemma {:induction false} NoYieldElsewhere(job: Job, rows: seq<Row>, c: Category, d: DayKey)
    requires AllOf(rows, c) && !c.MonthData?
    ensures LastYield(job, rows, d) == None
  {
    if rows != [] {
      assert CategoryOf(rows[|rows| - 1]) == c;
      NoYieldElsewhere(job, rows[..|rows| - 1], c, d);
    }
  }

  lemma {:induction false} NoExportElsewhere(job: Job, rows: seq<Row>, c: Category, k: SampleKey)
    requires AllOf(rows, c) && !c.DayData?
    ensures LastExport(job, rows, k) == None
  {
    if rows != [] {
      assert CategoryOf(rows[|rows| - 1]) == c;
      NoExportElsewhere(job, rows[..|rows| - 1], c, k);
    }
  }

  lemma FoldStep(job: Job, p: nat, k: nat, to: nat)
    requires 0 < to <= |job.rows| == COUNT && forall c: nat | c < COUNT :: Reached(job, p, k, c) <= |Todo(job, c)|
    ensures Folded(job, p, k, to) == Effects(job, RowsBefore(job, p, k, to - 1), Folded(job, p, k, to - 1))
  {
    hide Todo, Effects;
  }

  lemma RowsOfCategory(job: Job, p: nat, k: nat, c: nat)
    requires ValidJob(job) && c < COUNT && Reached(job, p, k, c) <= |Todo(job, c)|
    ensures |CATEGORIES| == COUNT && AllOf(RowsBefore(job, p, k, c), CATEGORIES[c])
    ensures c != MONTH ==> !CATEGORIES[c].MonthData?
    ensures c != DAY ==> !CATEGORIES[c].DayData?
  {
    TodoCategory(job, c, Reached(job, p, k, c));
  }

  lemma NothingFolded(job: Job, p: nat, k: nat, d: DayKey, s: SampleKey)
    requires |job.rows| == COUNT && forall c: nat | c < COUNT :: Reached(job, p, k, c) <= |Todo(job, c)|
    ensures Find(Folded(job, p, k, 0).dailyYields, d) == None && Find(Folded(job, p, k, 0).exports, s) == None
  {}

  lemma {:induction false} FoldedYields(job: Job, p: nat, k: nat, to: nat, d: DayKey)
    requires ValidJob(job) && to <= COUNT && forall c: nat | c < COUNT :: Reached(job, p, k, c) <= |Todo(job, c)|
    ensures Find(Folded(job, p, k, to).dailyYields, d) ==
            if to <= MONTH then None else LastYield(job, RowsBefore(job, p, k, MONTH), d)
  {
    hide *;
    EightTables(job);
    if to == 0 {
      NothingFolded(job, p, k, d, SampleKey(0, 0));
    } else {
      var c := to - 1;
      FoldedYields(job, p, k, c, d);
      FoldStep(job, p, k, to);
      YieldsByLastWriter(job, RowsBefore(job, p, k, c), Folded(job, p, k, c), d);
      RowsOfCategory(job, p, k, c);
      if c != MONTH { NoYieldElsewhere(job, RowsBefore(job, p, k, c), CATEGORIES[c], d); }
    }
  }

  lemma {:induction false} FoldedExports(job: Job, p: nat, k: nat, to: nat, s: SampleKey)
    requires ValidJob(job) && to <= COUNT && forall c: nat | c < COUNT :: Reached(job, p, k, c) <= |Todo(job, c)|
    ensures Find(Folded(job, p, k, to).exports, s) ==
            if to <= DAY then None else LastExport(job, RowsBefore(job, p, k, DAY), s)
  {
    hide *;
    EightTables(job);
    if to == 0 {
      NothingFolded(job, p, k, DayKey(0, 0), s);
    } else {
      var c := to - 1;
      FoldedExports(job, p, k, c, s);
      FoldStep(job, p, k, to);
      ExportsByLastWriter(job, RowsBefore(job, p, k, c), Folded(job, p, k, c), s);
      RowsOfCategory(job, p, k, c);
      if c != DAY { NoExportElsewhere(job, RowsBefore(job, p, k, c), CATEGORIES[c], s); }
    }
  }

  // ---------------------------------------------------------------- what the options do not touch

  function Rest(t: Tables): Tables { t.(dailyYields := map[], exports := map[]) }

  lemma RestOfOne(a: Job, b: Job, row: Row, t: Tables, u: Tables)
    requires a.rows == b.rows && Rest(t) == Rest(u)
    ensures Rest(Effect(a, row, t)) == Rest(Effect(b, row, u))
  {}

  lemma {:induction false} RestOfRows(a: Job, b: Job, rows: seq<Row>, t: Tables, u: Tables)
    requires a.rows == b.rows && Rest(t) == Rest(u)
    ensures Rest(Effects(a, rows, t)) == Rest(Effects(b, rows, u))
  {
    hide Effect, Rest;
    if rows != [] {
      var front := rows[..|rows| - 1];
      RestOfRows(a, b, front, t, u);
      RestOfOne(a, b, rows[|rows| - 1], Effects(a, front, t), Effects(b, front, u));
    }
  }

  lemma {:induction false} RestIsShared(a: Job, b: Job, p: nat, k: nat, to: nat)
    requires a.rows == b.rows && to <= |a.rows| == COUNT
    requires forall c: nat | c < COUNT :: Reached(a, p, k, c) <= |Todo(a, c)|
    requires forall c: nat | c < COUNT :: Reached(b, p, k, c) <= |Todo(b, c)|
    ensures Rest(Folded(a, p, k, to)) == Rest(Folded(b, p, k, to))
  {
    hide Effects, Rest, Todo;
    if to > 0 {
      SameTodo(a, b, to - 1);
      SameTodoReached(a, b, p, k, to - 1);
      RestIsShared(a, b, p, k, to - 1);
      RestOfRows(a, b, RowsBefore(a, p, k, to - 1), Folded(a, p, k, to - 1), Folded(b, p, k, to - 1));
    }
  }

  lemma SameTodoReached(a: Job, b: Job, p: nat, k: nat, c: nat)
    requires a.rows == b.rows && c < |a.rows| == COUNT
    ensures Todo(a, c) == Todo(b, c) && Reached(a, p, k, c) == Reached(b, p, k, c)
  {}

  lemma WholeIsParts(t: Tables, u: Tables)
    ensures t == u <==> Rest(t) == Rest(u) && t.dailyYields == u.dailyYields && t.exports == u.exports
  {}

  // ---------------------------------------------------------------- equal tables, exactly

  /** For every date the last covered MonthData rows store the same, for every sample the last exporting rows do. */
  ghost predicate SameLastWrites(a: Job, b: Job, p: nat, k: nat)
    requires |a.rows| == |b.rows| == COUNT
    requires Reached(a, p, k, MONTH) <= |Todo(a, MONTH)| && Reached(a, p, k, DAY) <= |Todo(a, DAY)|
  {
    && (forall d :: LastYield(a, RowsBefore(a, p, k, MONTH), d) == LastYield(b, RowsBefore(a, p, k, MONTH), d))
    && (forall s :: LastExport(a, RowsBefore(a, p, k, DAY), s) == LastExport(b, RowsBefore(a, p, k, DAY), s))
  }

  /**
   At every position of a run, two migrations of one source have the same tables if and only if
   for every date and every sample the last row that writes it writes the same in both.
   */
  lemma SameTablesExactlyWhen(a: Job, b: Job, p: nat, k: nat)
    requires ValidJob(a) && a.rows == b.rows && Position(a, p, k)
    ensures forall c: nat | c < COUNT :: Reached(a, p, k, c) <= |Todo(a, c)|
    ensures p < COUNT ==> k <= |Todo(a, p)| && k <= |Todo(b, p)|
    ensures TablesOf(a, p, k) == TablesOf(b, p, k) <==> SameLastWrites(a, b, p, k)
  {
    EightTables(a);
    hide Todo, ValidRows, LastYield, LastExport, TablesUpTo;
    forall c: nat | c < COUNT
      ensures Reached(a, p, k, c) <= |Todo(a, c)| && Todo(a, c) == Todo(b, c) && Reached(a, p, k, c) == Reached(b, p, k, c)
    {
      ReachedFits(a, p, k, c);
      SameTodo(a, b, c);
      SameTodoReached(a, b, p, k, c);
    }
    ReachedFits(a, p, k, 0);
    FoldedIsUpTo(a, p, k, COUNT);
    FoldedIsUpTo(b, p, k, COUNT);
    RestIsShared(a, b, p, k, COUNT);
    var t, u := Folded(a, p, k, COUNT), Folded(b, p, k, COUNT);
    hide Folded, Rest;
    forall d: DayKey
      ensures Find(t.dailyYields, d) == LastYield(a, RowsBefore(a, p, k, MONTH), d)
      ensures Find(u.dailyYields, d) == LastYield(b, RowsBefore(a, p, k, MONTH), d)
    {
      FoldedYields(a, p, k, COUNT, d);
      FoldedYields(b, p, k, COUNT, d);
    }
    forall s: SampleKey
      ensures Find(t.exports, s) == LastExport(a, RowsBefore(a, p, k, DAY), s)
      ensures Find(u.exports, s) == LastExport(b, RowsBefore(a, p, k, DAY), s)
    {
      FoldedExports(a, p, k, COUNT, s);
      FoldedExports(b, p, k, COUNT, s);
    }
    WholeIsParts(t, u);
    SameFinds(t.dailyYields, u.dailyYields);
    SameFinds(t.exports, u.exports);
    hide Find;
  }

  // ---------------------------------------------------------------- the completeness of yields

  /** The day of the session that last wrote the yield of a date, in a run that is finished on the day `today`. */
  function WriterDay(mix: Job, today: int, d: DayKey): int
    requires |mix.rows| == COUNT
  {
    var last := LastMonthRow(mix, Todo(mix, MONTH), d);
    if last.Some? then mix.today(last.value) else today
  }

  /** Whether a date is over for its last writer exactly when it is over on the day `other`. */
  predicate DateAgrees(mix: Job, today: int, other: int, d: DayKey)
    requires |mix.rows| == COUNT
  {
    d.date < WriterDay(mix, today, d) <==> d.date < other
  }

  /** The days agree on every stored date. */
  ghost predicate FlagsAgree(mix: Job, o: Options, today: int, other: int)
    requires |mix.rows| == COUNT
  {
    forall d | d in FinalTables(mix, o.dateOf, today).dailyYields :: DateAgrees(mix, today, other, d)
  }

  /** A source whose rows are all migrated under these options on this day. */
  ghost predicate IsOneDay(job: Job, o: Options, day: int) { IsUniform(job, o) && forall row :: job.today(row) == day }

  lemma {:induction false} UniformLastRow(a: Job, b: Job, o: Options, rows: seq<Row>, d: DayKey)
    requires IsUniform(a, o) && IsUniform(b, o)
    ensures LastMonthRow(a, rows, d) == LastMonthRow(b, rows, d)
  {
    if rows != [] { UniformLastRow(a, b, o, rows[..|rows| - 1], d); }
  }

  lemma {:induction false} UniformLastExport(a: Job, b: Job, o: Options, rows: seq<Row>, k: SampleKey)
    requires IsUniform(a, o) && IsUniform(b, o)
    ensures LastExport(a, rows, k) == LastExport(b, rows, k)
  {
    if rows != [] { UniformLastExport(a, b, o, rows[..|rows| - 1], k); }
  }

  lemma CopiedYieldsAt(job: Job, d: DayKey)
    requires ValidJob(job)
    ensures Find(TablesBefore(job, COUNT).dailyYields, d) == LastYield(job, Todo(job, MONTH), d)
  {
    EightTables(job);
    hide Todo, ValidRows, LastYield;
    AllReached(job);
    FoldedIsUpTo(job, COUNT, 0, COUNT);
    FoldedYields(job, COUNT, 0, COUNT, d);
    assert Todo(job, MONTH)[..|Todo(job, MONTH)|] == Todo(job, MONTH);
  }

  lemma CopiedExportsAt(job: Job, k: SampleKey)
    requires ValidJob(job)
    ensures Find(TablesBefore(job, COUNT).exports, k) == LastExport(job, Todo(job, DAY), k)
  {
    EightTables(job);
    hide Todo, ValidRows, LastExport;
    AllReached(job);
    FoldedIsUpTo(job, COUNT, 0, COUNT);
    FoldedExports(job, COUNT, 0, COUNT, k);
    assert Todo(job, DAY)[..|Todo(job, DAY)|] == Todo(job, DAY);
  }

  lemma AllReached(job: Job)
    requires |job.rows| == COUNT
    ensures forall c: nat | c < COUNT :: Reached(job, COUNT, 0, c) == |Todo(job, c)|
  {}

  /** No option touches anything but yields and exports. */
  lemma {:induction false} RestBefore(a: Job, b: Job, c: nat)
    requires a.rows == b.rows && c <= |a.rows| == COUNT
    ensures Rest(TablesBefore(a, c)) == Rest(TablesBefore(b, c))
  {
    hide Effects, Rest, Todo;
    if c > 0 {
      RestBefore(a, b, c - 1);
      SameTodo(a, b, c - 1);
      RestOfRows(a, b, Todo(a, c - 1), TablesBefore(a, c - 1), TablesBefore(b, c - 1));
    }
  }

  /** Under the same options the copies of one source differ at most in the completeness of yields. */
  lemma UniformCopies(a: Job, b: Job, o: Options)
    requires ValidJob(a) && a.rows == b.rows && IsUniform(a, o) && IsUniform(b, o)
    ensures var t, u := TablesBefore(a, COUNT), TablesBefore(b, COUNT);
            SameButYields(t, u) && t.dailyYields.Keys == u.dailyYields.Keys
  {
    EightTables(a);
    var t, u := TablesBefore(a, COUNT), TablesBefore(b, COUNT);
    RestBefore(a, b, COUNT);
    hide TablesBefore, ValidRows, IsUniform;
    SameTodo(a, b, MONTH);
    SameTodo(a, b, DAY);
    hide Todo;
    forall d
      ensures d in t.dailyYields <==> d in u.dailyYields
    {
      CopiedYieldsAt(a, d);
      CopiedYieldsAt(b, d);
      UniformLastRow(a, b, o, Todo(a, MONTH), d);
    }
    forall k
      ensures Find(t.exports, k) == Find(u.exports, k)
    {
      CopiedExportsAt(a, k);
      CopiedExportsAt(b, k);
      UniformLastExport(a, b, o, Todo(a, DAY), k);
    }
    SameFinds(t.exports, u.exports);
    assert t.dailyYields.Keys == u.dailyYields.Keys;
  }

  /** On another day the rebuild stores the same, completeness aside. */
  lemma ReconstructedOnAnotherDay(dateOf: int -> int, today: int, other: int, energy: map<SampleKey, Energy>, copied: set<DayKey>)
    ensures forall k | k in ReconstructedDates(dateOf, energy, copied) ::
              ReconstructedYields(dateOf, today, energy, copied)[k] ==
              ReconstructedYields(dateOf, other, energy, copied)[k].(complete := k.date < today)
  {
    hide OutcomeOf, TheScan;
  }

  /** The stored yield of a date after the rebuild. */
  lemma FinalYieldAt(job: Job, dateOf: int -> int, today: int, d: DayKey)
    requires ValidJob(job)
    ensures |job.rows| == COUNT
    ensures var t := TablesBefore(job, COUNT);
            var y := ReconstructedYields(dateOf, today, t.energy, t.dailyYields.Keys);
            && (d in y <==> d in ReconstructedDates(dateOf, t.energy, t.dailyYields.Keys))
            && (d in y ==> LastMonthRow(job, Todo(job, MONTH), d).None?)
            && Find(FinalTables(job, dateOf, today).dailyYields, d) ==
               if d in y then Some(y[d]) else LastYield(job, Todo(job, MONTH), d)
  {
    EightTables(job);
    var t := TablesBefore(job, COUNT);
    CopiedYieldsAt(job, d);
    ReconstructedAreNotCopied(dateOf, t.energy, t.dailyYields.Keys);
    RebuiltKeys(dateOf, today, t.energy, t.dailyYields.Keys);
    hide TablesBefore, ReconstructedDates, ReconstructedYields, Todo, ValidRows;
  }

  /** One date is stored by both runs, with the same totals; its completeness agrees when the writers' days say so. */
  lemma FinalYieldsAlike(mix: Job, own: Job, o: Options, today: int, other: int, d: DayKey)
    requires ValidJob(mix) && own.rows == mix.rows && IsUniform(mix, o) && IsOneDay(own, o, other)
    ensures |mix.rows| == COUNT
    ensures var x, y := Find(FinalTables(mix, o.dateOf, today).dailyYields, d), Find(FinalTables(own, o.dateOf, other).dailyYields, d);
            && (x.Some? <==> y.Some?)
            && (x.Some? ==> x.value.complete == (d.date < WriterDay(mix, today, d))
                            && y.value == x.value.(complete := d.date < other))
  {
    EightTables(mix);
    FinalYieldAt(mix, o.dateOf, today, d);
    FinalYieldAt(own, o.dateOf, other, d);
    UniformCopies(mix, own, o);
    var t := TablesBefore(mix, COUNT);
    ReconstructedOnAnotherDay(o.dateOf, other, today, t.energy, t.dailyYields.Keys);
    ReconstructedFlag(o.dateOf, today, t.energy, t.dailyYields.Keys);
    SameTodo(mix, own, MONTH);
    UniformLastRow(mix, own, o, Todo(mix, MONTH), d);
    YieldOfDay(mix, own, o, other, Todo(mix, MONTH), d);
    hide TablesBefore, ReconstructedDates, ReconstructedYields, Todo, ValidRows, FinalTables, LastMonthRow, IsUniform, MonthYield;
  }

  lemma ReconstructedFlag(dateOf: int -> int, today: int, energy: map<SampleKey, Energy>, copied: set<DayKey>)
    ensures forall k | k in ReconstructedYields(dateOf, today, energy, copied) ::
              ReconstructedYields(dateOf, today, energy, copied)[k].complete == (k.date < today)
  {
    hide OutcomeOf;
  }

  lemma YieldOfDay(mix: Job, own: Job, o: Options, other: int, rows: seq<Row>, d: DayKey)
    requires IsUniform(mix, o) && IsOneDay(own, o, other) && LastMonthRow(mix, rows, d) == LastMonthRow(own, rows, d)
    ensures var last := LastMonthRow(mix, rows, d);
            last.Some? ==>
              && MonthYield(mix, last.value).complete == (d.date < mix.today(last.value))
              && MonthYield(own, last.value) == MonthYield(mix, last.value).(complete := d.date < other)
  {
    hide LastMonthRow;
  }

  function WithoutFlags(t: Tables): Tables {
    t.(dailyYields := map d | d in t.dailyYields :: t.dailyYields[d].(complete := false))
  }

  /** Two tables hold the same dates with the same totals, the first as complete as its writers say, the second as of `other`. */
  ghost predicate FlagsFollow(mix: Job, today: int, other: int, t: Tables, u: Tables)
    requires |mix.rows| == COUNT
  {
    forall d :: var x, y := Find(t.dailyYields, d), Find(u.dailyYields, d);
                && (x.Some? <==> y.Some?)
                && (x.Some? ==> x.value.complete == (d.date < WriterDay(mix, today, d))
                                && y.value == x.value.(complete := d.date < other))
  }

  lemma FinalFlagsFollow(mix: Job, own: Job, o: Options, today: int, other: int)
    requires ValidJob(mix) && own.rows == mix.rows && IsUniform(mix, o) && IsOneDay(own, o, other)
    ensures |mix.rows| == COUNT
    ensures var t, u := FinalTables(mix, o.dateOf, today), FinalTables(own, o.dateOf, other);
            SameButYields(t, u) && FlagsFollow(mix, today, other, t, u)
  {
    EightTables(mix);
    UniformCopies(mix, own, o);
    FinalButYields(mix, own, o, today, other);
    hide FinalTables, TablesBefore, ValidRows, IsUniform, IsOneDay, WriterDay, Find;
    forall d: DayKey {
      FinalYieldsAlike(mix, own, o, today, other, d);
    }
  }

  /**
   Under the same options a run ends, on whatever days its sessions ran, in the tables of a
   migration within one day, completeness of yields aside; and in exactly these tables if and only
   if every date is over for the session that wrote it last exactly when it is over on that day.
   */
  lemma FinalTablesAgreeExactlyWhen(mix: Job, own: Job, o: Options, today: int, other: int)
    requires ValidJob(mix) && own.rows == mix.rows && IsUniform(mix, o) && IsOneDay(own, o, other)
    ensures |mix.rows| == COUNT
    ensures WithoutFlags(FinalTables(mix, o.dateOf, today)) == WithoutFlags(FinalTables(own, o.dateOf, other))
    ensures FinalTables(mix, o.dateOf, today) == FinalTables(own, o.dateOf, other) <==> FlagsAgree(mix, o, today, other)
  {
    FinalFlagsFollow(mix, own, o, today, other);
    hide FinalTables, FlagsFollow, ValidRows, IsUniform, IsOneDay, WriterDay, WithoutFlags;
    FlagsDecide(mix, today, other, FinalTables(mix, o.dateOf, today), FinalTables(own, o.dateOf, other));
  }

  lemma FlagsDecide(mix: Job, today: int, other: int, t: Tables, u: Tables)
    requires |mix.rows| == COUNT && SameButYields(t, u) && FlagsFollow(mix, today, other, t, u)
    ensures WithoutFlags(t) == WithoutFlags(u)
    ensures t == u <==> forall d | d in t.dailyYields :: DateAgrees(mix, today, other, d)
  {
    hide WriterDay;
    SameFinds(t.dailyYields, u.dailyYields);
    SameWithoutFlags(t, u);
    assert t == u <==> t.dailyYields == u.dailyYields;
    if forall d | d in t.dailyYields :: DateAgrees(mix, today, other, d) {
      forall d
        ensures Find(t.dailyYields, d) == Find(u.dailyYields, d)
      {
      }
    }
    if t == u {
      forall d | d in t.dailyYields
        ensures DateAgrees(mix, today, other, d)
      {
        assert Find(t.dailyYields, d) == Find(u.dailyYields, d);
      }
    }
  }

  lemma SameWithoutFlags(t: Tables, u: Tables)
    requires SameButYields(t, u)
    requires forall d :: var x, y := Find(t.dailyYields, d), Find(u.dailyYields, d);
                         (x.Some? <==> y.Some?) && (x.Some? ==> y.value == x.value.(complete := y.value.complete))
    ensures WithoutFlags(t) == WithoutFlags(u)
  {
    var a, b := WithoutFlags(t).dailyYields, WithoutFlags(u).dailyYields;
    forall d
      ensures Find(a, d) == Find(b, d)
    {
      assert Find(t.dailyYields, d).Some? <==> Find(u.dailyYields, d).Some?;
    }
    SameFinds(a, b);
  }

  lemma FinalButYields(mix: Job, own: Job, o: Options, today: int, other: int)
    requires |mix.rows| == |own.rows| == COUNT && SameButYields(TablesBefore(mix, COUNT), TablesBefore(own, COUNT))
    ensures SameButYields(FinalTables(mix, o.dateOf, today), FinalTables(own, o.dateOf, other))
  {
    hide TablesBefore, ReconstructedYields;
  }

  /** Sessions of one day, its verification included, always agree. */
  lemma OneDayAgrees(mix: Job, o: Options, day: int)
    requires |mix.rows| == COUNT && IsOneDay(mix, o, day)
    ensures FlagsAgree(mix, o, day, day)
  {
    hide FinalTables, LastMonthRow;
  }

  /** When the days disagree on one date only, the tables differ in the completeness of this date only. */
  lemma OneDisagreement(mix: Job, own: Job, o: Options, today: int, other: int, d: DayKey)
    requires ValidJob(mix) && |mix.rows| == COUNT && own.rows == mix.rows && IsUniform(mix, o) && IsOneDay(own, o, other)
    requires d in FinalTables(mix, o.dateOf, today).dailyYields && !DateAgrees(mix, today, other, d)
    requires forall e | e in FinalTables(mix, o.dateOf, today).dailyYields && e != d :: DateAgrees(mix, today, other, e)
    ensures var t, u := FinalTables(mix, o.dateOf, today), FinalTables(own, o.dateOf, other);
            && t.dailyYields[d].complete == (d.date >= other)
            && u == t.(dailyYields := t.dailyYields[d := t.dailyYields[d].(complete := d.date < other)])
  {
    FinalFlagsFollow(mix, own, o, today, other);
    hide FinalTables, FlagsFollow, ValidRows, IsUniform, IsOneDay, WriterDay;
    OneFlagDiffers(mix, today, other, FinalTables(mix, o.dateOf, today), FinalTables(own, o.dateOf, other), d);
  }

  lemma OneFlagDiffers(mix: Job, today: int, other: int, t: Tables, u: Tables, d: DayKey)
    requires |mix.rows| == COUNT && SameButYields(t, u) && FlagsFollow(mix, today, other, t, u)
    requires d in t.dailyYields && !DateAgrees(mix, today, other, d)
    requires forall e | e in t.dailyYields && e != d :: DateAgrees(mix, today, other, e)
    ensures t.dailyYields[d].complete == (d.date >= other)
    ensures u == t.(dailyYields := t.dailyYields[d := t.dailyYields[d].(complete := d.date < other)])
  {
    hide FlagsFollow, WriterDay;
    FlagOf(mix, today, other, t, u, d);
    var v := t.dailyYields[d := t.dailyYields[d].(complete := d.date < other)];
    forall k
      ensures (k in u.dailyYields <==> k in v) && (k in v ==> u.dailyYields[k] == v[k])
    {
      FlagOf(mix, today, other, t, u, k);
    }
    assert u.dailyYields == v;
  }

  lemma FlagOf(mix: Job, today: int, other: int, t: Tables, u: Tables, d: DayKey)
    requires |mix.rows| == COUNT && FlagsFollow(mix, today, other, t, u)
    ensures d in t.dailyYields <==> d in u.dailyYields
    ensures d in t.dailyYields ==>
              && t.dailyYields[d].complete == (d.date < WriterDay(mix, today, d))
              && u.dailyYields[d] == t.dailyYields[d].(complete := d.date < other)
  {
    hide WriterDay;
    assert Find(t.dailyYields, d).Some? <==> d in t.dailyYields;
    assert Find(u.dailyYields, d).Some? <==> d in u.dailyYields;
  }

  /** With one MonthData row, and the session and its verification on one day, only its date can disagree. */
  lemma OnlyRowDisagrees(mix: Job, o: Options, today: int, row: Row)
    requires ValidJob(mix) && |mix.rows| == COUNT && Todo(mix, MONTH) == [row] && row.MonthRow? && row.rollup.Some?
    requires mix.today(row) <= MonthKey(mix, row).date < today
    ensures MonthKey(mix, row) in FinalTables(mix, o.dateOf, today).dailyYields
    ensures !DateAgrees(mix, today, today, MonthKey(mix, row))
    ensures forall e | e != MonthKey(mix, row) :: DateAgrees(mix, today, today, e)
    ensures !FlagsAgree(mix, o, today, today)
  {
    var d := MonthKey(mix, row);
    FinalYieldAt(mix, o.dateOf, today, d);
    forall e
      ensures LastMonthRow(mix, Todo(mix, MONTH), e) == if e == d then Some(row) else None
    {
      OneLastRow(mix, row, e);
    }
    hide FinalTables, TablesBefore, ReconstructedDates, ReconstructedYields, Todo, LastMonthRow, ValidRows;
  }

  lemma OneLastRow(job: Job, row: Row, d: DayKey)
    requires row.MonthRow? && row.rollup.Some?
    ensures LastMonthRow(job, [row], d) == if MonthKey(job, row) == d then Some(row) else None
  {
    assert [row][..0] == [];
  }
}
