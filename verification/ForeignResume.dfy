/**
 A run that was resumed under other options: when its tables are still those of the run's own
 options, and when they are not.
 */
module ForeignResume {
  import opened Wrappers
  import opened Keyset
  import opened Canonical
  import opened MigrationRun
  import opened RebuiltYields
  import opened LastWriter

  /**
   Both jobs do the same with a row: a MonthData row lies on the same local date, which is over for
   both or for neither, and the PVOutput flag of a DayData row is exported by both or by neither.
   */
  predicate SameEffect(a: Job, b: Job, row: Row) {
    && (row.MonthRow? && row.rollup.Some? ==>
          MonthKey(a, row) == MonthKey(b, row) && (MonthKey(a, row).date < a.today(row) <==> MonthKey(b, row).date < b.today(row)))
    && (row.DayRow? && row.sample.Some? && row.pvoutput.Some? ==>
          a.options(row).legacyPvOutput == b.options(row).legacyPvOutput)
  }

  /** A row leaves the same tables behind, whatever they were, if and only if these agree. */
  lemma SameEffectExactlyWhen(a: Job, b: Job, row: Row)
    requires a.rows == b.rows
    ensures (forall t :: Effect(a, row, t) == Effect(b, row, t)) <==> SameEffect(a, b, row)
  {
    if !SameEffect(a, b, row) {
      var x, y := Effect(a, row, NO_TABLES), Effect(b, row, NO_TABLES);
      if row.MonthRow? {
        assert MonthKey(a, row) in x.dailyYields && x.dailyYields[MonthKey(a, row)] == MonthYield(a, row);
        assert MonthKey(a, row) in y.dailyYields ==> MonthKey(a, row) == MonthKey(b, row);
      } else {
        var k := SampleKey(row.serial, row.measuredAt);
        assert k in x.exports <==> k !in y.exports;
      }
      assert x != y;
    } else {
      forall t
        ensures Effect(a, row, t) == Effect(b, row, t)
      {
        SameRowEffect(a, b, row, t);
      }
    }
  }

  lemma SameRowEffect(a: Job, b: Job, row: Row, t: Tables)
    requires a.rows == b.rows && SameEffect(a, b, row)
    ensures Effect(a, row, t) == Effect(b, row, t)
  {}

  lemma SameRowOk(a: Job, b: Job, row: Row, inverters: set<int>)
    requires a.rows == b.rows && SameEffect(a, b, row)
    ensures Committable(a, row, inverters) == Committable(b, row, inverters)
  {}

  predicate SameEffects(a: Job, b: Job, rows: seq<Row>) { forall i | 0 <= i < |rows| :: SameEffect(a, b, rows[i]) }

  lemma {:induction false} SameEffectsSameTables(a: Job, b: Job, rows: seq<Row>, t: Tables)
    requires a.rows == b.rows && SameEffects(a, b, rows)
    ensures Effects(a, rows, t) == Effects(b, rows, t)
  {
    if rows != [] {
      var front, last := rows[..|rows| - 1], rows[|rows| - 1];
      SameEffectsSameTables(a, b, front, t);
      SameRowEffect(a, b, last, Effects(a, front, t));
      hide Effect, SameEffect;
    }
  }

  /** The rows before position `(p, k)` have the same effects in both jobs. */
  ghost predicate SameEffectsBefore(a: Job, b: Job, p: nat, k: nat)
    requires |a.rows| == |b.rows| == COUNT && Position(a, p, k)
  {
    a.rows == b.rows && forall c: nat | c < COUNT :: SameEffects(a, b, Todo(a, c)[..Reached(a, p, k, c)])
  }

  lemma {:induction false} SameTablesBefore(a: Job, b: Job, p: nat, k: nat, c: nat)
    requires |a.rows| == |b.rows| == COUNT && Position(a, p, k) && SameEffectsBefore(a, b, p, k) && c <= p
    ensures TablesBefore(a, c) == TablesBefore(b, c)
  {
    hide Todo, Effects, SameEffects;
    if c > 0 {
      SameTablesBefore(a, b, p, k, c - 1);
      SameTodo(a, b, c - 1);
      assert Todo(a, c - 1)[..|Todo(a, c - 1)|] == Todo(a, c - 1);
      assert SameEffects(a, b, Todo(a, c - 1)[..Reached(a, p, k, c - 1)]);
      SameEffectsSameTables(a, b, Todo(a, c - 1), TablesBefore(a, c - 1));
    }
  }

  /**
   Where the rows that foreign sessions committed have the same effects, the run stands where one
   under its own options would stand: with the same tables, as long as a category is left. After
   the last one the yields are set aside, among which a foreign rebuild may have stored its own.
   */
  lemma HarmlessResumeKeepsTables(mix: Job, own: Job, db: Database, p: nat, k: nat)
    requires |mix.rows| == |own.rows| == COUNT && At(mix, db, p, k) && SameEffectsBefore(mix, own, p, k)
    ensures At(own, db, p, k)
    ensures p < COUNT ==> k <= |Todo(own, p)| && db.tables == TablesAt(own, p, k)
  {
    if p < COUNT { SameTodo(mix, own, p); }
    SameTablesBefore(mix, own, p, k, p);
    hide TablesBefore, Todo, Effects, SameEffects;
    forall c: nat | c < COUNT
      ensures Position(own, p, k) && CategoryAt(own, db, p, k, c)
    {
      assert CategoryAt(mix, db, p, k, c);
      HarmlessCategory(mix, own, db, p, k, c);
    }
    if p < COUNT {
      assert SameEffects(mix, own, Todo(mix, p)[..Reached(mix, p, k, p)]);
      SameEffectsSameTables(mix, own, Todo(mix, p)[..k], TablesBefore(mix, p));
    }
  }

  lemma HarmlessCategory(mix: Job, own: Job, db: Database, p: nat, k: nat, c: nat)
    requires |mix.rows| == |own.rows| == COUNT && Position(mix, p, k) && SameEffectsBefore(mix, own, p, k) && c < COUNT
    requires CategoryAt(mix, db, p, k, c)
    ensures Position(own, p, k) && CategoryAt(own, db, p, k, c)
  {
    SameTodo(mix, own, c);
    if p < COUNT { SameTodo(mix, own, p); }
    var rows := Todo(mix, c)[..Reached(mix, p, k, c)];
    assert SameEffects(mix, own, rows);
    if c <= p {
      SameTablesBefore(mix, own, p, k, c);
      hide TablesBefore, Todo, Committable, CheckpointIs, SameEffect;
      var known := TablesBefore(mix, c).inverters.Keys;
      forall i | 0 <= i < |rows|
        ensures Committable(own, rows[i], known)
      {
        assert Committable(mix, rows[i], known);
        SameRowOk(mix, own, rows[i], known);
      }
    } else {
      assert |rows| == 0;
    }
    SameCheckpoint(mix, own, db, c, Reached(mix, p, k, c), c < p);
  }

  /** The dates stored so far are those of the MonthData rows, each in the timezone it was migrated with. */
  lemma StoredDatesAt(mix: Job, db: Database, k: nat)
    requires ValidJob(mix) && At(mix, db, MONTH, k)
    ensures k <= |Todo(mix, MONTH)| && db.tables.dailyYields.Keys == StoredDates(mix, Todo(mix, MONTH)[..k])
  {
    AtPosition(mix, db, MONTH, k);
    YieldsOnlyFromMonthData(mix, MONTH);
    TodoCategory(mix, MONTH, k);
    assert CategoryAt(mix, db, MONTH, k, MONTH);
    hide At, Todo;
    MonthDataKeys(mix, Todo(mix, MONTH)[..k], TablesBefore(mix, MONTH), TablesBefore(mix, MONTH).inverters.Keys);
  }

  /** For every sample the last exporting row is there in both migrations and stores the same. */
  ghost predicate SameExports(a: Job, b: Job)
    requires |a.rows| == |b.rows| == COUNT
  {
    forall k :: LastExport(a, Todo(a, DAY), k) == LastExport(b, Todo(b, DAY), k)
  }

  /** These yields are those of the job's own MonthData rows, but for the dates in `rebuilt`. */
  ghost predicate OnlyOwnYields(own: Job, stored: map<DayKey, DailyYield>, rebuilt: set<DayKey>)
    requires |own.rows| == COUNT
  {
    forall d | d !in rebuilt :: Find(stored, d) == LastYield(own, Todo(own, MONTH), d)
  }

  /**
   As long as a category is left, the tables a run has committed are those of its own options if and
   only if for every date the last committed MonthData row stored under it, and for every sample the
   last committed DayData row exported under it, is there in both migrations and stores the same.
   After the last category the same holds of what was copied; what is committed then are the copied
   tables of its own options if and only if the exports agree and the yields, those of any rebuild
   included, are exactly those of its own MonthData rows.
   */
  lemma ForeignTablesExactlyWhen(mix: Job, own: Job, db: Database, p: nat, k: nat)
    requires ValidJob(mix) && own.rows == mix.rows && At(mix, db, p, k)
    ensures Position(mix, p, k) && |own.rows| == COUNT && Reached(mix, p, k, MONTH) <= |Todo(mix, MONTH)|
    ensures Reached(mix, p, k, DAY) <= |Todo(mix, DAY)|
    ensures p < COUNT ==> k <= |Todo(own, p)| && (db.tables == TablesAt(own, p, k) <==> SameLastWrites(mix, own, p, k))
    ensures p == COUNT ==> (TablesBefore(mix, COUNT) == TablesBefore(own, COUNT) <==> SameLastWrites(mix, own, p, k))
    ensures p == COUNT ==>
              (db.tables == TablesBefore(own, COUNT) <==>
                 SameExports(mix, own) && OnlyOwnYields(own, db.tables.dailyYields, {}))
  {
    PositionFits(mix, db, p, k);
    AtPosition(mix, db, p, k);
    SameTablesExactlyWhen(mix, own, p, k);
    if p == COUNT {
      OwnTablesAtTheEnd(mix, own, db);
    }
    hide At, SameLastWrites, TablesAt, TablesBefore, Todo, ValidRows, SameExports, OnlyOwnYields;
  }

  /** Exports and yields decide: nothing else depends on options. */
  lemma EndIsDecided(mix: Job, own: Job, db: Database, t: Tables)
    requires ValidJob(mix) && own.rows == mix.rows && At(mix, db, COUNT, 0) && SameButYields(t, db.tables)
    ensures |mix.rows| == COUNT
    ensures forall u: Tables | SameButYields(u, TablesBefore(own, COUNT)) ::
              t == u <==> SameExports(mix, own) && t.dailyYields == u.dailyYields
  {
    EightTables(mix);
    AtPosition(mix, db, COUNT, 0);
    RestBefore(mix, own, COUNT);
    var x, y := TablesBefore(mix, COUNT), TablesBefore(own, COUNT);
    hide At, TablesBefore, ValidRows, Todo, LastExport;
    forall k
      ensures Find(x.exports, k) == LastExport(mix, Todo(mix, DAY), k)
      ensures Find(y.exports, k) == LastExport(own, Todo(own, DAY), k)
    {
      CopiedExportsAt(mix, k);
      CopiedExportsAt(own, k);
    }
    SameFinds(x.exports, y.exports);
    hide Find;
    assert SameExports(mix, own) <==> x.exports == y.exports;
    forall u: Tables | SameButYields(u, y)
      ensures t == u <==> SameExports(mix, own) && t.dailyYields == u.dailyYields
    {
      WholeIsParts(t, u);
    }
  }

  lemma OwnTablesAtTheEnd(mix: Job, own: Job, db: Database)
    requires ValidJob(mix) && own.rows == mix.rows && At(mix, db, COUNT, 0)
    ensures |mix.rows| == COUNT
    ensures db.tables == TablesBefore(own, COUNT) <==>
            SameExports(mix, own) && OnlyOwnYields(own, db.tables.dailyYields, {})
  {
    EightTables(mix);
    EndIsDecided(mix, own, db, db.tables);
    var u := TablesBefore(own, COUNT);
    hide At, TablesBefore, ValidRows, Todo, LastYield, SameExports;
    forall d
      ensures Find(u.dailyYields, d) == LastYield(own, Todo(own, MONTH), d)
    {
      CopiedYieldsAt(own, d);
    }
    SameFinds(db.tables.dailyYields, u.dailyYields);
  }

  lemma MonthRowsDoNotDepend(a: Job, b: Job, rows: seq<Row>, inverters: set<int>)
    requires AllOf(rows, MonthData) && AllCommittable(a, rows, inverters)
    ensures AllCommittable(b, rows, inverters)
  {
    forall i | 0 <= i < |rows|
      ensures Committable(b, rows[i], inverters)
    {
      assert CategoryOf(rows[i]) == MonthData && Committable(a, rows[i], inverters);
    }
  }

  /** The dates that a session calls copied are those that its own migration would store. */
  lemma OwnCopiedDates(mix: Job, own: Job, o: Options, db: Database)
    requires ValidJob(mix) && own.rows == mix.rows && IsUniform(own, o) && At(mix, db, COUNT, 0)
    ensures |mix.rows| == COUNT
    ensures TablesBefore(own, COUNT).dailyYields.Keys == CopiedDates(o.dateOf, Todo(mix, MONTH))
    ensures TablesBefore(own, COUNT).energy == db.tables.energy
  {
    EightTables(mix);
    RestBefore(mix, own, COUNT);
    YieldsOnlyFromMonthData(own, COUNT);
    YieldsOnlyFromMonthData(own, MONTH);
    TodoCategory(own, MONTH, 0);
    SameTodo(mix, own, MONTH);
    assert CategoryAt(mix, db, COUNT, 0, MONTH);
    var rows, known := Todo(own, MONTH), TablesBefore(mix, MONTH).inverters.Keys;
    assert rows[..|rows|] == rows;
    UniformDates(own, o, rows);
    hide TablesBefore, Todo, ValidRows, IsUniform;
    MonthRowsDoNotDepend(mix, own, rows, known);
    MonthDataKeys(own, rows, TablesBefore(own, MONTH), known);
  }

  /**
   A rebuild on the day `today` under a run's own options, from whatever sessions with other options
   left after the last category, ends in the final tables of an undisturbed migration within the day
   `other` if and only if the exports agree, every yield outside the dates it reconstructs is that of
   its own MonthData rows, and the dates it reconstructs are over on both days or on neither. In
   particular nothing may be left under other dates, neither by MonthData rows nor by a foreign rebuild.
   */
  lemma OwnRebuildExactlyWhen(mix: Job, own: Job, o: Options, today: int, other: int, db: Database)
    requires ValidJob(mix) && own.rows == mix.rows && IsUniform(own, o) && At(mix, db, COUNT, 0)
    ensures |mix.rows| == COUNT
    ensures var y := SessionYields(mix, o, today, db.tables);
            Overwrite(db.tables, y) == FinalTables(own, o.dateOf, other) <==>
              && SameExports(mix, own)
              && OnlyOwnYields(own, db.tables.dailyYields, y.Keys)
              && forall d | d in y :: d.date < today <==> d.date < other
  {
    EightTables(mix);
    OwnCopiedDates(mix, own, o, db);
    var y, u := SessionYields(mix, o, today, db.tables), FinalTables(own, o.dateOf, other);
    var t := Overwrite(db.tables, y);
    EndIsDecided(mix, own, db, t);
    hide At, TablesBefore, ValidRows, Todo, LastYield, SameExports, IsUniform, ReconstructedDates, ReconstructedYields,
         SessionYields;
    assert SameButYields(u, TablesBefore(own, COUNT));
    forall d
      ensures FinalAt(own, u, y, today, other, d)
    {
      OwnFinalAt(mix, own, o, today, other, db, d);
    }
    hide FinalTables;
    YieldsMeetExactlyWhen(own, db.tables, u, y, today, other);
  }

  /** What the final tables hold for a date, in terms of what a rebuild on another day stores. */
  ghost predicate FinalAt(own: Job, final: Tables, y: map<DayKey, DailyYield>, today: int, other: int, d: DayKey)
    requires |own.rows| == COUNT
  {
    if d in y then y[d].complete == (d.date < today) && Find(final.dailyYields, d) == Some(y[d].(complete := d.date < other))
    else Find(final.dailyYields, d) == LastYield(own, Todo(own, MONTH), d)
  }

  lemma OwnFinalAt(mix: Job, own: Job, o: Options, today: int, other: int, db: Database, d: DayKey)
    requires ValidJob(mix) && own.rows == mix.rows && IsUniform(own, o) && At(mix, db, COUNT, 0)
    ensures |mix.rows| == COUNT
    ensures FinalAt(own, FinalTables(own, o.dateOf, other), SessionYields(mix, o, today, db.tables), today, other, d)
  {
    EightTables(mix);
    OwnCopiedDates(mix, own, o, db);
    FinalYieldAt(own, o.dateOf, other, d);
    var energy, copied := db.tables.energy, CopiedDates(o.dateOf, Todo(mix, MONTH));
    RebuiltKeys(o.dateOf, today, energy, copied);
    ReconstructedFlag(o.dateOf, today, energy, copied);
    ReconstructedOnAnotherDay(o.dateOf, other, today, energy, copied);
    hide At, TablesBefore, ValidRows, Todo, LastYield, IsUniform, FinalTables, ReconstructedDates, ReconstructedYields,
         CopiedDates, LastMonthRow;
  }

  lemma YieldsMeetExactlyWhen(own: Job, t: Tables, final: Tables, y: map<DayKey, DailyYield>, today: int, other: int)
    requires |own.rows| == COUNT && forall d :: FinalAt(own, final, y, today, other, d)
    ensures Overwrite(t, y).dailyYields == final.dailyYields <==>
            OnlyOwnYields(own, t.dailyYields, y.Keys) && forall d | d in y :: d.date < today <==> d.date < other
  {
    hide LastYield, Todo;
    var after := Overwrite(t, y).dailyYields;
    SameFinds(after, final.dailyYields);
    forall d
      ensures Find(after, d) == if d in y then Some(y[d]) else Find(t.dailyYields, d)
    {}
    assert forall d :: FinalAt(own, final, y, today, other, d);
    if after == final.dailyYields {
      forall d | d in y
        ensures d.date < today <==> d.date < other
      {
        assert FinalAt(own, final, y, today, other, d);
        assert Find(after, d) == Find(final.dailyYields, d);
      }
      forall d | d !in y
        ensures Find(t.dailyYields, d) == LastYield(own, Todo(own, MONTH), d)
      {
        assert FinalAt(own, final, y, today, other, d);
        assert Find(after, d) == Find(final.dailyYields, d);
      }
    }
    if OnlyOwnYields(own, t.dailyYields, y.Keys) && forall d | d in y :: d.date < today <==> d.date < other {
      forall d
        ensures Find(after, d) == Find(final.dailyYields, d)
      {
        assert FinalAt(own, final, y, today, other, d);
      }
    }
  }

  /**
   The failing resume: a run stopped before its MonthData rows, and a session in another timezone
   commits the first of them. The tables are those of the run's own timezone if and only if the
   row has the same local date in both, over for both or for neither.
   */
  lemma ForeignMonthRowExactlyWhen(mix: Job, own: Job, db: Database)
    requires ValidJob(mix) && |own.rows| == COUNT && Todo(mix, MONTH) != []
    requires At(mix, db, MONTH, 1) && Position(mix, MONTH, 0) && SameEffectsBefore(mix, own, MONTH, 0)
    ensures var row := Todo(mix, MONTH)[0];
            && row.MonthRow? && |Todo(own, MONTH)| > 0
            && (db.tables == TablesAt(own, MONTH, 1) <==> SameEffect(mix, own, row))
  {
    SameTodo(mix, own, MONTH);
    TodoCategory(mix, MONTH, 1);
    AtPosition(mix, db, MONTH, 1);
    SameTablesBefore(mix, own, MONTH, 0, MONTH);
    YieldsOnlyFromMonthData(mix, MONTH);
    assert CategoryAt(mix, db, MONTH, 1, MONTH);
    hide At, Todo, TablesBefore, ValidRows;
    var row, t := Todo(mix, MONTH)[0], TablesBefore(mix, MONTH);
    assert Todo(mix, MONTH)[..1] == [row];
    assert Committable(mix, [row][0], t.inverters.Keys) && CategoryOf([row][0]) == CATEGORIES[MONTH];
    OneEffect(mix, row, t);
    OneEffect(own, row, t);
    hide Effects;
    var a, b := MonthKey(mix, row), MonthKey(own, row);
    assert Effect(mix, row, t).dailyYields == map[a := MonthYield(mix, row)];
    assert Effect(own, row, t).dailyYields == map[b := MonthYield(own, row)];
    if a != b { assert a !in Effect(own, row, t).dailyYields; }
    if Effect(mix, row, t) == Effect(own, row, t) {
      assert Effect(own, row, t).dailyYields[a] == MonthYield(mix, row);
    }
  }

  lemma OneEffect(job: Job, row: Row, t: Tables)
    ensures Effects(job, [row], t) == Effect(job, row, t)
  {
    hide Effect;
    assert [row][..0] == [];
  }
}
