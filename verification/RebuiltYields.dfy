/**
 The tables a finished run ends with: the copied and reconstructed daily yields on top of the
 one-row-at-a-time migration, and the frame facts that keep the two apart.
 */
module RebuiltYields {
  import opened Wrappers
  import opened Keyset
  import opened Canonical
  import opened MigrationRun
  import opened DailyYieldRebuild

  predicate AllOf(rows: seq<Row>, c: Category) { forall i | 0 <= i < |rows| :: CategoryOf(rows[i]) == c }

  /** Only MonthData rows write daily yields. */
  lemma {:induction false} OnlyMonthDataWritesYields(job: Job, rows: seq<Row>, c: Category, t: Tables)
    requires AllOf(rows, c) && !c.MonthData?
    ensures Effects(job, rows, t).dailyYields == t.dailyYields
  {
    if rows != [] {
      OnlyMonthDataWritesYields(job, rows[..|rows| - 1], c, t);
    }
  }

  lemma TodoCategory(job: Job, p: nat, k: nat)
    requires ValidJob(job) && p < COUNT && k <= |Todo(job, p)|
    ensures AllOf(Todo(job, p)[..k], CATEGORIES[p]) && AllOf(Todo(job, p), CATEGORIES[p])
  {
    forall i | 0 <= i < |Todo(job, p)|
      ensures CategoryOf(Todo(job, p)[i]) == CATEGORIES[p]
    {
      assert Todo(job, p)[i] == job.rows[p][Skipped(job, p) + i];
    }
  }

  /** The dates that the MonthData rows were stored under, each in the timezone it was migrated with. */
  function StoredDates(job: Job, rows: seq<Row>): set<DayKey> {
    set i | 0 <= i < |rows| && rows[i].MonthRow? :: MonthKey(job, rows[i])
  }

  /** The dates of the MonthData rows in one timezone, as the rebuild computes them. */
  function CopiedDates(dateOf: int -> int, rows: seq<Row>): set<DayKey> {
    set i | 0 <= i < |rows| && rows[i].MonthRow? :: DayKey(rows[i].serial, dateOf(rows[i].measuredAt))
  }

  lemma {:induction false} MonthDataKeys(job: Job, rows: seq<Row>, t: Tables, inverters: set<int>)
    requires AllOf(rows, MonthData) && AllCommittable(job, rows, inverters)
    ensures Effects(job, rows, t).dailyYields.Keys == t.dailyYields.Keys + StoredDates(job, rows)
  {
    if rows == [] {
      assert StoredDates(job, rows) == {};
    } else {
      var front, last := rows[..|rows| - 1], rows[|rows| - 1];
      MonthDataKeys(job, front, t, inverters);
      assert Committable(job, last, inverters) && last.MonthRow?;
      assert StoredDates(job, rows) ==
             StoredDates(job, front) + {MonthKey(job, last)};
    }
  }

  const MONTH: nat := 5

  lemma {:induction false} YieldsOnlyFromMonthData(job: Job, p: nat)
    requires ValidJob(job) && p <= COUNT
    ensures TablesBefore(job, p).dailyYields ==
            if p <= MONTH then map[] else Effects(job, Todo(job, MONTH), TablesBefore(job, MONTH)).dailyYields
  {
    hide Effects, Todo, AllOf;
    if p > 0 {
      YieldsOnlyFromMonthData(job, p - 1);
      TodoCategory(job, p - 1, 0);
      if p - 1 != MONTH {
        OnlyMonthDataWritesYields(job, Todo(job, p - 1), CATEGORIES[p - 1], TablesBefore(job, p - 1));
      }
    }
  }

  /** Once every category is complete, the copied yields are those of the MonthData dates. */
  lemma CopiedYields(job: Job, db: Database)
    requires ValidJob(job) && At(job, db, COUNT, 0)
    ensures TablesBefore(job, COUNT).dailyYields.Keys == StoredDates(job, Todo(job, MONTH))
  {
    YieldsOnlyFromMonthData(job, COUNT);
    YieldsOnlyFromMonthData(job, MONTH);
    TodoCategory(job, MONTH, 0);
    assert CategoryAt(job, db, COUNT, 0, MONTH);
    assert Todo(job, MONTH)[..|Todo(job, MONTH)|] == Todo(job, MONTH);
    MonthDataKeys(job, Todo(job, MONTH), TablesBefore(job, MONTH), TablesBefore(job, MONTH).inverters.Keys);
  }

  /** A job all of whose rows are migrated under the same options, on whatever days. */
  ghost predicate IsUniform(job: Job, o: Options) { forall row :: job.options(row) == o }

  lemma UniformDates(job: Job, o: Options, rows: seq<Row>)
    requires IsUniform(job, o)
    ensures StoredDates(job, rows) == CopiedDates(o.dateOf, rows)
  {}

  // ---------------------------------------------------------------- the sample scan

  /** A positive id for each serial, standing for the target's surrogate key. */
  function InverterId(serial: int): int { if serial >= 0 then 2 * serial + 1 else -2 * serial }

  function SampleAt(energy: map<SampleKey, Energy>, k: SampleKey): Sample
    requires k in energy
  {
    Sample(InverterId(k.serial), k.serial, k.at, energy[k].total)
  }

  /** The energy samples joined with their inverters, in inverter and time order. */
  ghost predicate IsScan(energy: map<SampleKey, Energy>, s: seq<Sample>) {
    && Ascending(s, SampleOrder)
    && (forall i | 0 <= i < |s| :: SampleKey(s[i].serial, s[i].at) in energy
                                 && s[i] == SampleAt(energy, SampleKey(s[i].serial, s[i].at)))
    && (forall k | k in energy :: SampleAt(energy, k) in s)
  }

  lemma ScanIsValid(energy: map<SampleKey, Energy>, s: seq<Sample>)
    requires IsScan(energy, s)
    ensures ValidSamples(s)
  {
  }

  predicate AllIn(s: seq<Sample>, t: seq<Sample>) { forall i | 0 <= i < |s| :: s[i] in t }

  lemma FirstIn(s: seq<Sample>, t: seq<Sample>)
    requires s != [] && AllIn(s, t)
    ensures t != [] && s[0] in t
  {}

  lemma SameHead(s: seq<Sample>, t: seq<Sample>)
    requires Ascending(s, SampleOrder) && Ascending(t, SampleOrder) && s != [] && t != []
    requires s[0] in t && t[0] in s
    ensures s[0] == t[0]
  {}

  lemma TailMembers(s: seq<Sample>, t: seq<Sample>)
    requires Ascending(s, SampleOrder) && s != [] && t != [] && s[0] == t[0] && AllIn(s, t)
    ensures AllIn(s[1..], t[1..])
  {
    forall i | 0 <= i < |s[1..]|
      ensures s[1..][i] in t[1..]
    {
      assert s[i + 1] in t && Less(SampleOrder(s[0]), SampleOrder(s[i + 1]));
    }
  }

  lemma TailAscends(s: seq<Sample>)
    requires Ascending(s, SampleOrder) && s != []
    ensures Ascending(s[1..], SampleOrder)
  {}

  lemma {:induction false} AscendingWithSameElements(s: seq<Sample>, t: seq<Sample>)
    requires Ascending(s, SampleOrder) && Ascending(t, SampleOrder) && AllIn(s, t) && AllIn(t, s)
    ensures s == t
  {
    hide Ascending, AllIn;
    if t != [] { FirstIn(t, s); }
    if s != [] {
      FirstIn(s, t);
      SameHead(s, t);
      TailMembers(s, t);
      TailMembers(t, s);
      TailAscends(s);
      TailAscends(t);
      AscendingWithSameElements(s[1..], t[1..]);
      assert s == [s[0]] + s[1..] && t == [t[0]] + t[1..];
    }
  }

  lemma ScanIsUnique(energy: map<SampleKey, Energy>, s: seq<Sample>, t: seq<Sample>)
    requires IsScan(energy, s) && IsScan(energy, t)
    ensures s == t
  {
    AscendingWithSameElements(s, t);
  }

  predicate FirstKey(remaining: set<SampleKey>, k: SampleKey) {
    k in remaining && forall j | j in remaining ::
      j == k || Less(Key(InverterId(k.serial), k.at, 0), Key(InverterId(j.serial), j.at, 0))
  }

  lemma {:induction false} FirstKeyExists(remaining: set<SampleKey>)
    requires remaining != {}
    ensures exists k :: FirstKey(remaining, k)
  {
    var k :| k in remaining;
    var rest := remaining - {k};
    if rest == {} {
      assert remaining == {k};
      assert FirstKey(remaining, k);
    } else {
      FirstKeyExists(rest);
      var m :| FirstKey(rest, m);
      assert FirstKey(remaining, k) || FirstKey(remaining, m);
    }
  }

  /** What the ordered join over the energy table returns. */
  method ScanEnergy(energy: map<SampleKey, Energy>) returns (s: seq<Sample>)
    ensures IsScan(energy, s)
  {
    s := [];
    var remaining := energy.Keys;
    while remaining != {}
      invariant remaining <= energy.Keys
      invariant Ascending(s, SampleOrder)
      invariant forall i, j | 0 <= i < |s| && j in remaining :: Less(SampleOrder(s[i]), Key(InverterId(j.serial), j.at, 0))
      invariant forall i | 0 <= i < |s| :: SampleKey(s[i].serial, s[i].at) in energy
                                         && s[i] == SampleAt(energy, SampleKey(s[i].serial, s[i].at))
      invariant forall k | k in energy :: k in remaining || SampleAt(energy, k) in s
      decreases remaining
    {
      FirstKeyExists(remaining);
      var k :| FirstKey(remaining, k);
      s := s + [SampleAt(energy, k)];
      remaining := remaining - {k};
    }
  }

  // ---------------------------------------------------------------- final tables

  ghost function TheScan(energy: map<SampleKey, Energy>): seq<Sample> {
    if exists s :: IsScan(energy, s) then var s :| IsScan(energy, s); s else []
  }

  function DayIdOf(k: DayKey): DayId { DayId(InverterId(k.serial), k.serial, k.date) }

  /** The dates whose yield is reconstructed from the samples: sampled, not copied, with a baseline and a total. */
  ghost function ReconstructedDates(dateOf: int -> int, energy: map<SampleKey, Energy>, copied: set<DayKey>): set<DayKey> {
    var s := TheScan(energy);
    set k | k in (set i | 0 <= i < |s| :: DayKey(s[i].serial, dateOf(s[i].at)))
            && OutcomeOf(s, dateOf, copied, DayIdOf(k)).Rebuilt?
  }

  /** Their yields, as a session stores them that started on the day `today`. */
  ghost function ReconstructedYields(dateOf: int -> int, today: int, energy: map<SampleKey, Energy>, copied: set<DayKey>)
    : map<DayKey, DailyYield>
  {
    map k | k in ReconstructedDates(dateOf, energy, copied) ::
      var o := OutcomeOf(TheScan(energy), dateOf, copied, DayIdOf(k));
      DailyYield(Some(o.total), Some(o.daily), k.date < today)
  }

  /** The yields that a session with these options reconstructs from these tables. */
  ghost function SessionYields(job: Job, o: Options, today: int, t: Tables): map<DayKey, DailyYield>
    requires |job.rows| == COUNT
  {
    ReconstructedYields(o.dateOf, today, t.energy, CopiedDates(o.dateOf, Todo(job, MONTH)))
  }

  /** The tables with these yields stored over their own; nothing is removed. */
  function Overwrite(t: Tables, y: map<DayKey, DailyYield>): Tables { t.(dailyYields := t.dailyYields + y) }

  /** The canonical tables of a run that is finished on the day `today`, when one timezone serves throughout. */
  ghost function FinalTables(job: Job, dateOf: int -> int, today: int): Tables
    requires |job.rows| == COUNT
  {
    var t := TablesBefore(job, COUNT);
    Overwrite(t, ReconstructedYields(dateOf, today, t.energy, t.dailyYields.Keys))
  }

  /** All categories complete, and only reconstructed dates have yields beside the copied ones. */
  ghost predicate Rebuilding(job: Job, dateOf: int -> int, tables: Tables)
    requires |job.rows| == COUNT
  {
    var t := TablesBefore(job, COUNT);
    && SameButYields(tables, t)
    && Extends(tables.dailyYields, t.dailyYields)
    && tables.dailyYields.Keys <= t.dailyYields.Keys + ReconstructedDates(dateOf, t.energy, t.dailyYields.Keys)
  }

  /** Some of these yields have been stored, and nothing else has changed. */
  ghost predicate StoresSome(before: Tables, after: Tables, y: map<DayKey, DailyYield>) {
    && SameButYields(after, before)
    && forall d :: var a := Find(after.dailyYields, d);
                   a == Find(before.dailyYields, d) || (d in y && a == Some(y[d]))
  }

  function EntryKey(d: Detail): DayKey { DayKey(d.day.serial, d.day.date) }

  function EntryYield(d: Detail, today: int): DailyYield { DailyYield(Some(d.total), Some(d.daily), d.day.date < today) }

  function UpsertYield(t: Tables, d: Detail, today: int): Tables {
    t.(dailyYields := t.dailyYields[EntryKey(d) := EntryYield(d, today)])
  }

  function UpsertYields(t: Tables, r: seq<Detail>, today: int): Tables {
    if r == [] then t else UpsertYield(UpsertYields(t, r[..|r| - 1], today), r[|r| - 1], today)
  }

  /** A reconstructed day was sampled, so it lies in its inverter's span. */
  lemma ReconstructedIsInSpan(s: seq<Sample>, dateOf: int -> int, copied: set<DayKey>, k: DayKey)
    requires k in (set i | 0 <= i < |s| :: DayKey(s[i].serial, dateOf(s[i].at)))
    requires forall i | 0 <= i < |s| :: s[i].inverter == InverterId(s[i].serial)
    ensures InSpan(s, dateOf, DayIdOf(k))
  {
    var i :| 0 <= i < |s| && DayKey(s[i].serial, dateOf(s[i].at)) == k;
    assert SampleOf(s[i], DayIdOf(k));
  }

  lemma RebuiltDayWasSampled(s: seq<Sample>, dateOf: int -> int, copied: set<DayKey>, day: DayId)
    requires OutcomeOf(s, dateOf, copied, day).Rebuilt? && InSpan(s, dateOf, day)
    requires forall i | 0 <= i < |s| :: s[i].inverter == InverterId(s[i].serial)
    ensures var k := DayKey(day.serial, day.date);
            k in (set i | 0 <= i < |s| :: DayKey(s[i].serial, dateOf(s[i].at))) && DayIdOf(k) == day && k !in copied
  {
    assert IsSampled(s, dateOf, day.inverter, day.date);
    var i :| 0 <= i < |s| && s[i].inverter == day.inverter && dateOf(s[i].at) == day.date;
    var a :| 0 <= a < |s| && SampleOf(s[a], day) && dateOf(s[a].at) <= day.date;
    assert s[i].serial == s[a].serial == day.serial;
  }

  lemma EntryHasYield(dateOf: int -> int, today: int, energy: map<SampleKey, Energy>, copied: set<DayKey>, s: seq<Sample>,
                      e: Detail)
    requires IsScan(energy, s) && InSpan(s, dateOf, e.day)
    requires OutcomeOf(s, dateOf, copied, e.day) == Rebuilt(e.total, e.daily)
    ensures var y := ReconstructedYields(dateOf, today, energy, copied);
            EntryKey(e) in y && y[EntryKey(e)] == EntryYield(e, today)
  {
    ScanIsUnique(energy, s, TheScan(energy));
    RebuiltDayWasSampled(s, dateOf, copied, e.day);
    hide IsScan, InSpan, OutcomeOf, TheScan;
  }

  lemma YieldHasEntry(dateOf: int -> int, energy: map<SampleKey, Energy>, copied: set<DayKey>, s: seq<Sample>, k: DayKey)
    requires IsScan(energy, s) && k in ReconstructedDates(dateOf, energy, copied)
    ensures InSpan(s, dateOf, DayIdOf(k)) && OutcomeOf(s, dateOf, copied, DayIdOf(k)).Rebuilt?
  {
    ScanIsUnique(energy, s, TheScan(energy));
    ReconstructedIsInSpan(s, dateOf, copied, k);
    hide IsScan, InSpan, OutcomeOf, TheScan;
  }

  /** The report's reconstructed entries are exactly these yields. */
  ghost predicate Lists(r: seq<Detail>, today: int, y: map<DayKey, DailyYield>) {
    && (forall e | e in r :: EntryKey(e) in y && y[EntryKey(e)] == EntryYield(e, today))
    && (forall k | k in y :: exists e :: e in r && EntryKey(e) == k)
  }

  lemma ReportGivesYields(dateOf: int -> int, today: int, energy: map<SampleKey, Energy>, copied: set<DayKey>,
                          s: seq<Sample>, r: seq<Detail>, m: seq<MissingDay>)
    requires IsScan(energy, s) && Reports(s, dateOf, copied, d => InSpan(s, dateOf, d), r, m)
    ensures Lists(r, today, ReconstructedYields(dateOf, today, energy, copied))
  {
    var y := ReconstructedYields(dateOf, today, energy, copied);
    RebuiltKeys(dateOf, today, energy, copied);
    hide ReconstructedYields, ReconstructedDates, IsScan, InSpan, OutcomeOf;
    forall e | e in r
      ensures EntryKey(e) in y && y[EntryKey(e)] == EntryYield(e, today)
    {
      EntryHasYield(dateOf, today, energy, copied, s, e);
    }
    forall k | k in y
      ensures exists e :: e in r && EntryKey(e) == k
    {
      YieldHasEntry(dateOf, energy, copied, s, k);
      var o := OutcomeOf(s, dateOf, copied, DayIdOf(k));
      var e := Detail(DayIdOf(k), o.total, o.daily);
      assert e in r && EntryKey(e) == k;
    }
  }

  lemma RebuiltKeys(dateOf: int -> int, today: int, energy: map<SampleKey, Energy>, copied: set<DayKey>)
    ensures ReconstructedYields(dateOf, today, energy, copied).Keys == ReconstructedDates(dateOf, energy, copied)
  {}

  lemma ReconstructedAreNotCopied(dateOf: int -> int, energy: map<SampleKey, Energy>, copied: set<DayKey>)
    ensures forall k | k in ReconstructedDates(dateOf, energy, copied) :: k !in copied
  {}

  // ---------------------------------------------------------------- storing the entries one by one

  /** The first `n` entries store some of the yields, among them those of these entries. */
  lemma {:induction false} EntriesStore(before: Tables, r: seq<Detail>, today: int, y: map<DayKey, DailyYield>, n: nat)
    requires n <= |r| && Lists(r, today, y)
    ensures var after := UpsertYields(before, r[..n], today);
            && StoresSome(before, after, y)
            && forall i | 0 <= i < n :: Find(after.dailyYields, EntryKey(r[i])) == Some(y[EntryKey(r[i])])
  {
    hide Lists, StoresSome, EntryKey, EntryYield;
    if n == 0 {
      NothingStored(before, y);
    } else {
      EntriesStore(before, r, today, y, n - 1);
      assert r[..n][..n - 1] == r[..n - 1];
      EntryOf(r, today, y, n - 1);
      StoreOne(before, UpsertYields(before, r[..n - 1], today), r[n - 1], today, y);
    }
  }

  lemma NothingStored(t: Tables, y: map<DayKey, DailyYield>)
    ensures StoresSome(t, t, y)
  {}

  lemma EntryOf(r: seq<Detail>, today: int, y: map<DayKey, DailyYield>, i: nat)
    requires i < |r| && Lists(r, today, y)
    ensures EntryKey(r[i]) in y && y[EntryKey(r[i])] == EntryYield(r[i], today)
    ensures forall j | 0 <= j < |r| :: EntryKey(r[j]) in y
  {}

  lemma StoreOne(before: Tables, t: Tables, e: Detail, today: int, y: map<DayKey, DailyYield>)
    requires StoresSome(before, t, y) && EntryKey(e) in y && y[EntryKey(e)] == EntryYield(e, today)
    ensures var after := UpsertYield(t, e, today);
            && StoresSome(before, after, y)
            && forall d :: Find(after.dailyYields, d) == if d == EntryKey(e) then Some(y[d]) else Find(t.dailyYields, d)
  {
    hide EntryKey, EntryYield;
  }

  /** All entries of a report together overwrite the yields with the reconstructed ones. */
  lemma ReportOverwrites(before: Tables, r: seq<Detail>, today: int, y: map<DayKey, DailyYield>)
    requires Lists(r, today, y)
    ensures UpsertYields(before, r, today) == Overwrite(before, y)
  {
    EntriesStore(before, r, today, y, |r|);
    assert r[..|r|] == r;
    var after := UpsertYields(before, r, today);
    hide EntryKey, EntryYield, UpsertYields;
    forall d
      ensures Find(after.dailyYields, d) == Find(before.dailyYields + y, d)
    {
      if d in y {
        var e :| e in r && EntryKey(e) == d;
        var i :| 0 <= i < |r| && r[i] == e;
        assert Find(after.dailyYields, EntryKey(r[i])) == Some(y[EntryKey(r[i])]);
      }
    }
    SameFinds(after.dailyYields, before.dailyYields + y);
  }

  // ---------------------------------------------------------------- one timezone throughout

  /** Storing some reconstructed yields goes on with a rebuild, storing all of them finishes it. */
  lemma StoringKeepsRebuilding(job: Job, dateOf: int -> int, today: int, before: Tables, after: Tables)
    requires |job.rows| == COUNT && Rebuilding(job, dateOf, before)
    requires StoresSome(before, after, ReconstructedYields(dateOf, today, before.energy, TablesBefore(job, COUNT).dailyYields.Keys))
    ensures Rebuilding(job, dateOf, after)
  {
    var t := TablesBefore(job, COUNT);
    RebuiltKeys(dateOf, today, t.energy, t.dailyYields.Keys);
    ReconstructedAreNotCopied(dateOf, t.energy, t.dailyYields.Keys);
    hide TablesBefore, ReconstructedDates, ReconstructedYields, StoresSome;
    StoredBeside(t, before, after, ReconstructedYields(dateOf, today, t.energy, t.dailyYields.Keys));
  }

  lemma StoredBeside(t: Tables, before: Tables, after: Tables, y: map<DayKey, DailyYield>)
    requires SameButYields(before, t) && Extends(before.dailyYields, t.dailyYields)
    requires before.dailyYields.Keys <= t.dailyYields.Keys + y.Keys && forall d | d in y :: d !in t.dailyYields
    requires StoresSome(before, after, y)
    ensures SameButYields(after, t) && Extends(after.dailyYields, t.dailyYields)
    ensures after.dailyYields.Keys <= t.dailyYields.Keys + y.Keys
  {
    forall d | d in t.dailyYields
      ensures d in after.dailyYields && after.dailyYields[d] == t.dailyYields[d]
    {
      assert Find(after.dailyYields, d) == Find(before.dailyYields, d);
    }
    forall d | d in after.dailyYields
      ensures d in t.dailyYields.Keys + y.Keys
    {
      assert Find(after.dailyYields, d).Some?;
    }
  }

  lemma OverwritingFinishes(job: Job, dateOf: int -> int, today: int, before: Tables)
    requires |job.rows| == COUNT && Rebuilding(job, dateOf, before)
    ensures before.energy == TablesBefore(job, COUNT).energy
    ensures Overwrite(before, ReconstructedYields(dateOf, today, before.energy, TablesBefore(job, COUNT).dailyYields.Keys)) ==
            FinalTables(job, dateOf, today)
  {
    var t := TablesBefore(job, COUNT);
    RebuiltKeys(dateOf, today, t.energy, t.dailyYields.Keys);
    hide TablesBefore, ReconstructedDates, ReconstructedYields, Overwrite;
    SameOverwritten(before, t, ReconstructedYields(dateOf, today, t.energy, t.dailyYields.Keys));
  }

  lemma SameOverwritten(t: Tables, u: Tables, y: map<DayKey, DailyYield>)
    requires SameButYields(t, u) && Extends(t.dailyYields, u.dailyYields) && t.dailyYields.Keys <= u.dailyYields.Keys + y.Keys
    ensures t.energy == u.energy && Overwrite(t, y) == Overwrite(u, y)
  {
    assert t.dailyYields + y == u.dailyYields + y;
  }
}
