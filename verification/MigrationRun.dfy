/**
 What a migration run may have committed: the position it has reached, the tables and the
 checkpoints that go with that position, and what the checkpoints say on their own.
 */
module MigrationRun {
  import opened Wrappers
  import opened Keyset
  import opened CheckpointKeys
  import opened Canonical

  datatype Checkpoint = Checkpoint(lastKey: Option<string>, rowsProcessed: int, completed: bool)

  datatype RunStatus = Running | Interrupted | VerificationFailed | Completed
  datatype Run = Run(fingerprint: int, timezone: int, status: RunStatus, rowsProcessed: int, categoriesCompleted: int)

  /** A target; `exportsTable` says whether the optional table of PVOutput exports exists. */
  datatype Database = Database(tables: Tables, checkpoints: map<Category, Checkpoint>, run: Option<Run>,
                               exportsTable: bool)

  const NO_DATABASE := Database(NO_TABLES, map[], None, false)
  const COUNT: nat := 8

  // ---------------------------------------------------------------- keys of a category

  function StartKey(c: Category): Key {
    if c.SpotDataX? then InitialSpotDataX() else Key(0, 0, 0)
  }

  function EncodeKey(c: Category, k: Key): string {
    if c.SpotDataX? then EncodeSpotDataX(k) else Show(k.a)
  }

  function ParseKey(c: Category, text: string): Option<Key> {
    if c.SpotDataX? then ParseSpotDataX(text)
    else match ParseI64(text) case Some(n) => Some(Key(n, 0, 0)) case None => None
  }

  /** The text a resumed run starts from: the stored key, or "0" when none was stored. */
  function LastKeyText(db: Database, c: Category): string {
    if c in db.checkpoints && db.checkpoints[c].lastKey.Some? then db.checkpoints[c].lastKey.value else "0"
  }

  lemma ParsesStart(c: Category)
    ensures ParseKey(c, "0") == Some(StartKey(c))
  {
    if !c.SpotDataX? {
      assert Show(0) == "0";
      ShowRoundTrip(0);
    }
  }

  // ---------------------------------------------------------------- rows of a category

  function Skip(rows: seq<Row>, start: Key): (n: nat)
    ensures n <= |rows|
  {
    if rows == [] || Less(start, KeyOf(rows[0])) then 0 else 1 + Skip(rows[1..], start)
  }

  function Skipped(job: Job, p: nat): nat
    requires p < |job.rows| == COUNT
  {
    Skip(job.rows[p], StartKey(CATEGORIES[p]))
  }

  /** The rows of a category above its start key, in key order. */
  function Todo(job: Job, p: nat): seq<Row>
    requires p < |job.rows| == COUNT
  {
    job.rows[p][Skipped(job, p)..]
  }

  lemma {:induction false} SkipIsCursor(rows: seq<Row>, start: Key)
    requires Ascending(rows, KeyOf)
    ensures Cursor(rows, KeyOf, start, Skip(rows, start))
  {
    if rows != [] && !Less(start, KeyOf(rows[0])) {
      SkipIsCursor(rows[1..], start);
      assert forall i | 0 < i < |rows| :: rows[i] == rows[1..][i - 1];
    } else if rows != [] {
      assert forall i | 0 < i < |rows| :: Less(KeyOf(rows[0]), KeyOf(rows[i]));
    }
  }

  /** Skipped are the rows whose rowid is not positive; of SpotDataX only a row whose three key columns are the least number. */
  lemma SkippedExactlyWhen(job: Job, p: nat, i: nat)
    requires ValidJob(job) && p < COUNT && i < |job.rows[p]|
    ensures |job.rows| == COUNT
    ensures i < Skipped(job, p) <==>
            match job.rows[p][i]
            case SpotXRow(at, serial, lri, _) => at == serial == lri == -0x8000_0000_0000_0000
            case _ => job.rows[p][i].rowid <= 0
  {
    var row := job.rows[p][i];
    assert CategoryOf(row) == CATEGORIES[p];
    SkipIsCursor(job.rows[p], StartKey(CATEGORIES[p]));
  }

  /** The key the cursor stands on after `k` rows of category `p`. */
  function CursorKey(job: Job, p: nat, k: nat): Key
    requires p < |job.rows| == COUNT && k <= |Todo(job, p)|
  {
    if k == 0 then StartKey(CATEGORIES[p]) else KeyOf(Todo(job, p)[k - 1])
  }

  lemma CursorAfter(job: Job, p: nat, k: nat)
    requires ValidJob(job) && p < COUNT && k <= |Todo(job, p)|
    ensures Cursor(job.rows[p], KeyOf, CursorKey(job, p, k), Skipped(job, p) + k)
  {
    SkipIsCursor(job.rows[p], StartKey(CATEGORIES[p]));
    if k > 0 { RowIsCursor(job.rows[p], KeyOf, Skipped(job, p) + k); }
  }

  /** The `n` rows after the first `k` of category `p`. */
  function NextRows(job: Job, p: nat, k: nat, n: nat): seq<Row>
    requires p < |job.rows| == COUNT && k + n <= |Todo(job, p)|
  {
    Todo(job, p)[k..k + n]
  }

  // ---------------------------------------------------------------- tables at a position

  function TablesBefore(job: Job, p: nat): Tables
    requires p <= |job.rows| == COUNT
  {
    if p == 0 then NO_TABLES else Effects(job, Todo(job, p - 1), TablesBefore(job, p - 1))
  }

  /** One-row-at-a-time migration of all earlier categories and `k` rows of category `p`. */
  function TablesAt(job: Job, p: nat, k: nat): Tables
    requires p < |job.rows| == COUNT && k <= |Todo(job, p)|
  {
    Effects(job, Todo(job, p)[..k], TablesBefore(job, p))
  }

  /** A row that a committed batch may contain: as `RowOk`, without the charge column's range. */
  predicate Committable(job: Job, row: Row, inverters: set<int>) {
    if row.SpotXRow? then DecodesX(row, inverters) else RowOk(job, row, inverters)
  }

  predicate AllCommittable(job: Job, rows: seq<Row>, inverters: set<int>) {
    forall i | 0 <= i < |rows| :: Committable(job, rows[i], inverters)
  }

  ghost predicate CheckpointIs(job: Job, db: Database, p: nat, k: nat, completed: bool)
    requires p < |job.rows| == COUNT && k <= |Todo(job, p)|
  {
    var c := CATEGORIES[p];
    && (c in db.checkpoints <==> completed || k > 0)
    && (c in db.checkpoints ==>
          db.checkpoints[c] ==
          Checkpoint(if k == 0 then None else Some(EncodeKey(c, CursorKey(job, p, k))), k, completed))
  }

  ghost predicate Extends(y: map<DayKey, DailyYield>, base: map<DayKey, DailyYield>) {
    forall d | d in base :: d in y && y[d] == base[d]
  }

  /** Tables that differ at most in the daily yields, which the rebuild writes after the copy. */
  ghost predicate SameButYields(tables: Tables, other: Tables) {
    tables.(dailyYields := other.dailyYields) == other
  }

  /** How many rows of category `c` are committed at position `(p, k)`. */
  function Reached(job: Job, p: nat, k: nat, c: nat): nat
    requires c < |job.rows| == COUNT
  {
    if c < p then |Todo(job, c)| else if c == p then k else 0
  }

  ghost predicate Position(job: Job, p: nat, k: nat)
    requires |job.rows| == COUNT
  {
    p <= COUNT && if p < COUNT then k <= |Todo(job, p)| else k == 0
  }

  /** What position `(p, k)` means for category `c`: its checkpoint, and rows that could be stored. */
  ghost predicate CategoryAt(job: Job, db: Database, p: nat, k: nat, c: nat)
    requires c < |job.rows| == COUNT && Position(job, p, k)
  {
    && CheckpointIs(job, db, c, Reached(job, p, k, c), c < p)
    && AllCommittable(job, Todo(job, c)[..Reached(job, p, k, c)], TablesBefore(job, c).inverters.Keys)
  }

  /** The database after `p` completed categories and `k` committed rows of the next one. */
  ghost predicate At(job: Job, db: Database, p: nat, k: nat)
    requires |job.rows| == COUNT
  {
    && Position(job, p, k)
    && (forall c: nat | c < COUNT :: CategoryAt(job, db, p, k, c))
    && (if p < COUNT then db.tables == TablesAt(job, p, k)
        else SameButYields(db.tables, TablesBefore(job, COUNT)))
  }

  lemma AtPosition(job: Job, db: Database, p: nat, k: nat)
    requires |job.rows| == COUNT && At(job, db, p, k)
    ensures Position(job, p, k)
    ensures p < COUNT ==> db.tables == TablesAt(job, p, k)
    ensures p == COUNT ==> SameButYields(db.tables, TablesBefore(job, COUNT))
  {
  }

  /** The position after the last category does not depend on the daily yields, nor on the run's status row. */
  lemma AtCount(job: Job, db: Database, db': Database)
    requires |job.rows| == COUNT && At(job, db, COUNT, 0) && db'.checkpoints == db.checkpoints
    requires SameButYields(db'.tables, db.tables)
    ensures At(job, db', COUNT, 0)
  {
    hide AllCommittable;
    forall c: nat | c < COUNT
      ensures CategoryAt(job, db', COUNT, 0, c)
    {
      assert CategoryAt(job, db, COUNT, 0, c);
    }
  }

  lemma AtStart(job: Job)
    requires ValidJob(job)
    ensures At(job, NO_DATABASE, 0, 0)
  {
    assert Todo(job, 0)[..0] == [];
  }

  // ---------------------------------------------------------------- options of the rows

  /** Both jobs migrate the rows before position `(p, k)` under the same options and on the same days. */
  ghost predicate AgreeBefore(a: Job, b: Job, p: nat, k: nat)
    requires |a.rows| == |b.rows| == COUNT && Position(a, p, k)
  {
    a.rows == b.rows && forall c: nat | c < COUNT :: SameOptions(a, b, Todo(a, c)[..Reached(a, p, k, c)])
  }

  /** Both jobs migrate the rows from position `(p, k)` on under the same options and on the same days. */
  ghost predicate AgreeFrom(a: Job, b: Job, p: nat, k: nat)
    requires |a.rows| == |b.rows| == COUNT && Position(a, p, k)
  {
    a.rows == b.rows && forall c: nat | c < COUNT :: SameOptions(a, b, Todo(a, c)[Reached(a, p, k, c)..])
  }

  lemma SameTodo(a: Job, b: Job, c: nat)
    requires a.rows == b.rows && c < |a.rows| == COUNT
    ensures Todo(a, c) == Todo(b, c)
  {}

  lemma {:induction false} AgreeingTables(a: Job, b: Job, p: nat, k: nat, c: nat)
    requires |a.rows| == |b.rows| == COUNT && Position(a, p, k) && AgreeBefore(a, b, p, k) && c <= p
    ensures TablesBefore(a, c) == TablesBefore(b, c)
    decreases c
  {
    hide Todo, Effects, SameOptions;
    if c > 0 {
      AgreeingTables(a, b, p, k, c - 1);
      SameTodo(a, b, c - 1);
      assert Reached(a, p, k, c - 1) == |Todo(a, c - 1)|;
      assert Todo(a, c - 1)[..|Todo(a, c - 1)|] == Todo(a, c - 1);
      assert SameOptions(a, b, Todo(a, c - 1)[..Reached(a, p, k, c - 1)]);
      SameOptionsSameEffects(a, b, Todo(a, c - 1), TablesBefore(a, c - 1));
    }
  }

  lemma AgreeingCategory(a: Job, b: Job, db: Database, p: nat, k: nat, c: nat)
    requires |a.rows| == |b.rows| == COUNT && Position(a, p, k) && AgreeBefore(a, b, p, k) && c < COUNT
    requires CategoryAt(a, db, p, k, c)
    ensures Position(b, p, k) && CategoryAt(b, db, p, k, c)
  {
    SameTodo(a, b, c);
    if p < COUNT { SameTodo(a, b, p); }
    var rows := Todo(a, c)[..Reached(a, p, k, c)];
    assert SameOptions(a, b, rows);
    if c <= p {
      AgreeingTables(a, b, p, k, c);
      hide TablesBefore, Todo, RowOk, CheckpointIs;
      var known := TablesBefore(a, c).inverters.Keys;
      forall i | 0 <= i < |rows|
        ensures Committable(b, rows[i], known)
      {
        assert Committable(a, rows[i], known);
        SameOptionsSameRows(a, b, rows[i], known);
      }
    } else {
      assert |rows| == 0;
    }
    SameCheckpoint(a, b, db, c, Reached(a, p, k, c), c < p);
  }

  lemma SameCheckpoint(a: Job, b: Job, db: Database, p: nat, k: nat, completed: bool)
    requires a.rows == b.rows && p < |a.rows| == COUNT && k <= |Todo(a, p)| && CheckpointIs(a, db, p, k, completed)
    ensures k <= |Todo(b, p)| && CheckpointIs(b, db, p, k, completed)
  {}

  /** A position depends on the options and days of the rows before it only. */
  lemma AgreeingAt(a: Job, b: Job, db: Database, p: nat, k: nat)
    requires |a.rows| == |b.rows| == COUNT && At(a, db, p, k) && AgreeBefore(a, b, p, k)
    ensures At(b, db, p, k)
  {
    if p < COUNT { SameTodo(a, b, p); }
    AgreeingTables(a, b, p, k, p);
    hide CategoryAt, TablesBefore, Todo, Effects, SameOptions;
    forall c: nat | c < COUNT
      ensures CategoryAt(b, db, p, k, c)
    {
      assert CategoryAt(a, db, p, k, c);
      AgreeingCategory(a, b, db, p, k, c);
    }
    if p < COUNT {
      assert SameOptions(a, b, Todo(a, p)[..Reached(a, p, k, p)]);
      SameOptionsSameEffects(a, b, Todo(a, p)[..k], TablesBefore(a, p));
    }
  }

  lemma SameOptionsSuffix(a: Job, b: Job, rows: seq<Row>, from: nat, to: nat)
    requires from <= to <= |rows| && SameOptions(a, b, rows[from..])
    ensures SameOptions(a, b, rows[to..])
  {
    assert forall i | 0 <= i < |rows| - to :: rows[to..][i] == rows[from..][to - from + i];
  }

  lemma AgreeFurther(a: Job, b: Job, p: nat, k: nat, q: nat, l: nat)
    requires |a.rows| == |b.rows| == COUNT && Position(a, p, k) && Position(a, q, l) && NotBefore(p, k, q, l)
    requires AgreeFrom(a, b, p, k)
    ensures AgreeFrom(a, b, q, l)
  {
    hide Todo, SameOptions;
    forall c: nat | c < COUNT
      ensures SameOptions(a, b, Todo(a, c)[Reached(a, q, l, c)..])
    {
      assert SameOptions(a, b, Todo(a, c)[Reached(a, p, k, c)..]);
      SameOptionsSuffix(a, b, Todo(a, c), Reached(a, p, k, c), Reached(a, q, l, c));
    }
  }

  lemma AgreeOnBatch(a: Job, b: Job, p: nat, k: nat, n: nat)
    requires |a.rows| == |b.rows| == COUNT && p < COUNT && k + n <= |Todo(a, p)| && AgreeFrom(a, b, p, k)
    ensures SameOptions(a, b, NextRows(a, p, k, n))
  {
    hide Todo;
    assert SameOptions(a, b, Todo(a, p)[Reached(a, p, k, p)..]);
    assert forall i | 0 <= i < n :: NextRows(a, p, k, n)[i] == Todo(a, p)[k..][i];
  }

  /** The place of a category in the order of migration. */
  function IndexOf(c: Category): (i: nat)
    ensures i < COUNT && CATEGORIES[i] == c
  {
    match c
    case Config => 0
    case Inverters => 1
    case SpotData => 2
    case SpotDataX => 3
    case DayData => 4
    case MonthData => 5
    case EventData => 6
    case Consumption => 7
  }

  /** Whether the row lies before position `(p, k)`. */
  predicate IsDone(job: Job, p: nat, k: nat, row: Row)
    requires |job.rows| == COUNT && (p < COUNT ==> k <= |Todo(job, p)|)
  {
    var c := IndexOf(CategoryOf(row));
    c < p || (c == p && !Less(CursorKey(job, p, k), KeyOf(row)))
  }

  /** A run that goes on from position `(p, k)` under other options or on another day: the rows before it keep theirs. */
  function Switched(job: Job, o: Options, today: int, p: nat, k: nat): Job
    requires |job.rows| == COUNT && (p < COUNT ==> k <= |Todo(job, p)|)
  {
    Job(job.fingerprint, job.rows, row => if IsDone(job, p, k, row) then job.options(row) else o,
        row => if IsDone(job, p, k, row) then job.today(row) else today)
  }

  lemma DoneRows(job: Job, p: nat, k: nat, c: nat, i: nat)
    requires ValidJob(job) && Position(job, p, k) && c < COUNT && i < |Todo(job, c)|
    ensures IsDone(job, p, k, Todo(job, c)[i]) <==> i < Reached(job, p, k, c)
  {
    var row := job.rows[c][Skipped(job, c) + i];
    assert Todo(job, c)[i] == row && CategoryOf(row) == CATEGORIES[c];
    assert IndexOf(CategoryOf(row)) == c;
    if c == p {
      CursorAfter(job, p, k);
      hide ValidRows, KeyOf;
      AtCursor(job.rows[p], CursorKey(job, p, k), Skipped(job, p) + k, Skipped(job, p) + i);
    }
  }

  lemma AtCursor(rows: seq<Row>, after: Key, n: nat, i: nat)
    requires Cursor(rows, KeyOf, after, n) && i < |rows|
    ensures !Less(after, KeyOf(rows[i])) <==> i < n
  {}

  lemma SwitchedAgrees(job: Job, o: Options, today: int, p: nat, k: nat)
    requires ValidJob(job) && Position(job, p, k)
    ensures var b := Switched(job, o, today, p, k);
            && AgreeBefore(job, b, p, k)
            && Position(b, p, k)
            && AgreeFrom(b, JobOf(Source(job.fingerprint, job.rows), o, today), p, k)
  {
    var b := Switched(job, o, today, p, k);
    if p < COUNT { SameTodo(job, b, p); }
    forall c: nat | c < COUNT
      ensures SameOptions(job, b, Todo(job, c)[..Reached(job, p, k, c)])
      ensures Reached(b, p, k, c) <= |Todo(b, c)|
      ensures SameOptions(b, JobOf(Source(job.fingerprint, job.rows), o, today), Todo(b, c)[Reached(b, p, k, c)..])
    {
      SameTodo(job, b, c);
      hide Todo, IsDone, ValidRows;
      var n := Reached(job, p, k, c);
      forall i | 0 <= i < |Todo(job, c)|
        ensures b.options(Todo(job, c)[i]) == if i < n then job.options(Todo(job, c)[i]) else o
        ensures b.today(Todo(job, c)[i]) == if i < n then job.today(Todo(job, c)[i]) else today
      {
        DoneRows(job, p, k, c, i);
      }
    }
  }

  /** A change to one category's checkpoint leaves every other category where it is. */
  lemma OtherCategory(job: Job, db: Database, db': Database, p: nat, k: nat, p': nat, k': nat, at: nat, row: Checkpoint, c: nat)
    requires |job.rows| == COUNT && c < COUNT && at < COUNT && c != at
    requires Position(job, p, k) && Position(job, p', k')
    requires CategoryAt(job, db, p, k, c) && db'.checkpoints == db.checkpoints[CATEGORIES[at] := row]
    requires Reached(job, p, k, c) == Reached(job, p', k', c) && (c < p <==> c < p')
    ensures CategoryAt(job, db', p', k', c)
  {
    hide Todo, AllCommittable, TablesBefore, EncodeKey, CursorKey;
    assert CATEGORIES[c] != CATEGORIES[at];
  }

  lemma CommittableFurther(job: Job, todo: seq<Row>, k: nat, n: nat, known: set<int>)
    requires k + n <= |todo| && AllCommittable(job, todo[..k], known) && AllCommittable(job, todo[k..k + n], known)
    ensures AllCommittable(job, todo[..k + n], known)
  {
    hide Committable;
    var front := todo[..k + n];
    forall i | 0 <= i < |front|
      ensures Committable(job, front[i], known)
    {
      if i < k { assert todo[..k][i] == front[i]; } else { assert todo[k..k + n][i - k] == front[i]; }
    }
  }

  lemma CheckpointAdvances(job: Job, db: Database, p: nat, k: nat, n: nat, db': Database)
    requires p < |job.rows| == COUNT && 0 < n && k + n <= |Todo(job, p)| && CheckpointIs(job, db, p, k, false)
    requires db'.checkpoints == db.checkpoints[CATEGORIES[p] := Advanced(db, CATEGORIES[p], CursorKey(job, p, k + n), n)]
    ensures CheckpointIs(job, db', p, k + n, false)
  {
    hide Todo, CursorKey, EncodeKey;
  }

  /** What a position means for the category it is in. */
  lemma CategoryHere(job: Job, db: Database, p: nat, k: nat)
    requires p < |job.rows| == COUNT && k <= |Todo(job, p)|
    ensures Position(job, p, k)
    ensures CategoryAt(job, db, p, k, p) <==>
            CheckpointIs(job, db, p, k, false) && AllCommittable(job, Todo(job, p)[..k], TablesBefore(job, p).inverters.Keys)
  {
    hide CheckpointIs, AllCommittable, Todo, TablesBefore;
  }

  lemma CategoryAdvances(job: Job, db: Database, p: nat, k: nat, n: nat, db': Database)
    requires p < |job.rows| == COUNT && 0 < n && k + n <= |Todo(job, p)| && CategoryAt(job, db, p, k, p)
    requires AllCommittable(job, Todo(job, p)[k..k + n], TablesBefore(job, p).inverters.Keys)
    requires db'.checkpoints == db.checkpoints[CATEGORIES[p] := Advanced(db, CATEGORIES[p], CursorKey(job, p, k + n), n)]
    ensures CategoryAt(job, db', p, k + n, p)
  {
    hide *;
    CategoryHere(job, db, p, k);
    CategoryHere(job, db', p, k + n);
    CommittableFurther(job, Todo(job, p), k, n, TablesBefore(job, p).inverters.Keys);
    CheckpointAdvances(job, db, p, k, n, db');
  }

  lemma TablesAdvance(job: Job, p: nat, k: nat, n: nat)
    requires p < |job.rows| == COUNT && k + n <= |Todo(job, p)|
    ensures TablesAt(job, p, k + n) == Effects(job, NextRows(job, p, k, n), TablesAt(job, p, k))
  {
    var todo := Todo(job, p);
    assert todo[..k + n] == todo[..k] + todo[k..k + n];
    EffectsSplit(job, todo[..k], todo[k..k + n], TablesBefore(job, p));
  }

  /** One batch's transaction: the effects of the next `n` rows and the checkpoint advanced past them. */
  ghost predicate BatchStep(job: Job, db: Database, p: nat, k: nat, n: nat, db': Database)
    requires p < |job.rows| == COUNT && k + n <= |Todo(job, p)|
  {
    var c := CATEGORIES[p];
    && db'.tables == Effects(job, NextRows(job, p, k, n), db.tables)
    && db'.checkpoints == db.checkpoints[c := Advanced(db, c, CursorKey(job, p, k + n), n)]
  }

  lemma CategoriesAdvance(job: Job, db: Database, p: nat, k: nat, n: nat, db': Database, c: nat)
    requires p < |job.rows| == COUNT && 0 < n && k + n <= |Todo(job, p)| && c < COUNT
    requires Position(job, p, k) && Position(job, p, k + n)
    requires CategoryAt(job, db, p, k, p) && CategoryAt(job, db, p, k, c)
    requires AllCommittable(job, NextRows(job, p, k, n), TablesBefore(job, p).inverters.Keys)
    requires BatchStep(job, db, p, k, n, db')
    ensures CategoryAt(job, db', p, k + n, c)
  {
    hide CategoryAt, AllCommittable, Todo, TablesBefore, Advanced, CursorKey, Effects;
    if c == p {
      CategoryAdvances(job, db, p, k, n, db');
    } else {
      OtherCategory(job, db, db', p, k, p, k + n, p, Advanced(db, CATEGORIES[p], CursorKey(job, p, k + n), n), c);
    }
  }

  lemma AtMeans(job: Job, db: Database, p: nat, k: nat)
    requires p < |job.rows| == COUNT && k <= |Todo(job, p)|
    ensures Position(job, p, k)
    ensures At(job, db, p, k) <==>
            (forall c: nat | c < COUNT :: CategoryAt(job, db, p, k, c)) && db.tables == TablesAt(job, p, k)
  {
    hide CategoryAt, TablesAt, Todo;
  }

  lemma EightTables(job: Job)
    requires ValidJob(job)
    ensures |job.rows| == COUNT
  {}

  lemma BatchTables(job: Job, db: Database, p: nat, k: nat, n: nat, db': Database)
    requires p < |job.rows| == COUNT && k + n <= |Todo(job, p)| && db.tables == TablesAt(job, p, k)
    requires BatchStep(job, db, p, k, n, db')
    ensures db'.tables == TablesAt(job, p, k + n)
  {
    TablesAdvance(job, p, k, n);
    hide Effects, TablesAt, Todo;
  }

  /** Committing a batch's writes together with its checkpoint advance moves the run by that batch. */
  lemma AdvanceAt(job: Job, db: Database, p: nat, k: nat, n: nat, db': Database)
    requires ValidJob(job) && At(job, db, p, k) && p < COUNT && 0 < n && k + n <= |Todo(job, p)|
    requires AllCommittable(job, NextRows(job, p, k, n), TablesBefore(job, p).inverters.Keys)
    requires BatchStep(job, db, p, k, n, db')
    ensures At(job, db', p, k + n)
  {
    hide *;
    EightTables(job);
    var k' := k + n;
    AtMeans(job, db, p, k);
    AtMeans(job, db', p, k');
    BatchTables(job, db, p, k, n, db');
    forall c: nat | c < COUNT
      ensures CategoryAt(job, db', p, k', c)
    {
      CategoriesAdvance(job, db, p, k, n, db', c);
    }
  }

  /** The checkpoint row after advancing: counts add up, the key is replaced. */
  function Advanced(db: Database, c: Category, last: Key, n: nat): Checkpoint {
    Checkpoint(Some(EncodeKey(c, last)), RowsProcessed(db, c) + n, false)
  }

  /** The checkpoint row after completing: a category without rows gets one without a key. */
  function Finished(db: Database, c: Category): Checkpoint {
    if c in db.checkpoints then db.checkpoints[c].(completed := true) else Checkpoint(None, 0, true)
  }

  lemma CategoryCompletes(job: Job, db: Database, p: nat, db': Database)
    requires ValidJob(job) && p < COUNT && CategoryAt(job, db, p, |Todo(job, p)|, p)
    requires db'.checkpoints == db.checkpoints[CATEGORIES[p] := Finished(db, CATEGORIES[p])]
    ensures CategoryAt(job, db', p + 1, 0, p)
  {
  }

  lemma CompleteAt(job: Job, db: Database, p: nat, db': Database)
    requires ValidJob(job) && p < COUNT && At(job, db, p, |Todo(job, p)|)
    requires db'.tables == db.tables
    requires db'.checkpoints == db.checkpoints[CATEGORIES[p] := Finished(db, CATEGORIES[p])]
    ensures At(job, db', p + 1, 0)
    ensures p + 1 == COUNT ==> db'.tables == TablesBefore(job, COUNT)
  {
    hide CategoryAt, Effect, Finished;
    var all, p' := |Todo(job, p)|, p + 1;
    forall c: nat | c < COUNT
      ensures CategoryAt(job, db', p', 0, c)
    {
      if c == p {
        CategoryCompletes(job, db, p, db');
      } else {
        OtherCategory(job, db, db', p, all, p', 0, p, db'.checkpoints[CATEGORIES[p]], c);
      }
    }
    assert Todo(job, p)[..all] == Todo(job, p);
    assert TablesBefore(job, p') == db'.tables;
    if p' < COUNT { assert Todo(job, p')[..0] == []; }
  }

  /** Positions are ordered by progress. */
  predicate NotBefore(p: nat, k: nat, q: nat, l: nat) { p < q || (p == q && k <= l) }

  // ---------------------------------------------------------------- totals

  function RowsProcessed(db: Database, c: Category): int {
    if c in db.checkpoints then db.checkpoints[c].rowsProcessed else 0
  }

  function TotalRows(db: Database, p: nat): int
    requires p <= COUNT
  {
    if p == 0 then 0 else TotalRows(db, p - 1) + RowsProcessed(db, CATEGORIES[p - 1])
  }

  function CompletedCategories(db: Database, p: nat): nat
    requires p <= COUNT
  {
    if p == 0 then 0
    else
      var c := CATEGORIES[p - 1];
      CompletedCategories(db, p - 1) + if c in db.checkpoints && db.checkpoints[c].completed then 1 else 0
  }

  function SourceTotal(job: Job, p: nat): nat
    requires p <= |job.rows| == COUNT
  {
    if p == 0 then 0 else SourceTotal(job, p - 1) + |job.rows[p - 1]|
  }

  function SkippedTotal(job: Job, p: nat): nat
    requires p <= |job.rows| == COUNT
  {
    if p == 0 then 0 else SkippedTotal(job, p - 1) + Skipped(job, p - 1)
  }

  // ---------------------------------------------------------------- what the checkpoints alone say

  /** The rows a checkpoint covers: above the category's start key, at or below the stored last key. */
  function Covered(job: Job, db: Database, p: nat): seq<Row>
    requires p < |job.rows| == COUNT
  {
    var c := CATEGORIES[p];
    match ParseKey(c, LastKeyText(db, c))
    case Some(last) => Range(job.rows[p], KeyOf, StartKey(c), last)
    case None => []
  }

  /** One-row-at-a-time migration of exactly the rows the checkpoints cover. */
  function Replay(job: Job, db: Database, p: nat): Tables
    requires p <= |job.rows| == COUNT
  {
    if p == 0 then NO_TABLES else Effects(job, Covered(job, db, p - 1), Replay(job, db, p - 1))
  }

  lemma StoredKeyParses(job: Job, db: Database, p: nat, k: nat, completed: bool)
    requires ValidJob(job) && p < COUNT && k <= |Todo(job, p)|
    requires CheckpointIs(job, db, p, k, completed)
    ensures ParseKey(CATEGORIES[p], LastKeyText(db, CATEGORIES[p])) == Some(CursorKey(job, p, k))
  {
    ParsesStart(CATEGORIES[p]);
    if k > 0 {
      var row := job.rows[p][Skipped(job, p) + k - 1];
      assert Todo(job, p)[k - 1] == row && CategoryOf(row) == CATEGORIES[p];
      if CATEGORIES[p].SpotDataX? { SpotDataXRoundTrip(KeyOf(row)); } else { ShowRoundTrip(KeyOf(row).a); }
    }
  }

  /** A checkpoint covers exactly the rows it counts. */
  lemma CoveredRows(job: Job, db: Database, p: nat, k: nat, completed: bool)
    requires ValidJob(job) && p < COUNT && k <= |Todo(job, p)|
    requires CheckpointIs(job, db, p, k, completed)
    ensures Covered(job, db, p) == Todo(job, p)[..k]
    ensures RowsProcessed(db, CATEGORIES[p]) == |Covered(job, db, p)|
  {
    var rows, from := job.rows[p], Skipped(job, p);
    StoredKeyParses(job, db, p, k, completed);
    CursorAfter(job, p, k);
    SkipIsCursor(rows, StartKey(CATEGORIES[p]));
    RangeBetweenCursors(rows, KeyOf, StartKey(CATEGORIES[p]), CursorKey(job, p, k), from, from + k);
    assert rows[from..from + k] == Todo(job, p)[..k];
  }

  lemma CoveredAt(job: Job, db: Database, p: nat, k: nat, c: nat)
    requires ValidJob(job) && At(job, db, p, k) && c < COUNT
    ensures Covered(job, db, c) == Todo(job, c)[..Reached(job, p, k, c)]
    ensures RowsProcessed(db, CATEGORIES[c]) == |Covered(job, db, c)| == Reached(job, p, k, c)
    ensures CATEGORIES[c] in db.checkpoints && db.checkpoints[CATEGORIES[c]].completed <==> c < p
  {
    assert CategoryAt(job, db, p, k, c);
    CoveredRows(job, db, c, Reached(job, p, k, c), c < p);
  }

  lemma ReplayStart(job: Job, db: Database)
    requires |job.rows| == COUNT
    ensures Replay(job, db, 0) == TablesBefore(job, 0)
  {}

  /** The tables at the first `to` categories of position `(p, k)`. */
  function TablesUpTo(job: Job, p: nat, k: nat, to: nat): Tables
    requires to <= |job.rows| == COUNT && (p < COUNT ==> k <= |Todo(job, p)|)
  {
    if to <= p then TablesBefore(job, to) else TablesAt(job, p, k)
  }

  lemma {:induction false} ReplayAt(job: Job, db: Database, p: nat, k: nat, to: nat)
    requires ValidJob(job) && At(job, db, p, k) && to <= COUNT
    ensures Position(job, p, k) && Replay(job, db, to) == TablesUpTo(job, p, k, to)
  {
    hide *;
    PositionFits(job, db, p, k);
    if to == 0 {
      ReplayStart(job, db);
      NothingYet(job, p, k);
    } else {
      ReplayAt(job, db, p, k, to - 1);
      CoveredOnly(job, db, p, k, to - 1);
      ReplayStep(job, db, p, k, to);
    }
  }

  lemma CoveredOnly(job: Job, db: Database, p: nat, k: nat, c: nat)
    requires ValidJob(job) && At(job, db, p, k) && c < COUNT
    ensures Covered(job, db, c) == Todo(job, c)[..Reached(job, p, k, c)]
  {
    CoveredAt(job, db, p, k, c);
  }

  lemma NothingYet(job: Job, p: nat, k: nat)
    requires |job.rows| == COUNT && (p < COUNT ==> k <= |Todo(job, p)|)
    ensures TablesUpTo(job, p, k, 0) == TablesBefore(job, 0)
  {}

  lemma PositionFits(job: Job, db: Database, p: nat, k: nat)
    requires ValidJob(job) && At(job, db, p, k)
    ensures |job.rows| == COUNT && Position(job, p, k) && p <= COUNT && (p < COUNT ==> k <= |Todo(job, p)|)
    ensures forall c: nat | c < COUNT :: Reached(job, p, k, c) <= |Todo(job, c)|
  {
    hide CategoryAt, TablesBefore, Effects, Todo;
  }

  lemma ReplayStep(job: Job, db: Database, p: nat, k: nat, to: nat)
    requires |job.rows| == COUNT && Position(job, p, k) && 0 < to <= COUNT
    requires Covered(job, db, to - 1) == Todo(job, to - 1)[..Reached(job, p, k, to - 1)]
    requires Replay(job, db, to - 1) == TablesUpTo(job, p, k, to - 1)
    ensures Replay(job, db, to) == TablesUpTo(job, p, k, to)
  {
    hide Covered, Todo, Effect;
    var c := to - 1;
    if c < p { assert Todo(job, c)[..|Todo(job, c)|] == Todo(job, c); }
  }

  /**
   Wherever a run stands, its committed tables are the one-row-at-a-time migration of exactly
   the source rows its committed checkpoints cover, each under the options it was migrated with
   (daily yields aside once all categories are complete, when the rebuild writes them).
   */
  lemma TablesFollowCheckpoints(job: Job, db: Database, p: nat, k: nat)
    requires ValidJob(job) && At(job, db, p, k)
    ensures p < COUNT ==> db.tables == Replay(job, db, COUNT)
    ensures p == COUNT ==> SameButYields(db.tables, Replay(job, db, COUNT))
  {
    ReplayAt(job, db, p, k, COUNT);
  }

  /** Rows are counted once: the run's total is the number of rows its checkpoints cover. */
  function CoveredTotal(job: Job, db: Database, p: nat): nat
    requires p <= |job.rows| == COUNT
  {
    if p == 0 then 0 else CoveredTotal(job, db, p - 1) + |Covered(job, db, p - 1)|
  }

  lemma {:induction false} TotalsCountCoveredRows(job: Job, db: Database, p: nat, k: nat, to: nat)
    requires ValidJob(job) && At(job, db, p, k) && to <= COUNT
    ensures TotalRows(db, to) == CoveredTotal(job, db, to)
    ensures CompletedCategories(db, to) == if to < p then to else p
  {
    hide At;
    if to > 0 {
      TotalsCountCoveredRows(job, db, p, k, to - 1);
      CoveredAt(job, db, p, k, to - 1);
    }
  }

  lemma {:induction false} CompletedTotals(job: Job, db: Database, to: nat)
    requires ValidJob(job) && At(job, db, COUNT, 0) && to <= COUNT
    ensures TotalRows(db, to) == SourceTotal(job, to) - SkippedTotal(job, to)
  {
    if to > 0 {
      CompletedTotals(job, db, to - 1);
      assert CategoryAt(job, db, COUNT, 0, to - 1);
    }
  }

  /**
   The verifier's source-category count check of a finished run passes exactly for a category
   without rows at or below its start key (for a rowid table: no rowid below 1).
   */
  lemma CategoryCountCheckPasses(job: Job, db: Database, p: nat)
    requires ValidJob(job) && At(job, db, COUNT, 0) && p < COUNT
    ensures var c := CATEGORIES[p];
            && c in db.checkpoints && db.checkpoints[c].completed
            && (db.checkpoints[c].rowsProcessed == |job.rows[p]| <==>
                forall i | 0 <= i < |job.rows[p]| :: Less(StartKey(c), KeyOf(job.rows[p][i])))
  {
    assert CategoryAt(job, db, COUNT, 0, p);
    SkipIsCursor(job.rows[p], StartKey(CATEGORIES[p]));
  }
}
