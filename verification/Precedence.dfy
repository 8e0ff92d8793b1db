/**
 Which source row decides an MPPT column: the last SpotDataX row for the column when there is
 one, otherwise the last fixed tracker record, although a fixed record overwrites all three columns.
 */
module Precedence {
  import opened Wrappers
  import opened Keyset
  import opened Canonical
  import opened SpotDataX
  import opened MigrationRun
  import opened RebuiltYields

  function Column(m: Mppt, column: MpptColumn): Cell {
    match column case Power => m.power case Current => m.current case Voltage => m.voltage
  }

  /** The value the last SpotDataX row for the column stores, if any row does. */
  function LastGeneric(rows: seq<Row>, k: TrackerKey, column: MpptColumn): Pending
    requires AllX(rows)
  {
    if rows == [] then None
    else
      var cell := DecodeX(rows[|rows| - 1]);
      if cell.MpptCell? && cell.tracker == k && cell.column == column then Some(cell.value)
      else LastGeneric(rows[..|rows| - 1], k, column)
  }

  /** The fixed tracker columns a SpotData row stores under `k`. */
  function FixedOf(row: Row, k: TrackerKey): Option<Mppt> {
    if !row.SpotRow? || row.spot.None? || k.sample != SampleKey(row.serial, row.measuredAt) then None
    else if k.tracker == 1 && row.tracker1 != NO_MPPT then Some(row.tracker1)
    else if k.tracker == 2 && row.tracker2 != NO_MPPT then Some(row.tracker2)
    else None
  }

  function LastFixed(rows: seq<Row>, k: TrackerKey): Option<Mppt> {
    if rows == [] then None
    else if FixedOf(rows[|rows| - 1], k).Some? then FixedOf(rows[|rows| - 1], k)
    else LastFixed(rows[..|rows| - 1], k)
  }

  lemma {:induction false} FixedRows(job: Job, rows: seq<Row>, t: Tables, k: TrackerKey)
    requires AllOf(rows, SpotData)
    ensures var m, fixed := Effects(job, rows, t).mppts, LastFixed(rows, k);
            if fixed.Some? then k in m && m[k] == fixed.value
            else (k in m <==> k in t.mppts) && (k in m ==> m[k] == t.mppts[k])
  {
    if rows != [] {
      FixedRows(job, rows[..|rows| - 1], t, k);
      assert rows[|rows| - 1].SpotRow? by { assert CategoryOf(rows[|rows| - 1]) == SpotData; }
    }
  }

  lemma GenericCell(t: Tables, cell: XCell, k: TrackerKey, column: MpptColumn)
    ensures var m := ApplyX(t, cell).mppts;
            && (k in m <==> k in t.mppts || (cell.MpptCell? && cell.tracker == k))
            && (k in m ==>
                  Column(m[k], column) ==
                  if cell.MpptCell? && cell.tracker == k && cell.column == column then cell.value
                  else Column(Lookup(t.mppts, k, NO_MPPT), column))
  {
  }

  predicate SomeGeneric(rows: seq<Row>, k: TrackerKey)
    requires AllX(rows)
  {
    exists column :: LastGeneric(rows, k, column).Some?
  }

  lemma {:induction false} GenericRows(job: Job, rows: seq<Row>, t: Tables, k: TrackerKey, column: MpptColumn)
    requires AllX(rows)
    ensures var m := Effects(job, rows, t).mppts;
            && (k in m <==> k in t.mppts || SomeGeneric(rows, k))
            && (k in m ==>
                  Column(m[k], column) ==
                  var generic := LastGeneric(rows, k, column);
                  if generic.Some? then generic.value else Column(Lookup(t.mppts, k, NO_MPPT), column))
            && (k !in m ==> LastGeneric(rows, k, column).None?)
  {
    if rows != [] {
      var front, cell := rows[..|rows| - 1], DecodeX(rows[|rows| - 1]);
      GenericRows(job, front, t, k, column);
      GenericCell(Effects(job, front, t), cell, k, column);
      forall c: MpptColumn
        ensures LastGeneric(rows, k, c).Some? <==>
                LastGeneric(front, k, c).Some? || (cell.MpptCell? && cell.tracker == k && cell.column == c)
      {
      }
      if cell.MpptCell? && cell.tracker == k { assert LastGeneric(rows, k, cell.column).Some?; }
    }
  }

  lemma {:induction false} OthersKeepMppts(job: Job, rows: seq<Row>, c: Category, t: Tables)
    requires AllOf(rows, c) && !c.SpotData? && !c.SpotDataX?
    ensures Effects(job, rows, t).mppts == t.mppts
  {
    if rows != [] {
      OthersKeepMppts(job, rows[..|rows| - 1], c, t);
      assert CategoryOf(rows[|rows| - 1]) == c;
    }
  }

  const SPOT: nat := 2
  const SPOT_X: nat := 3

  lemma CoveredCategory(job: Job, db: Database, p: nat, k: nat, c: nat)
    requires ValidJob(job) && At(job, db, p, k) && c < COUNT
    ensures AllOf(Covered(job, db, c), CATEGORIES[c])
  {
    CoveredAt(job, db, p, k, c);
    AtPosition(job, db, p, k);
    TodoCategory(job, c, Reached(job, p, k, c));
  }

  lemma {:induction false} ReplayKeepsMppts(job: Job, db: Database, p: nat, k: nat, from: nat, to: nat)
    requires ValidJob(job) && At(job, db, p, k) && from <= to <= COUNT && (to <= SPOT || SPOT_X < from)
    ensures Replay(job, db, to).mppts == Replay(job, db, from).mppts
  {
    hide At, Effects, Covered, AllOf;
    if from < to {
      ReplayKeepsMppts(job, db, p, k, from, to - 1);
      CoveredCategory(job, db, p, k, to - 1);
      OthersKeepMppts(job, Covered(job, db, to - 1), CATEGORIES[to - 1], Replay(job, db, to - 1));
    }
  }

  lemma XRows(rows: seq<Row>)
    requires AllOf(rows, SpotDataX)
    ensures AllX(rows)
  {
    forall i | 0 <= i < |rows| ensures rows[i].SpotXRow? { assert CategoryOf(rows[i]) == SpotDataX; }
  }

  /** The committed MPPT rows are those that the covered SpotData and SpotDataX rows leave behind, in this order. */
  lemma MpptsReplayed(job: Job, db: Database, p: nat, k: nat)
    requires ValidJob(job) && At(job, db, p, k)
    ensures AllOf(Covered(job, db, SPOT), SpotData) && AllX(Covered(job, db, SPOT_X))
    ensures Replay(job, db, SPOT).mppts == map[]
    ensures Replay(job, db, SPOT_X) == Effects(job, Covered(job, db, SPOT), Replay(job, db, SPOT))
    ensures db.tables.mppts == Effects(job, Covered(job, db, SPOT_X), Replay(job, db, SPOT_X)).mppts
  {
    hide At, Effects, Covered, AllOf, AllX, ValidRows, TablesAt, TablesBefore;
    EightTables(job);
    TablesFollowCheckpoints(job, db, p, k);
    AtPosition(job, db, p, k);
    CoveredCategory(job, db, p, k, SPOT);
    CoveredCategory(job, db, p, k, SPOT_X);
    XRows(Covered(job, db, SPOT_X));
    ReplayKeepsMppts(job, db, p, k, 0, SPOT);
    ReplayKeepsMppts(job, db, p, k, SPOT_X + 1, COUNT);
  }

  /**
   At every point of every interrupted and resumed run, each committed MPPT column is the value
   of the last covered SpotDataX row for it when there is one, otherwise the column of the last
   covered fixed tracker record, otherwise NULL; and the row exists exactly when one of these does.
   */
  lemma MpptPrecedence(job: Job, db: Database, p: nat, k: nat, tracker: TrackerKey, column: MpptColumn)
    requires ValidJob(job) && At(job, db, p, k)
    ensures AllX(Covered(job, db, SPOT_X))
    ensures var m := db.tables.mppts;
            var generic := LastGeneric(Covered(job, db, SPOT_X), tracker, column);
            var fixed := LastFixed(Covered(job, db, SPOT), tracker);
            && (tracker in m <==> fixed.Some? || SomeGeneric(Covered(job, db, SPOT_X), tracker))
            && (tracker in m ==>
                  Column(m[tracker], column) ==
                  if generic.Some? then generic.value
                  else if fixed.Some? then Column(fixed.value, column)
                  else None)
            && (generic.Some? ==> tracker in m)
  {
    MpptsReplayed(job, db, p, k);
    hide At, Effects, Covered, Replay, AllOf, LastGeneric, LastFixed, SomeGeneric, ValidRows;
    FixedRows(job, Covered(job, db, SPOT), Replay(job, db, SPOT), tracker);
    GenericRows(job, Covered(job, db, SPOT_X), Replay(job, db, SPOT_X), tracker, column);
  }
}
