/**
 Grouping of a SpotDataX batch into MPPT, battery and grid maps, one optional write per column,
 and its agreement with applying the rows one at a time in key order.
 */
module SpotDataX {
  import opened Wrappers
  import opened Canonical

  /** A pending column write: absent, or a value that may be an explicit NULL. */
  type Pending = Option<Cell>

  datatype MpptPatch = MpptPatch(power: Pending, current: Pending, voltage: Pending)
  datatype BatteryPatch = BatteryPatch(stateOfCharge: Pending, voltage: Pending, current: Pending, temperature: Pending)
  datatype GridPatch = GridPatch(imported: Pending, exported: Pending)

  datatype Groups = Groups(mppts: map<TrackerKey, MpptPatch>, batteries: map<SampleKey, BatteryPatch>,
                           grid: map<SampleKey, GridPatch>)

  const NO_MPPT_PATCH := MpptPatch(None, None, None)
  const NO_BATTERY_PATCH := BatteryPatch(None, None, None, None)
  const NO_GRID_PATCH := GridPatch(None, None)
  const NO_GROUPS := Groups(map[], map[], map[])

  function Patched(was: Cell, pending: Pending): Cell { if pending.Some? then pending.value else was }

  function PatchMppt(m: Mppt, p: MpptPatch): Mppt {
    Mppt(Patched(m.power, p.power), Patched(m.current, p.current), Patched(m.voltage, p.voltage))
  }

  function PatchBattery(b: Battery, p: BatteryPatch): Battery {
    Battery(Patched(b.stateOfCharge, p.stateOfCharge), Patched(b.voltage, p.voltage),
            Patched(b.current, p.current), Patched(b.temperature, p.temperature))
  }

  function PatchGrid(m: Measurement, p: GridPatch): Measurement {
    m.(gridImport := Patched(m.gridImport, p.imported), gridExport := Patched(m.gridExport, p.exported))
  }

  function SetMpptPatch(p: MpptPatch, column: MpptColumn, value: Cell): MpptPatch {
    match column
    case Power => p.(power := Some(value))
    case Current => p.(current := Some(value))
    case Voltage => p.(voltage := Some(value))
  }

  function SetBatteryPatch(p: BatteryPatch, part: BatteryColumn, value: Cell): BatteryPatch {
    match part
    case StateOfCharge => p.(stateOfCharge := Some(value))
    case BatteryVoltage => p.(voltage := Some(value))
    case BatteryCurrent => p.(current := Some(value))
    case Temperature => p.(temperature := Some(value))
  }

  function SetGridPatch(p: GridPatch, isImport: bool, value: Cell): GridPatch {
    if isImport then p.(imported := Some(value)) else p.(exported := Some(value))
  }

  /** Records one cell in its group; a later cell for the same column replaces an earlier one. */
  function AddCell(g: Groups, cell: XCell): Groups {
    match cell
    case MpptCell(k, column, value) =>
      g.(mppts := g.mppts[k := SetMpptPatch(Lookup(g.mppts, k, NO_MPPT_PATCH), column, value)])
    case BatteryCell(k, part, value) =>
      g.(batteries := g.batteries[k := SetBatteryPatch(Lookup(g.batteries, k, NO_BATTERY_PATCH), part, value)])
    case GridCell(k, isImport, value) =>
      g.(grid := g.grid[k := SetGridPatch(Lookup(g.grid, k, NO_GRID_PATCH), isImport, value)])
    case _ => g
  }

  /** The measurements that must exist for the grouped rows to have a parent. */
  function Parents(g: Groups): set<SampleKey> {
    MpptParents(g.mppts) + g.batteries.Keys + g.grid.Keys
  }

  function MpptParents(g: map<TrackerKey, MpptPatch>): set<SampleKey> { set k | k in g :: k.sample }

  lemma MpptParentsAdd(g: map<TrackerKey, MpptPatch>, k: TrackerKey, patch: MpptPatch)
    ensures MpptParents(g[k := patch]) == MpptParents(g) + {k.sample}
  {
    assert k in g[k := patch];
  }

  function OverlayMppts(m: map<TrackerKey, Mppt>, g: map<TrackerKey, MpptPatch>): map<TrackerKey, Mppt> {
    map k | k in m.Keys + g.Keys :: if k in g then PatchMppt(Lookup(m, k, NO_MPPT), g[k]) else m[k]
  }

  function OverlayBatteries(m: map<SampleKey, Battery>, g: map<SampleKey, BatteryPatch>): map<SampleKey, Battery> {
    map k | k in m.Keys + g.Keys :: if k in g then PatchBattery(Lookup(m, k, NO_BATTERY), g[k]) else m[k]
  }

  function OverlayMeasurements(m: map<SampleKey, Measurement>, parents: set<SampleKey>, g: map<SampleKey, GridPatch>)
    : map<SampleKey, Measurement>
  {
    map k | k in m.Keys + parents ::
      if k in g then PatchGrid(Lookup(m, k, NO_MEASUREMENT), g[k]) else Lookup(m, k, NO_MEASUREMENT)
  }

  /** The tables after every grouped column has been written. */
  function Overlay(t: Tables, g: Groups): Tables {
    t.(mppts := OverlayMppts(t.mppts, g.mppts),
       batteries := OverlayBatteries(t.batteries, g.batteries),
       measurements := OverlayMeasurements(t.measurements, Parents(g), g.grid))
  }

  lemma OverlayNothing(t: Tables)
    ensures Overlay(t, NO_GROUPS) == t
  {
    assert OverlayMppts(t.mppts, map[]) == t.mppts;
    assert OverlayBatteries(t.batteries, map[]) == t.batteries;
    assert OverlayMeasurements(t.measurements, Parents(NO_GROUPS), map[]) == t.measurements;
  }

  lemma OverlayMpptCell(m: map<TrackerKey, Mppt>, g: map<TrackerKey, MpptPatch>, k: TrackerKey,
                        column: MpptColumn, value: Cell)
    ensures var g' := g[k := SetMpptPatch(Lookup(g, k, NO_MPPT_PATCH), column, value)];
            var o := OverlayMppts(m, g);
            OverlayMppts(m, g') == o[k := SetMppt(Lookup(o, k, NO_MPPT), column, value)]
  {
  }

  lemma OverlayBatteryCell(m: map<SampleKey, Battery>, g: map<SampleKey, BatteryPatch>, k: SampleKey,
                           part: BatteryColumn, value: Cell)
    ensures var g' := g[k := SetBatteryPatch(Lookup(g, k, NO_BATTERY_PATCH), part, value)];
            var o := OverlayBatteries(m, g);
            OverlayBatteries(m, g') == o[k := SetBattery(Lookup(o, k, NO_BATTERY), part, value)]
  {
  }

  lemma OverlayParent(m: map<SampleKey, Measurement>, parents: set<SampleKey>, g: map<SampleKey, GridPatch>, k: SampleKey)
    requires g.Keys <= parents
    ensures var o := OverlayMeasurements(m, parents, g);
            OverlayMeasurements(m, parents + {k}, g) == if k in o then o else o[k := NO_MEASUREMENT]
  {
  }

  lemma OverlayGridCell(m: map<SampleKey, Measurement>, parents: set<SampleKey>, g: map<SampleKey, GridPatch>,
                        k: SampleKey, isImport: bool, value: Cell)
    requires g.Keys <= parents && k in parents
    ensures var g' := g[k := SetGridPatch(Lookup(g, k, NO_GRID_PATCH), isImport, value)];
            var o := OverlayMeasurements(m, parents, g);
            OverlayMeasurements(m, parents, g') == o[k := SetGrid(Lookup(o, k, NO_MEASUREMENT), isImport, value)]
  {
  }

  lemma ParentsOfCell(g: Groups, cell: XCell, k: SampleKey)
    requires (cell.MpptCell? && k == cell.tracker.sample) || (cell.BatteryCell? && k == cell.sample)
             || (cell.GridCell? && k == cell.sample)
    ensures Parents(AddCell(g, cell)) == Parents(g) + {k}
  {
    if cell.MpptCell? {
      MpptParentsAdd(g.mppts, cell.tracker, SetMpptPatch(Lookup(g.mppts, cell.tracker, NO_MPPT_PATCH), cell.column, cell.value));
    }
  }

  lemma OverlayMppt(t: Tables, g: Groups, k: TrackerKey, column: MpptColumn, value: Cell)
    ensures Overlay(t, AddCell(g, MpptCell(k, column, value))) == ApplyX(Overlay(t, g), MpptCell(k, column, value))
  {
    ParentsOfCell(g, MpptCell(k, column, value), k.sample);
    OverlayMpptCell(t.mppts, g.mppts, k, column, value);
    OverlayParent(t.measurements, Parents(g), g.grid, k.sample);
    hide OverlayMppts, OverlayMeasurements, Parents, SetMppt, SetMpptPatch;
  }

  lemma OverlayBattery(t: Tables, g: Groups, k: SampleKey, part: BatteryColumn, value: Cell)
    ensures Overlay(t, AddCell(g, BatteryCell(k, part, value))) == ApplyX(Overlay(t, g), BatteryCell(k, part, value))
  {
    ParentsOfCell(g, BatteryCell(k, part, value), k);
    OverlayBatteryCell(t.batteries, g.batteries, k, part, value);
    OverlayParent(t.measurements, Parents(g), g.grid, k);
    hide OverlayBatteries, OverlayMeasurements, Parents, SetBattery, SetBatteryPatch;
  }

  lemma OverlayGrid(t: Tables, g: Groups, k: SampleKey, isImport: bool, value: Cell)
    ensures Overlay(t, AddCell(g, GridCell(k, isImport, value))) == ApplyX(Overlay(t, g), GridCell(k, isImport, value))
  {
    ParentsOfCell(g, GridCell(k, isImport, value), k);
    OverlayParent(t.measurements, Parents(g), g.grid, k);
    OverlayGridCell(t.measurements, Parents(g) + {k}, g.grid, k, isImport, value);
    hide OverlayMeasurements, Parents;
  }

  /** Grouping one more cell and then writing is writing and then applying that cell. */
  lemma OverlayCell(t: Tables, g: Groups, cell: XCell)
    ensures Overlay(t, AddCell(g, cell)) == ApplyX(Overlay(t, g), cell)
  {
    match cell
    case MpptCell(k, column, value) => OverlayMppt(t, g, k, column, value);
    case BatteryCell(k, part, value) => OverlayBattery(t, g, k, part, value);
    case GridCell(k, isImport, value) => OverlayGrid(t, g, k, isImport, value);
    case _ =>
  }

  predicate AllX(rows: seq<Row>) { forall i | 0 <= i < |rows| :: rows[i].SpotXRow? }

  function GroupRows(rows: seq<Row>): Groups
    requires AllX(rows)
  {
    if rows == [] then NO_GROUPS
    else AddCell(GroupRows(rows[..|rows| - 1]), DecodeX(rows[|rows| - 1]))
  }

  /** Grouping and then writing column by column equals applying the rows in key order. */
  lemma {:induction false} GroupingRefinesRows(job: Job, rows: seq<Row>, t: Tables)
    requires AllX(rows)
    ensures Overlay(t, GroupRows(rows)) == Effects(job, rows, t)
  {
    if rows == [] {
      OverlayNothing(t);
    } else {
      var front, last := rows[..|rows| - 1], rows[|rows| - 1];
      GroupingRefinesRows(job, front, t);
      OverlayCell(t, GroupRows(front), DecodeX(last));
    }
  }

  /** However the rows are cut into batches, each grouped on its own, the tables end up the same. */
  function Batches(t: Tables, batches: seq<seq<Row>>): Tables
    requires forall b | 0 <= b < |batches| :: AllX(batches[b])
  {
    if batches == [] then t
    else Overlay(Batches(t, batches[..|batches| - 1]), GroupRows(batches[|batches| - 1]))
  }

  function Concat(batches: seq<seq<Row>>): seq<Row> {
    if batches == [] then [] else Concat(batches[..|batches| - 1]) + batches[|batches| - 1]
  }

  lemma {:induction false} AnySplitGivesTheSameTables(job: Job, t: Tables, batches: seq<seq<Row>>)
    requires forall b | 0 <= b < |batches| :: AllX(batches[b])
    ensures AllX(Concat(batches))
    ensures Batches(t, batches) == Overlay(t, GroupRows(Concat(batches)))
  {
    if batches == [] {
      OverlayNothing(t);
    } else {
      var front, last := batches[..|batches| - 1], batches[|batches| - 1];
      AnySplitGivesTheSameTables(job, t, front);
      GroupingRefinesRows(job, Concat(front), t);
      GroupingRefinesRows(job, last, Batches(t, front));
      GroupingRefinesRows(job, Concat(batches), t);
      EffectsSplit(job, Concat(front), last, t);
    }
  }

  // ---------------------------------------------------------------- storing the groups

  /** Every group holds at least one pending column. */
  predicate NoEmptyGroup(g: Groups) {
    && (forall k | k in g.mppts :: g.mppts[k] != NO_MPPT_PATCH)
    && (forall k | k in g.batteries :: g.batteries[k] != NO_BATTERY_PATCH)
    && (forall k | k in g.grid :: g.grid[k] != NO_GRID_PATCH)
  }

  lemma {:induction false} GroupsAreNotEmpty(rows: seq<Row>)
    requires AllX(rows)
    ensures NoEmptyGroup(GroupRows(rows))
  {
    if rows != [] { GroupsAreNotEmpty(rows[..|rows| - 1]); }
  }

  /** Writing one more MPPT group: its measurement exists, its pending columns are stored. */
  function WriteMppt(t: Tables, k: TrackerKey, patch: MpptPatch): Tables {
    t.(measurements := EnsureMeasurement(t.measurements, k.sample),
       mppts := t.mppts[k := PatchMppt(Lookup(t.mppts, k, NO_MPPT), patch)])
  }

  function WriteBattery(t: Tables, k: SampleKey, patch: BatteryPatch): Tables {
    t.(measurements := EnsureMeasurement(t.measurements, k),
       batteries := t.batteries[k := PatchBattery(Lookup(t.batteries, k, NO_BATTERY), patch)])
  }

  function WriteGrid(t: Tables, k: SampleKey, patch: GridPatch): Tables {
    var m := EnsureMeasurement(t.measurements, k);
    t.(measurements := m[k := PatchGrid(m[k], patch)])
  }

  /** The tables after writing a set of MPPT groups, then battery groups, then grid groups. */
  function StageMppts(t: Tables, g: map<TrackerKey, MpptPatch>): Tables {
    t.(measurements := OverlayMeasurements(t.measurements, MpptParents(g), map[]), mppts := OverlayMppts(t.mppts, g))
  }

  function StageBatteries(t: Tables, g: map<SampleKey, BatteryPatch>): Tables {
    t.(measurements := OverlayMeasurements(t.measurements, g.Keys, map[]), batteries := OverlayBatteries(t.batteries, g))
  }

  function StageGrid(t: Tables, g: map<SampleKey, GridPatch>): Tables {
    t.(measurements := OverlayMeasurements(t.measurements, g.Keys, g))
  }

  lemma StageNothing(t: Tables)
    ensures StageMppts(t, map[]) == t && StageBatteries(t, map[]) == t && StageGrid(t, map[]) == t
  {
    OverlayNothing(t);
    assert OverlayMeasurements(t.measurements, {}, map[]) == t.measurements;
  }

  lemma OverlayMpptsOne(m: map<TrackerKey, Mppt>, g: map<TrackerKey, MpptPatch>, k: TrackerKey, patch: MpptPatch)
    requires k !in g
    ensures OverlayMppts(m, g[k := patch]) ==
            OverlayMppts(m, g)[k := PatchMppt(Lookup(OverlayMppts(m, g), k, NO_MPPT), patch)]
  {
  }

  lemma OverlayBatteriesOne(m: map<SampleKey, Battery>, g: map<SampleKey, BatteryPatch>, k: SampleKey, patch: BatteryPatch)
    requires k !in g
    ensures OverlayBatteries(m, g[k := patch]) ==
            OverlayBatteries(m, g)[k := PatchBattery(Lookup(OverlayBatteries(m, g), k, NO_BATTERY), patch)]
  {
  }

  lemma StageOneMppt(t: Tables, g: map<TrackerKey, MpptPatch>, k: TrackerKey, patch: MpptPatch)
    requires k !in g
    ensures StageMppts(t, g[k := patch]) == WriteMppt(StageMppts(t, g), k, patch)
  {
    MpptParentsAdd(g, k, patch);
    OverlayParent(t.measurements, MpptParents(g), map[], k.sample);
    OverlayMpptsOne(t.mppts, g, k, patch);
  }

  lemma StageOneBattery(t: Tables, g: map<SampleKey, BatteryPatch>, k: SampleKey, patch: BatteryPatch)
    requires k !in g
    ensures StageBatteries(t, g[k := patch]) == WriteBattery(StageBatteries(t, g), k, patch)
  {
    assert g[k := patch].Keys == g.Keys + {k};
    OverlayParent(t.measurements, g.Keys, map[], k);
    OverlayBatteriesOne(t.batteries, g, k, patch);
  }

  lemma StageOneGrid(t: Tables, g: map<SampleKey, GridPatch>, k: SampleKey, patch: GridPatch)
    requires k !in g
    ensures StageGrid(t, g[k := patch]) == WriteGrid(StageGrid(t, g), k, patch)
  {
    assert g[k := patch].Keys == g.Keys + {k};
    var m := EnsureMeasurement(OverlayMeasurements(t.measurements, g.Keys, g), k);
    assert OverlayMeasurements(t.measurements, g.Keys + {k}, g[k := patch]) == m[k := PatchGrid(m[k], patch)];
  }

  lemma MeasurementsInStages(m: map<SampleKey, Measurement>, p: set<SampleKey>, q: set<SampleKey>, g: map<SampleKey, GridPatch>)
    ensures OverlayMeasurements(OverlayMeasurements(OverlayMeasurements(m, p, map[]), q, map[]), g.Keys, g) ==
            OverlayMeasurements(m, p + q + g.Keys, g)
  {
  }

  /** Storing MPPTs, then batteries, then grid values stores all groups. */
  lemma OverlayInStages(t: Tables, g: Groups)
    ensures StageGrid(StageBatteries(StageMppts(t, g.mppts), g.batteries), g.grid) == Overlay(t, g)
  {
    MeasurementsInStages(t.measurements, MpptParents(g.mppts), g.batteries.Keys, g.grid);
  }

  // ---------------------------------------------------------------- success of a batch

  /** A batch of rows decodes, and every row it stores has an inverter. */
  predicate RowsDecode(rows: seq<Row>, inverters: set<int>)
    requires AllX(rows)
  {
    forall i | 0 <= i < |rows| :: DecodesX(rows[i], inverters)
  }

  predicate NoneInvalid(rows: seq<Row>)
    requires AllX(rows)
  {
    forall i | 0 <= i < |rows| :: !DecodeX(rows[i]).Invalid?
  }

  predicate ParentsKnown(g: Groups, inverters: set<int>) {
    forall k | k in Parents(g) :: k.serial in inverters
  }

  /** Looking up the inverter of every group checks exactly the recognized rows' inverters. */
  lemma {:induction false} GroupsKnowRows(rows: seq<Row>, inverters: set<int>)
    requires AllX(rows) && NoneInvalid(rows)
    ensures RowsDecode(rows, inverters) <==> ParentsKnown(GroupRows(rows), inverters)
  {
    if rows != [] {
      var front, last := rows[..|rows| - 1], rows[|rows| - 1];
      GroupsKnowRows(front, inverters);
      var cell := DecodeX(last);
      var k := SampleKey(last.serial, last.measuredAt);
      if !cell.Unrecognized? { ParentsOfCell(GroupRows(front), cell, k); }
      assert RowsDecode(rows, inverters) <==> RowsDecode(front, inverters) && DecodesX(last, inverters);
    }
  }

  predicate ChargesStorable(g: Groups) {
    forall k | k in g.batteries && g.batteries[k].stateOfCharge.Some? ::
      ValidCharge(g.batteries[k].stateOfCharge.value)
  }

  /** When a grouped batch succeeds: only the surviving state of charge meets the column check. */
  predicate BatchSucceeds(rows: seq<Row>, inverters: set<int>)
    requires AllX(rows)
  {
    RowsDecode(rows, inverters) && ChargesStorable(GroupRows(rows))
  }

  predicate RowsSucceed(job: Job, rows: seq<Row>, inverters: set<int>) {
    forall i | 0 <= i < |rows| :: RowOk(job, rows[i], inverters)
  }

  predicate ChargesInRange(rows: seq<Row>)
    requires AllX(rows)
  {
    forall i | 0 <= i < |rows| :: ChargeOk(DecodeX(rows[i]))
  }

  lemma {:induction false} InRangeChargesAreStorable(rows: seq<Row>)
    requires AllX(rows) && ChargesInRange(rows)
    ensures ChargesStorable(GroupRows(rows))
  {
    if rows != [] {
      var front, last := rows[..|rows| - 1], rows[|rows| - 1];
      InRangeChargesAreStorable(front);
      assert ChargeOk(DecodeX(last));
    }
  }

  /**
   Row-at-a-time success is batch success plus every charge in range: a batch can succeed where
   smaller batches fail exactly when it hides an out-of-range charge behind a later row.
   */
  lemma RowsSucceedExactlyWhen(job: Job, rows: seq<Row>, inverters: set<int>)
    requires AllX(rows)
    ensures RowsSucceed(job, rows, inverters) <==> BatchSucceeds(rows, inverters) && ChargesInRange(rows)
  {
    if RowsSucceed(job, rows, inverters) || (BatchSucceeds(rows, inverters) && ChargesInRange(rows)) {
      forall i | 0 <= i < |rows|
        ensures RowOk(job, rows[i], inverters) <==> DecodesX(rows[i], inverters) && ChargeOk(DecodeX(rows[i]))
      {
      }
      if RowsSucceed(job, rows, inverters) { InRangeChargesAreStorable(rows); }
    }
  }

  // ---------------------------------------------------------------- every split into batches

  predicate SetsCharge(row: Row, k: SampleKey)
    requires row.SpotXRow?
  {
    DecodeX(row).BatteryCell? && DecodeX(row).sample == k && DecodeX(row).part.StateOfCharge?
  }

  /** The state of charge that the last row for this sample stores, if any row does. */
  function LastCharge(rows: seq<Row>, k: SampleKey): Option<Cell>
    requires AllX(rows)
  {
    if rows == [] then None
    else
      var last := rows[|rows| - 1];
      if SetsCharge(last, k) then Some(DecodeX(last).value) else LastCharge(rows[..|rows| - 1], k)
  }

  lemma {:induction false} ChargeSurvives(rows: seq<Row>, k: SampleKey)
    requires AllX(rows)
    ensures var g := GroupRows(rows).batteries;
            LastCharge(rows, k) == if k in g then g[k].stateOfCharge else None
  {
    if rows != [] {
      ChargeSurvives(rows[..|rows| - 1], k);
      hide DecodeX;
    }
  }

  predicate LastChargeValid(rows: seq<Row>, k: SampleKey)
    requires AllX(rows)
  {
    var last := LastCharge(rows, k);
    last.Some? ==> ValidCharge(last.value)
  }

  lemma StorableExactlyWhen(rows: seq<Row>)
    requires AllX(rows)
    ensures ChargesStorable(GroupRows(rows)) <==> forall k :: LastChargeValid(rows, k)
  {
    var g := GroupRows(rows);
    forall k
      ensures LastChargeValid(rows, k) <==>
              (k in g.batteries && g.batteries[k].stateOfCharge.Some? ==> ValidCharge(g.batteries[k].stateOfCharge.value))
    {
      ChargeSurvives(rows, k);
    }
    hide GroupRows, LastChargeValid, ValidCharge;
  }

  lemma {:induction false} LastChargeOfTwo(a: seq<Row>, b: seq<Row>, k: SampleKey)
    requires AllX(a) && AllX(b)
    ensures AllX(a + b) && LastCharge(a + b, k) == if LastCharge(b, k).Some? then LastCharge(b, k) else LastCharge(a, k)
  {
    if b == [] {
      assert a + b == a;
    } else {
      assert (a + b)[..|a + b| - 1] == a + b[..|b| - 1];
      LastChargeOfTwo(a, b[..|b| - 1], k);
    }
  }

  /** Two batches that succeed one after the other succeed as one. */
  lemma TwoSucceedAsOne(a: seq<Row>, b: seq<Row>, inverters: set<int>)
    requires AllX(a) && AllX(b) && BatchSucceeds(a, inverters) && BatchSucceeds(b, inverters)
    ensures AllX(a + b) && BatchSucceeds(a + b, inverters)
  {
    StorableExactlyWhen(a);
    StorableExactlyWhen(b);
    LastChargeOfTwo(a, b, SampleKey(0, 0));
    StorableExactlyWhen(a + b);
    hide LastCharge, GroupRows, ChargesStorable, DecodesX, ValidCharge;
    forall i | 0 <= i < |a + b|
      ensures DecodesX((a + b)[i], inverters)
    {
      if i < |a| { assert (a + b)[i] == a[i]; } else { assert (a + b)[i] == b[i - |a|]; }
    }
    forall k
      ensures LastChargeValid(a + b, k)
    {
      LastChargeOfTwo(a, b, k);
      assert LastChargeValid(a, k) && LastChargeValid(b, k);
    }
  }

  /** A way to cut the rows into batches. */
  ghost predicate IsSplit(batches: seq<seq<Row>>, rows: seq<Row>) {
    (forall b | 0 <= b < |batches| :: AllX(batches[b])) && Concat(batches) == rows
  }

  ghost predicate SplitSucceeds(batches: seq<seq<Row>>, inverters: set<int>)
    requires forall b | 0 <= b < |batches| :: AllX(batches[b])
  {
    forall b | 0 <= b < |batches| :: BatchSucceeds(batches[b], inverters)
  }

  /** What fails as one batch fails in every split. */
  lemma {:induction false} SplitSucceedsAsOne(batches: seq<seq<Row>>, inverters: set<int>)
    requires (forall b | 0 <= b < |batches| :: AllX(batches[b])) && SplitSucceeds(batches, inverters)
    ensures AllX(Concat(batches)) && BatchSucceeds(Concat(batches), inverters)
  {
    hide BatchSucceeds;
    if batches == [] {
      NothingSucceeds(inverters);
    } else {
      var front := batches[..|batches| - 1];
      SplitSucceedsAsOne(front, inverters);
      TwoSucceedAsOne(Concat(front), batches[|batches| - 1], inverters);
    }
  }

  lemma NothingSucceeds(inverters: set<int>)
    ensures BatchSucceeds([], inverters)
  {}

  lemma {:induction false} BatchIsPart(batches: seq<seq<Row>>, b: nat, i: nat)
    requires b < |batches| && i < |batches[b]|
    ensures batches[b][i] in Concat(batches)
  {
    var front := batches[..|batches| - 1];
    if b < |front| {
      BatchIsPart(front, b, i);
    }
  }

  lemma InRangeSplitSucceeds(batches: seq<seq<Row>>, inverters: set<int>)
    requires (forall b | 0 <= b < |batches| :: AllX(batches[b])) && AllX(Concat(batches))
    requires ChargesInRange(Concat(batches)) && RowsDecode(Concat(batches), inverters)
    ensures SplitSucceeds(batches, inverters)
  {
    hide Concat, ChargeOk, DecodesX, DecodeX;
    forall b | 0 <= b < |batches|
      ensures BatchSucceeds(batches[b], inverters)
    {
      forall i | 0 <= i < |batches[b]|
        ensures ChargeOk(DecodeX(batches[b][i])) && DecodesX(batches[b][i], inverters)
      {
        BatchIsPart(batches, b, i);
        var n :| 0 <= n < |Concat(batches)| && Concat(batches)[n] == batches[b][i];
      }
      InRangeChargesAreStorable(batches[b]);
    }
  }

  function Singles(rows: seq<Row>): (r: seq<seq<Row>>)
    ensures |r| == |rows| && forall i | 0 <= i < |r| :: r[i] == [rows[i]]
  {
    seq(|rows|, i requires 0 <= i < |rows| => [rows[i]])
  }

  lemma {:induction false} SinglesAreSplit(rows: seq<Row>)
    requires AllX(rows)
    ensures IsSplit(Singles(rows), rows)
  {
    if rows != [] {
      var front := rows[..|rows| - 1];
      SinglesAreSplit(front);
      assert Singles(rows)[..|rows| - 1] == Singles(front);
      assert rows == front + [rows[|rows| - 1]];
    }
  }

  lemma OutOfRangeFailsAlone(row: Row, inverters: set<int>)
    requires row.SpotXRow? && !ChargeOk(DecodeX(row))
    ensures AllX([row]) && !BatchSucceeds([row], inverters)
  {
    var k := DecodeX(row).sample;
    ChargeSurvives([row], k);
    assert |[row][..0]| == 0;
    assert LastCharge([row], k) == Some(DecodeX(row).value);
    StorableExactlyWhen([row]);
    assert !LastChargeValid([row], k);
    hide GroupRows, LastCharge, DecodeX;
  }

  /**
   What fails as one batch fails in every split; and every split has the outcome of the one batch
   if and only if that fails or every state of charge is in range.
   */
  lemma SplitsAgreeExactlyWhen(rows: seq<Row>, inverters: set<int>)
    requires AllX(rows)
    ensures forall batches | IsSplit(batches, rows) :: SplitSucceeds(batches, inverters) ==> BatchSucceeds(rows, inverters)
    ensures (forall batches | IsSplit(batches, rows) ::
               SplitSucceeds(batches, inverters) <==> BatchSucceeds(rows, inverters)) <==>
            ChargesInRange(rows) || !BatchSucceeds(rows, inverters)
  {
    hide BatchSucceeds, SplitSucceeds, ChargesInRange, Concat, RowsDecode;
    forall batches | IsSplit(batches, rows)
      ensures SplitSucceeds(batches, inverters) ==> BatchSucceeds(rows, inverters)
      ensures ChargesInRange(rows) && BatchSucceeds(rows, inverters) ==> SplitSucceeds(batches, inverters)
    {
      if SplitSucceeds(batches, inverters) { SplitSucceedsAsOne(batches, inverters); }
      BatchDecodes(rows, inverters);
      if ChargesInRange(rows) && BatchSucceeds(rows, inverters) { InRangeSplitSucceeds(batches, inverters); }
    }
    SinglesAreSplit(rows);
    if !ChargesInRange(rows) { SinglesFail(rows, inverters); }
  }

  lemma BatchDecodes(rows: seq<Row>, inverters: set<int>)
    requires AllX(rows)
    ensures BatchSucceeds(rows, inverters) ==> RowsDecode(rows, inverters)
  {}

  lemma SinglesFail(rows: seq<Row>, inverters: set<int>)
    requires AllX(rows) && !ChargesInRange(rows)
    ensures IsSplit(Singles(rows), rows) && !SplitSucceeds(Singles(rows), inverters)
  {
    SinglesAreSplit(rows);
    var i :| 0 <= i < |rows| && !ChargeOk(DecodeX(rows[i]));
    OutOfRangeFailsAlone(rows[i], inverters);
    assert Singles(rows)[i] == [rows[i]];
    hide BatchSucceeds, DecodeX;
  }

  /** Two keys that differ only in their top byte name the same charge column. */
  lemma HiddenChargeExample(job: Job)
    ensures var rows := [SpotXRow(1, 7, BAT_CHA_STT, Some(2000)), SpotXRow(1, 7, 0x0100_0000 + BAT_CHA_STT, Some(50))];
            && AllX(rows)
            && BatchSucceeds(rows, {7})
            && !BatchSucceeds(rows[..1], {7})
            && !RowsSucceed(job, rows, {7})
  {
    var r1, r2 := SpotXRow(1, 7, BAT_CHA_STT, Some(2000)), SpotXRow(1, 7, 0x0100_0000 + BAT_CHA_STT, Some(50));
    var rows := [r1, r2];
    var k := SampleKey(7, 1);
    assert DecodeX(r1) == BatteryCell(k, StateOfCharge, Some(20000));
    assert DecodeX(r2) == BatteryCell(k, StateOfCharge, Some(500));
    assert rows[..1] == [r1] && [r1][..0] == [] && rows[..|rows| - 1] == [r1];
    assert GroupRows([r1]) == AddCell(GroupRows([]), DecodeX(r1));
    assert GroupRows(rows) == AddCell(GroupRows([r1]), DecodeX(r2));
    assert k in GroupRows([r1]).batteries;
    assert !RowOk(job, rows[0], {7});
  }
}
