/**
 What the migrated rows leave in each canonical table, column by column and in terms of the raw
 columns of the last row that supplies one, and the same at every position of a run.
 */
module Contents {
  import opened Wrappers
  import opened Keyset
  import opened Canonical
  import opened MigrationRun

  // ---------------------------------------------------------------- the last row that supplies a value

  /** What the last row leaves that supplies a value, or the value that was there. */
  function LastOr<V>(rows: seq<Row>, supply: Row -> Option<V>, was: V): V {
    if rows == [] then was
    else
      var v := supply(rows[|rows| - 1]);
      if v.Some? then v.value else LastOr(rows[..|rows| - 1], supply, was)
  }

  /** Some row supplies the value and no later row supplies any, or no row does. */
  lemma {:induction false} LastOrMeans<V>(rows: seq<Row>, supply: Row -> Option<V>, was: V)
    ensures var r := LastOr(rows, supply, was);
            || (r == was && forall i | 0 <= i < |rows| :: supply(rows[i]).None?)
            || exists i | 0 <= i < |rows| ::
                 supply(rows[i]) == Some(r) && forall j | i < j < |rows| :: supply(rows[j]).None?
  {
    if rows != [] && supply(rows[|rows| - 1]).None? {
      var front := rows[..|rows| - 1];
      LastOrMeans(front, supply, was);
      var r := LastOr(front, supply, was);
      if !(r == was && forall i | 0 <= i < |front| :: supply(front[i]).None?) {
        var i :| 0 <= i < |front| && supply(front[i]) == Some(r) && forall j | i < j < |front| :: supply(front[j]).None?;
        assert supply(rows[i]) == Some(r);
        forall j | i < j < |rows|
          ensures supply(rows[j]).None?
        {
          if j < |front| { assert rows[j] == front[j]; }
        }
      } else {
        forall i | 0 <= i < |rows|
          ensures supply(rows[i]).None?
        {
          if i < |front| { assert rows[i] == front[i]; }
        }
      }
    } else if rows != [] {
      assert supply(rows[|rows| - 1]) == Some(LastOr(rows, supply, was));
    }
  }

  /** Part of the tables holds what each row supplies for it, and keeps what it held otherwise. */
  ghost predicate Follows<V(!new)>(job: Job, part: Tables -> V, supply: Row -> Option<V>) {
    forall row, t :: part(Effect(job, row, t)) == if supply(row).Some? then supply(row).value else part(t)
  }

  lemma {:induction false} LastRowDecides<V(!new)>(job: Job, rows: seq<Row>, t: Tables, part: Tables -> V,
                                                    supply: Row -> Option<V>)
    requires Follows(job, part, supply)
    ensures part(Effects(job, rows, t)) == LastOr(rows, supply, part(t))
  {
    hide Effect;
    if rows != [] {
      var front := rows[..|rows| - 1];
      LastRowDecides(job, front, t, part, supply);
      assert part(Effect(job, rows[|rows| - 1], Effects(job, front, t))) ==
             if supply(rows[|rows| - 1]).Some? then supply(rows[|rows| - 1]).value else part(Effects(job, front, t));
    }
  }

  // ---------------------------------------------------------------- raw SpotDataX rows

  /** The second and third byte of a row's 32-bit key. */
  predicate KeyHas(row: Row, code: int) {
    row.SpotXRow? && 0 <= row.lri <= 0xffff_ffff && row.lri / 0x100 % 0x1_0000 == code
  }

  /** A scaled value fits a 32-bit column. */
  predicate Fits(value: Cell, scale: int) {
    value.Some? ==> -0x8000_0000 <= value.value * scale <= 0x7fff_ffff
  }

  function Times(value: Cell, scale: int): Cell { if value.Some? then Some(value.value * scale) else None }

  predicate IsOf(row: Row, k: SampleKey) { row.SpotXRow? && row.serial == k.serial && row.measuredAt == k.at }

  /** What a row stores for a column with this code and scale; only the first byte of the key tells trackers apart. */
  function Scaled(row: Row, k: SampleKey, code: int, scale: int): Option<Cell> {
    if KeyHas(row, code) && IsOf(row, k) && Fits(row.value, scale) then Some(Times(row.value, scale)) else None
  }

  function ScaledFor(row: Row, k: TrackerKey, code: int, scale: int): Option<Cell> {
    if row.SpotXRow? && row.lri % 0x100 == k.tracker && k.tracker != 0 then Scaled(row, k.sample, code, scale) else None
  }

  function MpptCode(column: MpptColumn): int {
    match column case Power => 0x251E case Voltage => 0x451F case Current => 0x4521
  }

  function MpptScale(column: MpptColumn): int { if column.Voltage? then 10 else 1 }

  function BatteryCode(part: BatteryColumn): int {
    match part
    case StateOfCharge => 0x295A
    case BatteryVoltage => 0x495C
    case BatteryCurrent => 0x495D
    case Temperature => 0x495B
  }

  function BatteryScale(part: BatteryColumn): int {
    match part
    case StateOfCharge => 10
    case BatteryVoltage => 10
    case BatteryCurrent => 1
    case Temperature => 100
  }

  function GridCode(isImport: bool): int { if isImport then 0x4637 else 0x4636 }

  /** The scale of each of the nine codes; any other key stores nothing. */
  function ScaleOf(code: int): Option<int> {
    if code in {0x251E, 0x4521, 0x495D, 0x4636, 0x4637} then Some(1)
    else if code in {0x451F, 0x295A, 0x495C} then Some(10)
    else if code == 0x495B then Some(100)
    else None
  }

  /**
   A row fails exactly when its key is no 32-bit number, has one of the nine codes and a value that
   does not fit when scaled, or is that of a tracker column with tracker number zero; and it stores
   nothing exactly when its key is a 32-bit number without one of the nine codes.
   */
  lemma RowFailsExactlyWhen(row: Row)
    requires row.SpotXRow?
    ensures var code := row.lri / 0x100 % 0x1_0000;
            && (DecodeX(row).Invalid? <==>
                  || !(0 <= row.lri <= 0xffff_ffff)
                  || (ScaleOf(code).Some? && !Fits(row.value, ScaleOf(code).value))
                  || (code in {0x251E, 0x451F, 0x4521} && row.lri % 0x100 == 0))
            && (DecodeX(row).Unrecognized? <==> 0 <= row.lri <= 0xffff_ffff && ScaleOf(code).None?)
  {
    assert LriOf(row.lri) == row.lri / 0x100 % 0x1_0000 * 0x100;
    hide LriOf;
  }

  lemma DecodedMppt(row: Row, k: TrackerKey, column: MpptColumn)
    ensures var v := ScaledFor(row, k, MpptCode(column), MpptScale(column));
            v.Some? <==> row.SpotXRow? && DecodeX(row).MpptCell? && DecodeX(row).tracker == k && DecodeX(row).column == column
    ensures var v := ScaledFor(row, k, MpptCode(column), MpptScale(column));
            v.Some? ==> DecodeX(row).value == v.value
  {}

  lemma DecodedBattery(row: Row, k: SampleKey, part: BatteryColumn)
    ensures var v := Scaled(row, k, BatteryCode(part), BatteryScale(part));
            v.Some? <==> row.SpotXRow? && DecodeX(row).BatteryCell? && DecodeX(row).sample == k && DecodeX(row).part == part
    ensures var v := Scaled(row, k, BatteryCode(part), BatteryScale(part));
            v.Some? ==> DecodeX(row).value == v.value
  {}

  lemma DecodedGrid(row: Row, k: SampleKey, isImport: bool)
    ensures var v := Scaled(row, k, GridCode(isImport), 1);
            v.Some? <==> row.SpotXRow? && DecodeX(row).GridCell? && DecodeX(row).sample == k && DecodeX(row).isImport == isImport
    ensures var v := Scaled(row, k, GridCode(isImport), 1);
            v.Some? ==> DecodeX(row).value == v.value
  {}

  // ---------------------------------------------------------------- the effect of one row, by its table

  lemma XEffect(job: Job, row: Row, t: Tables)
    requires row.SpotXRow?
    ensures Effect(job, row, t) == ApplyX(t, DecodeX(row))
  {
    hide SeenRange, AllRows, DecodeX, WritesLatest, ApplyX, UpsertSpot, UpsertLatest, UpsertFixedMppt;
  }

  lemma InverterEffect(job: Job, row: Row, t: Tables)
    requires row.InverterRow?
    ensures var u := Effect(job, row, t);
            && u == t.(inverters := u.inverters, measurements := u.measurements)
            && u.inverters ==
               t.inverters[row.serial := Inverter(row.identity, FirstSeen(job, row.serial), LastSeen(job, row.serial))]
            && u.measurements == (if WritesLatest(job, row) && row.latest.Some?
                                  then UpsertLatest(t.measurements, SampleKey(row.serial, row.at.value), row.latest.value)
                                  else t.measurements)
  {
    hide SeenRange, AllRows, DecodeX, WritesLatest, ApplyX, UpsertSpot, UpsertLatest, UpsertFixedMppt;
  }

  lemma SpotEffect(job: Job, row: Row, t: Tables)
    requires row.SpotRow?
    ensures var u, k := Effect(job, row, t), SampleKey(row.serial, row.measuredAt);
            if row.spot.None? then u == t
            else u == t.(measurements := UpsertSpot(t.measurements, k, row.spot.value),
                         mppts := UpsertFixedMppt(UpsertFixedMppt(t.mppts, TrackerKey(k, 1), row.tracker1),
                                                  TrackerKey(k, 2), row.tracker2))
  {
    hide SeenRange, AllRows, DecodeX, WritesLatest, ApplyX, UpsertSpot, UpsertLatest, UpsertFixedMppt;
  }

  function FirstSeen(job: Job, serial: int): Cell { SeenRange(AllRows(job.rows), serial).0 }

  function LastSeen(job: Job, serial: int): Cell { SeenRange(AllRows(job.rows), serial).1 }

  lemma DayEffect(job: Job, row: Row, t: Tables)
    requires row.DayRow?
    ensures var u, k := Effect(job, row, t), SampleKey(row.serial, row.measuredAt);
            && u == t.(energy := u.energy, exports := u.exports)
            && u.energy == (if row.sample.Some? then t.energy[k := row.sample.value] else t.energy)
            && u.exports == (if row.sample.Some? && row.pvoutput.Some? && job.options(row).legacyPvOutput
                             then t.exports[k := if row.pvoutput.value == 0 then Export(None, 0)
                                                 else Export(Some(row.measuredAt), 1)]
                             else t.exports)
  {
    hide SeenRange, AllRows, DecodeX, WritesLatest, ApplyX, UpsertSpot, UpsertLatest, UpsertFixedMppt;
  }

  lemma MonthEffect(job: Job, row: Row, t: Tables)
    requires row.MonthRow?
    ensures var u, date := Effect(job, row, t), job.options(row).dateOf(row.measuredAt);
            && u == t.(dailyYields := u.dailyYields)
            && u.dailyYields == (if row.rollup.None? then t.dailyYields
                                 else t.dailyYields[DayKey(row.serial, date) :=
                                        DailyYield(row.rollup.value.total, row.rollup.value.daily, date < job.today(row))])
  {
    hide SeenRange, AllRows, DecodeX, WritesLatest, ApplyX, UpsertSpot, UpsertLatest, UpsertFixedMppt;
  }

  lemma EventEffect(job: Job, row: Row, t: Tables)
    requires row.EventRow?
    ensures var u := Effect(job, row, t);
            && u == t.(events := u.events)
            && u.events == (if row.event.None? then t.events
                            else t.events[EventKey(row.serial, row.entry) :=
                                   Event(row.measuredAt, row.event.value.code, row.event.value.texts)])
  {
    hide SeenRange, AllRows, DecodeX, WritesLatest, ApplyX, UpsertSpot, UpsertLatest, UpsertFixedMppt;
  }

  lemma ConsumptionEffect(job: Job, row: Row, t: Tables)
    requires row.ConsumptionRow?
    ensures var u := Effect(job, row, t);
            && u == t.(consumption := u.consumption)
            && u.consumption == (if row.used.None? then t.consumption else t.consumption[row.measuredAt := row.used.value])
  {
    hide SeenRange, AllRows, DecodeX, WritesLatest, ApplyX, UpsertSpot, UpsertLatest, UpsertFixedMppt;
  }

  lemma ConfigEffect(job: Job, row: Row, t: Tables)
    requires row.ConfigRow?
    ensures Effect(job, row, t) == t.(staged := t.staged + {row.rowid})
  {
    hide SeenRange, AllRows, DecodeX, WritesLatest, ApplyX, UpsertSpot, UpsertLatest, UpsertFixedMppt;
  }

  /** Rows of the other tables leave inverters, measurements, trackers and batteries alone. */
  lemma OtherEffect(job: Job, row: Row, t: Tables)
    requires !row.SpotXRow? && !row.InverterRow? && !row.SpotRow?
    ensures var u := Effect(job, row, t);
            u.inverters == t.inverters && u.measurements == t.measurements && u.mppts == t.mppts && u.batteries == t.batteries
  {
    hide *;
    match row
    case DayRow(_, _, _, _, _) => DayEffect(job, row, t);
    case MonthRow(_, _, _, _) => MonthEffect(job, row, t);
    case EventRow(_, _, _, _, _) => EventEffect(job, row, t);
    case ConsumptionRow(_, _, _) => ConsumptionEffect(job, row, t);
    case ConfigRow(_) => ConfigEffect(job, row, t);
  }

  /** Each of the other tables is written by rows of its own source table only. */
  lemma OwnTableOnly(job: Job, row: Row, t: Tables)
    ensures var u := Effect(job, row, t);
            && (!row.ConfigRow? ==> u.staged == t.staged)
            && (!row.DayRow? ==> u.energy == t.energy && u.exports == t.exports)
            && (!row.MonthRow? ==> u.dailyYields == t.dailyYields)
            && (!row.EventRow? ==> u.events == t.events)
            && (!row.ConsumptionRow? ==> u.consumption == t.consumption)
  {
    hide Effect, DecodeX, MeasurementsX, MpptsX, BatteriesX, WritesLatest, SeenRange, AllRows;
    match row
    case InverterRow(_, _, _, _, _, _) => InverterEffect(job, row, t);
    case SpotRow(_, _, _, _, _, _) => SpotEffect(job, row, t);
    case SpotXRow(_, _, _, _) => XEffect(job, row, t);
    case DayRow(_, _, _, _, _) => DayEffect(job, row, t);
    case MonthRow(_, _, _, _) => MonthEffect(job, row, t);
    case EventRow(_, _, _, _, _) => EventEffect(job, row, t);
    case ConsumptionRow(_, _, _) => ConsumptionEffect(job, row, t);
    case ConfigRow(_) => ConfigEffect(job, row, t);
  }

  /** Which of the four kinds a row is, and what it then does. */
  lemma KindEffect(job: Job, row: Row, t: Tables)
    ensures row.SpotXRow? ==> Effect(job, row, t) == ApplyX(t, DecodeX(row))
    ensures !row.SpotXRow? && !row.SpotRow? ==>
              Effect(job, row, t).mppts == t.mppts && Effect(job, row, t).batteries == t.batteries
    ensures row.SpotRow? ==> Effect(job, row, t).batteries == t.batteries
    ensures !row.InverterRow? ==> Effect(job, row, t).inverters == t.inverters
  {
    hide Effect, SeenRange, AllRows, DecodeX, WritesLatest;
    if row.SpotXRow? { XEffect(job, row, t); }
    else if row.InverterRow? { InverterEffect(job, row, t); }
    else if row.SpotRow? { SpotEffect(job, row, t); }
    else { OtherEffect(job, row, t); }
  }

  // ---------------------------------------------------------------- what the rows of each table supply

  function StagedPart(rowid: int): Tables -> bool { (t: Tables) => rowid in t.staged }

  function StagedSupply(rowid: int): Row -> Option<bool> {
    (row: Row) => if row.ConfigRow? && row.rowid == rowid then Some(true) else None
  }

  lemma StagedFollows(job: Job, rowid: int)
    ensures Follows(job, StagedPart(rowid), StagedSupply(rowid))
  {
    hide Effect;
    forall row, t
      ensures StagedPart(rowid)(Effect(job, row, t)) ==
              if StagedSupply(rowid)(row).Some? then StagedSupply(rowid)(row).value else StagedPart(rowid)(t)
    {
      OwnTableOnly(job, row, t);
      if row.ConfigRow? { ConfigEffect(job, row, t); }
    }
  }

  function InverterPart(serial: int): Tables -> Option<Inverter> { (t: Tables) => Find(t.inverters, serial) }

  /** An inverter takes the identity of its row, and the range in which the whole source has seen it. */
  function InverterSupply(job: Job, serial: int): Row -> Option<Option<Inverter>> {
    (row: Row) =>
      if row.InverterRow? && row.serial == serial
      then Some(Some(Inverter(row.identity, FirstSeen(job, serial), LastSeen(job, serial))))
      else None
  }

  lemma InverterFollows(job: Job, serial: int)
    ensures Follows(job, InverterPart(serial), InverterSupply(job, serial))
  {
    hide Effect, FirstSeen, LastSeen, WritesLatest;
    forall row, t
      ensures Find(Effect(job, row, t).inverters, serial) ==
              if row.InverterRow? && row.serial == serial
              then Some(Inverter(row.identity, FirstSeen(job, serial), LastSeen(job, serial)))
              else Find(t.inverters, serial)
    {
      KindEffect(job, row, t);
      if row.InverterRow? { InverterEffect(job, row, t); }
    }
  }

  /** A measurement of a SpotData row at this instant exists in the source, whether or not it is migrated. */
  ghost predicate HasSpotRow(job: Job, k: SampleKey) {
    |job.rows| == 8 && exists i ::
      0 <= i < |job.rows[2]| && job.rows[2][i].SpotRow? && job.rows[2][i].serial == k.serial
      && job.rows[2][i].measuredAt == k.at
  }

  lemma {:induction false} SpotRowExists(rows: seq<Row>, serial: int, at: int)
    ensures SpotTimestampExists(rows, serial, at) <==>
            exists i :: 0 <= i < |rows| && rows[i].SpotRow? && rows[i].serial == serial && rows[i].measuredAt == at
  {
    if rows != [] {
      var tail := rows[1..];
      SpotRowExists(tail, serial, at);
      if exists i :: 0 <= i < |rows| && rows[i].SpotRow? && rows[i].serial == serial && rows[i].measuredAt == at {
        var i :| 0 <= i < |rows| && rows[i].SpotRow? && rows[i].serial == serial && rows[i].measuredAt == at;
        if i > 0 { assert tail[i - 1] == rows[i]; }
      }
      if SpotTimestampExists(tail, serial, at) {
        var i :| 0 <= i < |tail| && tail[i].SpotRow? && tail[i].serial == serial && tail[i].measuredAt == at;
        assert rows[i + 1] == tail[i];
      }
    }
  }

  /** The latest columns of an Inverters row, which are stored only where no SpotData row is. */
  ghost predicate SuppliesLatest(job: Job, row: Row, k: SampleKey) {
    && row.InverterRow? && row.at == Some(k.at) && row.serial == k.serial && row.hasLatest && row.latest.Some?
    && !HasSpotRow(job, k)
  }

  predicate SuppliesSpot(row: Row, k: SampleKey) {
    row.SpotRow? && row.spot.Some? && row.serial == k.serial && row.measuredAt == k.at
  }

  lemma WritesLatestMeans(job: Job, row: Row, k: SampleKey)
    requires row.InverterRow?
    ensures SuppliesLatest(job, row, k) <==>
            WritesLatest(job, row) && row.latest.Some? && k == SampleKey(row.serial, row.at.value)
  {
    if row.at.Some? { SpotRowExists(SpotTable(job), row.serial, row.at.value); }
  }

  // ---------------------------------------------------------------- which rows cannot be migrated

  /** Some column that the row's own table stores has a value that cannot be converted. */
  ghost predicate IsUnconvertible(job: Job, row: Row) {
    || (row.InverterRow? && row.latest.None? && row.hasLatest && row.at.Some?
        && !HasSpotRow(job, SampleKey(row.serial, row.at.value)))
    || (row.SpotRow? && row.spot.None?) || (row.DayRow? && row.sample.None?) || (row.MonthRow? && row.rollup.None?)
    || (row.EventRow? && row.event.None?) || (row.ConsumptionRow? && row.used.None?)
    || (row.SpotXRow? && XFails(row))
  }

  predicate XFails(row: Row)
    requires row.SpotXRow?
  {
    var code := row.lri / 0x100 % 0x1_0000;
    || !(0 <= row.lri <= 0xffff_ffff) || (ScaleOf(code).Some? && !Fits(row.value, ScaleOf(code).value))
    || (code in {0x251E, 0x451F, 0x4521} && row.lri % 0x100 == 0)
  }

  /** The row stores something that refers to its inverter. */
  predicate RefersToInverter(row: Row) {
    row.SpotRow? || row.DayRow? || row.MonthRow? || row.EventRow?
    || (row.SpotXRow? && ScaleOf(row.lri / 0x100 % 0x1_0000).Some?)
  }

  /** A value lies outside the range of its column. */
  predicate IsOutOfRange(job: Job, row: Row) {
    || (row.InverterRow? && !(0 <= row.serial <= 0xffff_ffff))
    || (row.DayRow? && job.options(row).legacyPvOutput && row.pvoutput.Some? && row.pvoutput.value !in {0, 1})
    || (row.SpotXRow? && KeyHas(row, 0x295A) && row.value.Some? && !(0 <= row.value.value * 10 <= 1000))
  }

  /**
   A row fails on its own exactly when a column of it cannot be converted, its inverter is not known, or a
   value is out of range: a serial of 32 bits, an export flag of 0 or 1, a state of charge of 0 to 100 percent.
   */
  lemma RowFailsAloneExactlyWhen(job: Job, row: Row, inverters: set<int>)
    ensures !RowOk(job, row, inverters) <==>
            IsUnconvertible(job, row) || (RefersToInverter(row) && row.serial !in inverters) || IsOutOfRange(job, row)
  {
    if row.SpotXRow? {
      RowFailsExactlyWhen(row);
      DecodedBattery(row, SampleKey(row.serial, row.measuredAt), StateOfCharge);
      DecodedSample(row);
      hide DecodeX, HasSpotRow;
    } else if row.InverterRow? && row.at.Some? {
      SpotRowExists(SpotTable(job), row.serial, row.at.value);
    }
  }

  function MeasurementPart(k: SampleKey): Tables -> bool { (t: Tables) => k in t.measurements }

  ghost function MeasurementSupply(job: Job, k: SampleKey): Row -> Option<bool> {
    (row: Row) =>
      if SuppliesSpot(row, k) || SuppliesLatest(job, row, k)
         || (IsOf(row, k) && !DecodeX(row).Invalid? && !DecodeX(row).Unrecognized?)
      then Some(true) else None
  }

  lemma MeasurementFollows(job: Job, k: SampleKey)
    ensures Follows(job, MeasurementPart(k), MeasurementSupply(job, k))
  {
    hide Effect, SuppliesLatest, WritesLatest, DecodeX, FirstSeen, LastSeen;
    forall row, t
      ensures (k in Effect(job, row, t).measurements) == (MeasurementSupply(job, k)(row).Some? || k in t.measurements)
    {
      if row.SpotXRow? {
        XEffect(job, row, t);
        DecodedSample(row);
      } else if row.InverterRow? {
        InverterEffect(job, row, t);
        WritesLatestMeans(job, row, k);
      } else if row.SpotRow? {
        SpotEffect(job, row, t);
        NoLatest(job, row, k);
      } else {
        OtherEffect(job, row, t);
        NoLatest(job, row, k);
      }
    }
  }

  lemma NoLatest(job: Job, row: Row, k: SampleKey)
    requires !row.InverterRow?
    ensures !SuppliesLatest(job, row, k)
  {}

  /** A stored cell is one of the row's own measurement. */
  lemma DecodedSample(row: Row)
    requires row.SpotXRow?
    ensures var k, cell := SampleKey(row.serial, row.measuredAt), DecodeX(row);
            && (cell.MpptCell? ==> cell.tracker.sample == k) && (cell.BatteryCell? ==> cell.sample == k)
            && (cell.GridCell? ==> cell.sample == k)
    ensures forall job, k :: !SuppliesLatest(job, row, k)
  {}

  function SpotOf(t: Tables, k: SampleKey): Spot { if k in t.measurements then t.measurements[k].spot else NO_SPOT }

  /** The columns of a measurement that only SpotData rows supply. */
  function SpotPart(k: SampleKey): Tables -> Spot { (t: Tables) => SpotOf(t, k).(latest := NO_LATEST) }

  function SpotSupply(k: SampleKey): Row -> Option<Spot> {
    (row: Row) => if SuppliesSpot(row, k) then Some(row.spot.value.(latest := NO_LATEST)) else None
  }

  /** A SpotDataX cell changes no spot column. */
  lemma CellKeepsSpot(t: Tables, cell: XCell, k: SampleKey)
    ensures SpotOf(ApplyX(t, cell), k) == SpotOf(t, k)
  {}

  /** The spot columns after one row, latest columns included. */
  lemma SpotAfter(job: Job, row: Row, t: Tables, k: SampleKey)
    ensures SpotOf(Effect(job, row, t), k) ==
            if SuppliesSpot(row, k) then row.spot.value
            else if SuppliesLatest(job, row, k) then SpotOf(t, k).(latest := row.latest.value)
            else SpotOf(t, k)
  {
    hide Effect, SuppliesLatest, WritesLatest, DecodeX, FirstSeen, LastSeen;
    if row.SpotXRow? {
      XEffect(job, row, t);
      CellKeepsSpot(t, DecodeX(row), k);
      DecodedSample(row);
    } else if row.InverterRow? {
      InverterEffect(job, row, t);
      WritesLatestMeans(job, row, k);
    } else if row.SpotRow? {
      SpotEffect(job, row, t);
      NoLatest(job, row, k);
    } else {
      OtherEffect(job, row, t);
      NoLatest(job, row, k);
    }
  }

  lemma SpotFollows(job: Job, k: SampleKey)
    ensures Follows(job, SpotPart(k), SpotSupply(k))
  {
    hide Effect, SpotOf, SuppliesLatest;
    forall row, t
      ensures SpotPart(k)(Effect(job, row, t)) ==
              if SpotSupply(k)(row).Some? then SpotSupply(k)(row).value else SpotPart(k)(t)
    {
      SpotAfter(job, row, t, k);
    }
  }

  function LatestPart(k: SampleKey): Tables -> Latest { (t: Tables) => SpotOf(t, k).latest }

  ghost function LatestSupply(job: Job, k: SampleKey): Row -> Option<Latest> {
    (row: Row) =>
      if SuppliesSpot(row, k) then Some(row.spot.value.latest)
      else if SuppliesLatest(job, row, k) then Some(row.latest.value)
      else None
  }

  lemma LatestFollows(job: Job, k: SampleKey)
    ensures Follows(job, LatestPart(k), LatestSupply(job, k))
  {
    hide Effect, SpotOf;
    forall row, t
      ensures LatestPart(k)(Effect(job, row, t)) ==
              if LatestSupply(job, k)(row).Some? then LatestSupply(job, k)(row).value else LatestPart(k)(t)
    {
      SpotAfter(job, row, t, k);
      hide SuppliesLatest;
    }
  }

  function GridPart(k: SampleKey, isImport: bool): Tables -> Cell {
    (t: Tables) =>
      if k !in t.measurements then None
      else if isImport then t.measurements[k].gridImport
      else t.measurements[k].gridExport
  }

  function GridSupply(k: SampleKey, isImport: bool): Row -> Option<Cell> {
    (row: Row) => Scaled(row, k, GridCode(isImport), 1)
  }

  lemma GridOfCell(t: Tables, cell: XCell, k: SampleKey, isImport: bool)
    ensures GridPart(k, isImport)(ApplyX(t, cell)) ==
            if cell.GridCell? && cell.sample == k && cell.isImport == isImport then cell.value else GridPart(k, isImport)(t)
  {}

  lemma GridFollows(job: Job, k: SampleKey, isImport: bool)
    ensures Follows(job, GridPart(k, isImport), GridSupply(k, isImport))
  {
    hide Effect, WritesLatest, DecodeX, FirstSeen, LastSeen, Scaled;
    forall row, t
      ensures GridPart(k, isImport)(Effect(job, row, t)) ==
              if GridSupply(k, isImport)(row).Some? then GridSupply(k, isImport)(row).value else GridPart(k, isImport)(t)
    {
      DecodedGrid(row, k, isImport);
      if row.SpotXRow? {
        XEffect(job, row, t);
        GridOfCell(t, DecodeX(row), k, isImport);
      } else if row.InverterRow? {
        InverterEffect(job, row, t);
      } else if row.SpotRow? {
        SpotEffect(job, row, t);
      } else {
        OtherEffect(job, row, t);
      }
    }
  }

  function MpptValue(m: Mppt, column: MpptColumn): Cell {
    match column case Power => m.power case Current => m.current case Voltage => m.voltage
  }

  /** The fixed tracker columns of a SpotData row for this tracker, unless they are all NULL. */
  function FixedTracker(row: Row, k: TrackerKey): Option<Mppt> {
    if !SuppliesSpot(row, k.sample) then None
    else if k.tracker == 1 && row.tracker1 != NO_MPPT then Some(row.tracker1)
    else if k.tracker == 2 && row.tracker2 != NO_MPPT then Some(row.tracker2)
    else None
  }

  function MpptPart(k: TrackerKey, column: MpptColumn): Tables -> Cell {
    (t: Tables) => if k in t.mppts then MpptValue(t.mppts[k], column) else None
  }

  function MpptSupply(k: TrackerKey, column: MpptColumn): Row -> Option<Cell> {
    (row: Row) =>
      if FixedTracker(row, k).Some? then Some(MpptValue(FixedTracker(row, k).value, column))
      else ScaledFor(row, k, MpptCode(column), MpptScale(column))
  }

  lemma MpptOfCell(t: Tables, cell: XCell, k: TrackerKey, column: MpptColumn)
    ensures MpptPart(k, column)(ApplyX(t, cell)) ==
            if cell.MpptCell? && cell.tracker == k && cell.column == column then cell.value else MpptPart(k, column)(t)
    ensures k in ApplyX(t, cell).mppts <==> k in t.mppts || (cell.MpptCell? && cell.tracker == k)
  {}

  lemma MpptOfFixed(job: Job, row: Row, t: Tables, k: TrackerKey)
    requires row.SpotRow?
    ensures var u, fixed := Effect(job, row, t).mppts, FixedTracker(row, k);
            if fixed.Some? then k in u && u[k] == fixed.value
            else (k in u <==> k in t.mppts) && (k in u ==> u[k] == t.mppts[k])
  {
    var sample := SampleKey(row.serial, row.measuredAt);
    SpotEffect(job, row, t);
    hide Effect, UpsertFixedMppt, FixedTracker;
    FixedIsStored(t.mppts, TrackerKey(sample, 1), row.tracker1, k);
    FixedIsStored(UpsertFixedMppt(t.mppts, TrackerKey(sample, 1), row.tracker1), TrackerKey(sample, 2), row.tracker2, k);
    FixedTrackerMeans(row, k);
  }

  lemma FixedTrackerMeans(row: Row, k: TrackerKey)
    requires row.SpotRow?
    ensures var sample := SampleKey(row.serial, row.measuredAt);
            FixedTracker(row, k) ==
            if row.spot.None? then None
            else if k == TrackerKey(sample, 1) && row.tracker1 != NO_MPPT then Some(row.tracker1)
            else if k == TrackerKey(sample, 2) && row.tracker2 != NO_MPPT then Some(row.tracker2)
            else None
  {}

  lemma FixedIsStored(m: map<TrackerKey, Mppt>, key: TrackerKey, fixed: Mppt, k: TrackerKey)
    ensures Find(UpsertFixedMppt(m, key, fixed), k) == if k == key && fixed != NO_MPPT then Some(fixed) else Find(m, k)
  {}

  lemma MpptFollows(job: Job, k: TrackerKey, column: MpptColumn)
    ensures Follows(job, MpptPart(k, column), MpptSupply(k, column))
  {
    hide Effect, DecodeX, ScaledFor;
    forall row, t
      ensures MpptPart(k, column)(Effect(job, row, t)) ==
              if MpptSupply(k, column)(row).Some? then MpptSupply(k, column)(row).value else MpptPart(k, column)(t)
    {
      DecodedMppt(row, k, column);
      KindEffect(job, row, t);
      if row.SpotXRow? { MpptOfCell(t, DecodeX(row), k, column); }
      else if row.SpotRow? { MpptOfFixed(job, row, t, k); }
    }
  }

  function MpptRowPart(k: TrackerKey): Tables -> bool { (t: Tables) => k in t.mppts }

  function MpptRowSupply(k: TrackerKey): Row -> Option<bool> {
    (row: Row) =>
      if FixedTracker(row, k).Some? || ScaledFor(row, k, 0x251E, 1).Some? || ScaledFor(row, k, 0x451F, 10).Some?
         || ScaledFor(row, k, 0x4521, 1).Some?
      then Some(true) else None
  }

  lemma MpptRowFollows(job: Job, k: TrackerKey)
    ensures Follows(job, MpptRowPart(k), MpptRowSupply(k))
  {
    hide Effect, DecodeX, ScaledFor;
    forall row, t
      ensures (k in Effect(job, row, t).mppts) == (MpptRowSupply(k)(row).Some? || k in t.mppts)
    {
      DecodedMppt(row, k, Power);
      DecodedMppt(row, k, Voltage);
      DecodedMppt(row, k, Current);
      KindEffect(job, row, t);
      if row.SpotXRow? { MpptOfCell(t, DecodeX(row), k, Power); }
      else if row.SpotRow? { MpptOfFixed(job, row, t, k); }
    }
  }

  function BatteryPart(k: SampleKey, part: BatteryColumn): Tables -> Cell {
    (t: Tables) =>
      if k !in t.batteries then None
      else
        match part
        case StateOfCharge => t.batteries[k].stateOfCharge
        case BatteryVoltage => t.batteries[k].voltage
        case BatteryCurrent => t.batteries[k].current
        case Temperature => t.batteries[k].temperature
  }

  function BatterySupply(k: SampleKey, part: BatteryColumn): Row -> Option<Cell> {
    (row: Row) => Scaled(row, k, BatteryCode(part), BatteryScale(part))
  }

  lemma BatteryOfCell(t: Tables, cell: XCell, k: SampleKey, part: BatteryColumn)
    ensures BatteryPart(k, part)(ApplyX(t, cell)) ==
            if cell.BatteryCell? && cell.sample == k && cell.part == part then cell.value else BatteryPart(k, part)(t)
    ensures k in ApplyX(t, cell).batteries <==> k in t.batteries || (cell.BatteryCell? && cell.sample == k)
  {}

  lemma BatteryFollows(job: Job, k: SampleKey, part: BatteryColumn)
    ensures Follows(job, BatteryPart(k, part), BatterySupply(k, part))
  {
    hide Effect, DecodeX, Scaled;
    forall row, t
      ensures BatteryPart(k, part)(Effect(job, row, t)) ==
              if BatterySupply(k, part)(row).Some? then BatterySupply(k, part)(row).value else BatteryPart(k, part)(t)
    {
      DecodedBattery(row, k, part);
      KindEffect(job, row, t);
      if row.SpotXRow? { BatteryOfCell(t, DecodeX(row), k, part); }
    }
  }

  function BatteryRowPart(k: SampleKey): Tables -> bool { (t: Tables) => k in t.batteries }

  function BatteryRowSupply(k: SampleKey): Row -> Option<bool> {
    (row: Row) =>
      if Scaled(row, k, 0x295A, 10).Some? || Scaled(row, k, 0x495C, 10).Some? || Scaled(row, k, 0x495D, 1).Some?
         || Scaled(row, k, 0x495B, 100).Some?
      then Some(true) else None
  }

  lemma BatteryRowFollows(job: Job, k: SampleKey)
    ensures Follows(job, BatteryRowPart(k), BatteryRowSupply(k))
  {
    hide Effect, DecodeX, Scaled;
    forall row, t
      ensures (k in Effect(job, row, t).batteries) == (BatteryRowSupply(k)(row).Some? || k in t.batteries)
    {
      DecodedBattery(row, k, StateOfCharge);
      DecodedBattery(row, k, BatteryVoltage);
      DecodedBattery(row, k, BatteryCurrent);
      DecodedBattery(row, k, Temperature);
      KindEffect(job, row, t);
      if row.SpotXRow? { BatteryOfCell(t, DecodeX(row), k, StateOfCharge); }
    }
  }

  function EnergyPart(k: SampleKey): Tables -> Option<Energy> { (t: Tables) => Find(t.energy, k) }

  function EnergySupply(k: SampleKey): Row -> Option<Option<Energy>> {
    (row: Row) =>
      if row.DayRow? && row.sample.Some? && row.serial == k.serial && row.measuredAt == k.at
      then Some(Some(Energy(row.sample.value.total, row.sample.value.power)))
      else None
  }

  lemma EnergyFollows(job: Job, k: SampleKey)
    ensures Follows(job, EnergyPart(k), EnergySupply(k))
  {
    hide Effect;
    forall row, t
      ensures EnergyPart(k)(Effect(job, row, t)) ==
              if EnergySupply(k)(row).Some? then EnergySupply(k)(row).value else EnergyPart(k)(t)
    {
      OwnTableOnly(job, row, t);
      if row.DayRow? { DayEffect(job, row, t); }
    }
  }

  function ExportPart(k: SampleKey): Tables -> Option<Export> { (t: Tables) => Find(t.exports, k) }

  /** Flag 0 is an export still to be made, any other flag one made at the sample's instant. */
  function ExportSupply(job: Job, k: SampleKey): Row -> Option<Option<Export>> {
    (row: Row) =>
      if row.DayRow? && row.sample.Some? && row.pvoutput.Some? && job.options(row).legacyPvOutput
         && row.serial == k.serial && row.measuredAt == k.at
      then Some(Some(if row.pvoutput.value == 0 then Export(None, 0) else Export(Some(row.measuredAt), 1)))
      else None
  }

  lemma ExportFollows(job: Job, k: SampleKey)
    ensures Follows(job, ExportPart(k), ExportSupply(job, k))
  {
    hide Effect;
    forall row, t
      ensures ExportPart(k)(Effect(job, row, t)) ==
              if ExportSupply(job, k)(row).Some? then ExportSupply(job, k)(row).value else ExportPart(k)(t)
    {
      OwnTableOnly(job, row, t);
      if row.DayRow? { DayEffect(job, row, t); }
    }
  }

  function YieldPart(d: DayKey): Tables -> Option<DailyYield> { (t: Tables) => Find(t.dailyYields, d) }

  /** The rollup of a MonthData row on its local date, complete when the date was over for its session. */
  function YieldSupply(job: Job, d: DayKey): Row -> Option<Option<DailyYield>> {
    (row: Row) =>
      if row.MonthRow? && row.rollup.Some? && row.serial == d.serial && job.options(row).dateOf(row.measuredAt) == d.date
      then Some(Some(DailyYield(row.rollup.value.total, row.rollup.value.daily, d.date < job.today(row))))
      else None
  }

  lemma YieldFollows(job: Job, d: DayKey)
    ensures Follows(job, YieldPart(d), YieldSupply(job, d))
  {
    hide Effect;
    forall row, t
      ensures YieldPart(d)(Effect(job, row, t)) ==
              if YieldSupply(job, d)(row).Some? then YieldSupply(job, d)(row).value else YieldPart(d)(t)
    {
      OwnTableOnly(job, row, t);
      if row.MonthRow? { MonthEffect(job, row, t); }
    }
  }

  function EventPart(k: EventKey): Tables -> Option<Event> { (t: Tables) => Find(t.events, k) }

  function EventSupply(k: EventKey): Row -> Option<Option<Event>> {
    (row: Row) =>
      if row.EventRow? && row.event.Some? && row.serial == k.serial && row.entry == k.entry
      then Some(Some(Event(row.measuredAt, row.event.value.code, row.event.value.texts)))
      else None
  }

  lemma EventFollows(job: Job, k: EventKey)
    ensures Follows(job, EventPart(k), EventSupply(k))
  {
    hide Effect;
    forall row, t
      ensures EventPart(k)(Effect(job, row, t)) ==
              if EventSupply(k)(row).Some? then EventSupply(k)(row).value else EventPart(k)(t)
    {
      OwnTableOnly(job, row, t);
      if row.EventRow? { EventEffect(job, row, t); }
    }
  }

  function ConsumptionPart(at: int): Tables -> Option<Energy> { (t: Tables) => Find(t.consumption, at) }

  function ConsumptionSupply(at: int): Row -> Option<Option<Energy>> {
    (row: Row) =>
      if row.ConsumptionRow? && row.used.Some? && row.measuredAt == at
      then Some(Some(Energy(row.used.value.total, row.used.value.power)))
      else None
  }

  lemma ConsumptionFollows(job: Job, at: int)
    ensures Follows(job, ConsumptionPart(at), ConsumptionSupply(at))
  {
    hide Effect;
    forall row, t
      ensures ConsumptionPart(at)(Effect(job, row, t)) ==
              if ConsumptionSupply(at)(row).Some? then ConsumptionSupply(at)(row).value else ConsumptionPart(at)(t)
    {
      OwnTableOnly(job, row, t);
      if row.ConsumptionRow? { ConsumptionEffect(job, row, t); }
    }
  }

  // ---------------------------------------------------------------- when the source has seen an inverter

  /** One of the six tables with serials says that the inverter was there at this instant. */
  predicate Saw(row: Row, serial: int, at: int) {
    || (row.InverterRow? && row.serial == serial && row.at == Some(at))
    || ((row.SpotRow? || row.SpotXRow? || row.DayRow? || row.MonthRow? || row.EventRow?)
        && row.serial == serial && row.measuredAt == at)
  }

  /** The least and the greatest of these instants, both NULL when there is none. */
  ghost predicate IsSeenRange(rows: seq<Row>, serial: int, first: Cell, last: Cell) {
    && (first.None? <==> last.None?)
    && (first.None? ==> forall i, at | 0 <= i < |rows| :: !Saw(rows[i], serial, at))
    && (first.Some? ==>
          && (exists i :: 0 <= i < |rows| && Saw(rows[i], serial, first.value))
          && (exists i :: 0 <= i < |rows| && Saw(rows[i], serial, last.value))
          && forall i, at | 0 <= i < |rows| && Saw(rows[i], serial, at) :: first.value <= at <= last.value)
  }

  lemma SeenByRow(row: Row, serial: int)
    ensures forall at :: Saw(row, serial, at) <==> SeenAt(row, serial) == Some(at)
  {}

  lemma {:induction false} RangeIsSeen(rows: seq<Row>, serial: int)
    ensures IsSeenRange(rows, serial, SeenRange(rows, serial).0, SeenRange(rows, serial).1)
  {
    if rows != [] {
      RangeIsSeen(rows[1..], serial);
      SeenByRow(rows[0], serial);
      hide Saw, SeenAt;
      RangeGrows(rows, serial, SeenRange(rows[1..], serial));
    }
  }

  lemma RangeGrows(rows: seq<Row>, serial: int, rest: (Cell, Cell))
    requires rows != [] && IsSeenRange(rows[1..], serial, rest.0, rest.1)
    requires forall at :: Saw(rows[0], serial, at) <==> SeenAt(rows[0], serial) == Some(at)
    ensures var here := SeenAt(rows[0], serial);
            IsSeenRange(rows, serial, Least(here, rest.0), Greatest(here, rest.1))
  {
    hide Saw, SeenAt;
    var tail, here := rows[1..], SeenAt(rows[0], serial);
    var first, last := Least(here, rest.0), Greatest(here, rest.1);
    if here.Some? { assert Saw(rows[0], serial, here.value); }
    if rest.0.Some? {
      var i :| 0 <= i < |tail| && Saw(tail[i], serial, rest.0.value);
      var j :| 0 <= j < |tail| && Saw(tail[j], serial, rest.1.value);
      assert Saw(rows[i + 1], serial, rest.0.value) && Saw(rows[j + 1], serial, rest.1.value);
    }
    forall i, at | 0 <= i < |rows| && Saw(rows[i], serial, at)
      ensures first.Some? && last.Some? && first.value <= at <= last.value
    {
      if i > 0 { assert tail[i - 1] == rows[i]; }
    }
  }

  /** An inverter's range is that of all rows of the whole source, migrated or not. */
  lemma SeenInTheSource(job: Job, serial: int)
    ensures IsSeenRange(AllRows(job.rows), serial, FirstSeen(job, serial), LastSeen(job, serial))
  {
    RangeIsSeen(AllRows(job.rows), serial);
  }

  lemma {:induction false} AllRowsAreThere(tables: seq<seq<Row>>, row: Row)
    ensures row in AllRows(tables) <==> exists c, i :: 0 <= c < |tables| && 0 <= i < |tables[c]| && tables[c][i] == row
  {
    if tables != [] {
      var tail := tables[1..];
      AllRowsAreThere(tail, row);
      assert row in AllRows(tables) <==> row in tables[0] || row in AllRows(tail);
      if row in AllRows(tail) {
        var c, i :| 0 <= c < |tail| && 0 <= i < |tail[c]| && tail[c][i] == row;
        assert tables[c + 1][i] == row;
      }
      if row in tables[0] {
        var i :| 0 <= i < |tables[0]| && tables[0][i] == row;
      }
      if exists c, i :: 0 <= c < |tables| && 0 <= i < |tables[c]| && tables[c][i] == row {
        var c, i :| 0 <= c < |tables| && 0 <= i < |tables[c]| && tables[c][i] == row;
        if c > 0 { assert tail[c - 1][i] == row; }
      }
    }
  }

  // ---------------------------------------------------------------- at every position of a run

  /** The rows that the checkpoints of the first `to` categories cover, in the order of migration. */
  function AllCovered(job: Job, db: Database, to: nat): seq<Row>
    requires to <= |job.rows| == COUNT
  {
    if to == 0 then [] else AllCovered(job, db, to - 1) + Covered(job, db, to - 1)
  }

  lemma {:induction false} ReplayIsEffects(job: Job, db: Database, to: nat)
    requires to <= |job.rows| == COUNT
    ensures Replay(job, db, to) == Effects(job, AllCovered(job, db, to), NO_TABLES)
  {
    if to > 0 {
      ReplayIsEffects(job, db, to - 1);
      hide Effects, Covered;
      EffectsSplit(job, AllCovered(job, db, to - 1), Covered(job, db, to - 1), NO_TABLES);
    }
  }

  /** Part of the tables that the rebuild of daily yields does not touch. */
  ghost predicate IgnoresYields<V(!new)>(part: Tables -> V) {
    forall t: Tables, y :: part(t.(dailyYields := y)) == part(t)
  }

  /** The last covered row that supplies a value decides, as long as no rebuild has written the part. */
  lemma CoveredRowsDecide<V(!new)>(job: Job, db: Database, p: nat, k: nat, part: Tables -> V, supply: Row -> Option<V>)
    requires ValidJob(job) && At(job, db, p, k) && Follows(job, part, supply) && (p < COUNT || IgnoresYields(part))
    ensures |job.rows| == COUNT && part(db.tables) == LastOr(AllCovered(job, db, COUNT), supply, part(NO_TABLES))
  {
    PositionFits(job, db, p, k);
    TablesFollowCheckpoints(job, db, p, k);
    ReplayIsEffects(job, db, COUNT);
    hide At, Follows, Effects, AllCovered, Replay, ValidRows;
    LastRowDecides(job, AllCovered(job, db, COUNT), NO_TABLES, part, supply);
    if p == COUNT {
      var replay := Replay(job, db, COUNT);
      assert replay == db.tables.(dailyYields := replay.dailyYields);
    }
  }

  /** Staged rowids are those of the covered Config rows. */
  lemma StagedAt(job: Job, db: Database, p: nat, k: nat, rowid: int)
    requires ValidJob(job) && At(job, db, p, k)
    ensures |job.rows| == COUNT
    ensures (rowid in db.tables.staged) == LastOr(AllCovered(job, db, COUNT), StagedSupply(rowid), false)
  {
    StagedFollows(job, rowid);
    hide Follows, At, ValidRows, LastOr, AllCovered;
    CoveredRowsDecide(job, db, p, k, StagedPart(rowid), StagedSupply(rowid));
  }

  /** An inverter has the identity of its last covered row and the range in which the whole source has seen it. */
  lemma InvertersAt(job: Job, db: Database, p: nat, k: nat, serial: int)
    requires ValidJob(job) && At(job, db, p, k)
    ensures |job.rows| == COUNT
    ensures Find(db.tables.inverters, serial) == LastOr(AllCovered(job, db, COUNT), InverterSupply(job, serial), None)
    ensures IsSeenRange(AllRows(job.rows), serial, FirstSeen(job, serial), LastSeen(job, serial))
  {
    SeenInTheSource(job, serial);
    InverterFollows(job, serial);
    hide Follows, At, ValidRows, LastOr, AllCovered, IsSeenRange, FirstSeen, LastSeen;
    CoveredRowsDecide(job, db, p, k, InverterPart(serial), InverterSupply(job, serial));
  }

  /**
   A measurement has its spot columns from the last covered SpotData row, its latest columns from that or
   from a later Inverters row where the source has no SpotData row, and import and export from the last
   covered SpotDataX rows of these keys.
   */
  lemma MeasurementsAt(job: Job, db: Database, p: nat, k: nat, key: SampleKey)
    requires ValidJob(job) && At(job, db, p, k)
    ensures |job.rows| == COUNT
    ensures var rows, t := AllCovered(job, db, COUNT), db.tables;
            && (key in t.measurements) == LastOr(rows, MeasurementSupply(job, key), false)
            && SpotOf(t, key).(latest := NO_LATEST) == LastOr(rows, SpotSupply(key), NO_SPOT)
            && SpotOf(t, key).latest == LastOr(rows, LatestSupply(job, key), NO_LATEST)
            && (key in t.measurements ==>
                  && t.measurements[key].gridImport == LastOr(rows, GridSupply(key, true), None)
                  && t.measurements[key].gridExport == LastOr(rows, GridSupply(key, false), None))
  {
    MeasurementFollows(job, key);
    SpotFollows(job, key);
    LatestFollows(job, key);
    GridFollows(job, key, true);
    GridFollows(job, key, false);
    hide Follows, At, ValidRows, LastOr, AllCovered, MeasurementSupply, SpotSupply, LatestSupply, GridSupply;
    CoveredRowsDecide(job, db, p, k, MeasurementPart(key), MeasurementSupply(job, key));
    CoveredRowsDecide(job, db, p, k, SpotPart(key), SpotSupply(key));
    CoveredRowsDecide(job, db, p, k, LatestPart(key), LatestSupply(job, key));
    CoveredRowsDecide(job, db, p, k, GridPart(key, true), GridSupply(key, true));
    CoveredRowsDecide(job, db, p, k, GridPart(key, false), GridSupply(key, false));
  }

  /** A tracker's columns come from the last covered SpotDataX row of their key or SpotData row with this tracker. */
  lemma TrackersAt(job: Job, db: Database, p: nat, k: nat, key: TrackerKey, column: MpptColumn)
    requires ValidJob(job) && At(job, db, p, k)
    ensures |job.rows| == COUNT
    ensures var rows, t := AllCovered(job, db, COUNT), db.tables;
            && (key in t.mppts) == LastOr(rows, MpptRowSupply(key), false)
            && (key in t.mppts ==> MpptValue(t.mppts[key], column) == LastOr(rows, MpptSupply(key, column), None))
  {
    MpptRowFollows(job, key);
    MpptFollows(job, key, column);
    hide Follows, At, ValidRows, LastOr, AllCovered, MpptRowSupply, MpptSupply;
    CoveredRowsDecide(job, db, p, k, MpptRowPart(key), MpptRowSupply(key));
    CoveredRowsDecide(job, db, p, k, MpptPart(key, column), MpptSupply(key, column));
  }

  /** A battery's columns come from the last covered SpotDataX row of their key, scaled. */
  lemma BatteriesAt(job: Job, db: Database, p: nat, k: nat, key: SampleKey)
    requires ValidJob(job) && At(job, db, p, k)
    ensures |job.rows| == COUNT
    ensures var rows, t := AllCovered(job, db, COUNT), db.tables;
            && (key in t.batteries) == LastOr(rows, BatteryRowSupply(key), false)
            && (key in t.batteries ==>
                  t.batteries[key] == Battery(LastOr(rows, BatterySupply(key, StateOfCharge), None),
                                              LastOr(rows, BatterySupply(key, BatteryVoltage), None),
                                              LastOr(rows, BatterySupply(key, BatteryCurrent), None),
                                              LastOr(rows, BatterySupply(key, Temperature), None)))
  {
    BatteryRowFollows(job, key);
    BatteryFollows(job, key, StateOfCharge);
    BatteryFollows(job, key, BatteryVoltage);
    BatteryFollows(job, key, BatteryCurrent);
    BatteryFollows(job, key, Temperature);
    hide Follows, At, ValidRows, LastOr, AllCovered, BatteryRowSupply, BatterySupply;
    CoveredRowsDecide(job, db, p, k, BatteryRowPart(key), BatteryRowSupply(key));
    CoveredRowsDecide(job, db, p, k, BatteryPart(key, StateOfCharge), BatterySupply(key, StateOfCharge));
    CoveredRowsDecide(job, db, p, k, BatteryPart(key, BatteryVoltage), BatterySupply(key, BatteryVoltage));
    CoveredRowsDecide(job, db, p, k, BatteryPart(key, BatteryCurrent), BatterySupply(key, BatteryCurrent));
    CoveredRowsDecide(job, db, p, k, BatteryPart(key, Temperature), BatterySupply(key, Temperature));
  }

  /** Energy samples and exports come from the last covered DayData row, events and consumption from theirs. */
  lemma SamplesAt(job: Job, db: Database, p: nat, k: nat, sample: SampleKey, event: EventKey, at: int)
    requires ValidJob(job) && At(job, db, p, k)
    ensures |job.rows| == COUNT
    ensures var rows, t := AllCovered(job, db, COUNT), db.tables;
            && Find(t.energy, sample) == LastOr(rows, EnergySupply(sample), None)
            && Find(t.exports, sample) == LastOr(rows, ExportSupply(job, sample), None)
            && Find(t.events, event) == LastOr(rows, EventSupply(event), None)
            && Find(t.consumption, at) == LastOr(rows, ConsumptionSupply(at), None)
  {
    EnergyFollows(job, sample);
    ExportFollows(job, sample);
    EventFollows(job, event);
    ConsumptionFollows(job, at);
    hide Follows, At, ValidRows, LastOr, AllCovered;
    CoveredRowsDecide(job, db, p, k, EnergyPart(sample), EnergySupply(sample));
    CoveredRowsDecide(job, db, p, k, ExportPart(sample), ExportSupply(job, sample));
    CoveredRowsDecide(job, db, p, k, EventPart(event), EventSupply(event));
    CoveredRowsDecide(job, db, p, k, ConsumptionPart(at), ConsumptionSupply(at));
  }

  /** Until the rebuild, a daily yield comes from the last covered MonthData row of its date. */
  lemma YieldsAt(job: Job, db: Database, p: nat, k: nat, d: DayKey)
    requires ValidJob(job) && At(job, db, p, k) && p < COUNT
    ensures |job.rows| == COUNT
    ensures Find(db.tables.dailyYields, d) == LastOr(AllCovered(job, db, COUNT), YieldSupply(job, d), None)
  {
    YieldFollows(job, d);
    hide Follows, At, ValidRows, LastOr, AllCovered;
    CoveredRowsDecide(job, db, p, k, YieldPart(d), YieldSupply(job, d));
  }
}
