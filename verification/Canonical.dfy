/**
 The canonical tables a migration writes, keyed by natural keys (serial, instant, tracker, date),
 the legacy source rows, and the effect one source row has on the tables.
 */
module Canonical {
  import opened Wrappers
  import opened Keyset
  import opened CheckpointKeys

  datatype SampleKey = SampleKey(serial: int, at: int)
  datatype TrackerKey = TrackerKey(sample: SampleKey, tracker: int)
  datatype DayKey = DayKey(serial: int, date: int)

  /** Text values are opaque here; only whether and which value is stored matters. */
  type Text = Option<string>

  datatype Identity = Identity(deviceName: Text, model: Text, firmware: Text)
  datatype Inverter = Inverter(identity: Identity, firstSeen: Cell, lastSeen: Cell)

  /** The columns an `Inverters` row can supply on its own. */
  datatype Latest = Latest(acPower1: Cell, energyToday: Cell, energyTotal: Cell, operatingTime: Cell,
                           feedInTime: Cell, deviceStatus: Cell, gridRelay: Cell, temperature: Cell)

  datatype Spot = Spot(latest: Latest, acPower2: Cell, acPower3: Cell,
                       acCurrent1: Cell, acCurrent2: Cell, acCurrent3: Cell,
                       acVoltage1: Cell, acVoltage2: Cell, acVoltage3: Cell,
                       gridFrequency: Cell, bluetoothSignal: Cell)

  datatype Measurement = Measurement(spot: Spot, gridImport: Cell, gridExport: Cell)

  datatype Mppt = Mppt(power: Cell, current: Cell, voltage: Cell)
  datatype Battery = Battery(stateOfCharge: Cell, voltage: Cell, current: Cell, temperature: Cell)
  datatype Energy = Energy(total: Cell, power: Cell)
  datatype Rollup = Rollup(total: Cell, daily: Cell)

  /** A stored yield; `complete` says that its date was over when it was stored. */
  datatype DailyYield = DailyYield(total: Cell, daily: Cell, complete: bool)
  datatype Event = Event(at: int, code: Cell, texts: seq<Text>)
  datatype EventKey = EventKey(serial: int, entry: int)
  datatype Export = Export(exportedAt: Cell, attempts: int)

  datatype Tables = Tables(
    staged: set<int>,
    inverters: map<int, Inverter>,
    measurements: map<SampleKey, Measurement>,
    mppts: map<TrackerKey, Mppt>,
    batteries: map<SampleKey, Battery>,
    energy: map<SampleKey, Energy>,
    dailyYields: map<DayKey, DailyYield>,
    events: map<EventKey, Event>,
    consumption: map<int, Energy>,
    exports: map<SampleKey, Export>)

  const NO_TABLES := Tables({}, map[], map[], map[], map[], map[], map[], map[], map[], map[])

  const NO_LATEST := Latest(None, None, None, None, None, None, None, None)
  const NO_SPOT := Spot(NO_LATEST, None, None, None, None, None, None, None, None, None, None)
  const NO_MEASUREMENT := Measurement(NO_SPOT, None, None)
  const NO_MPPT := Mppt(None, None, None)
  const NO_BATTERY := Battery(None, None, None, None)

  // ---------------------------------------------------------------- source rows

  /**
   One legacy row. A payload of `None` stands for a row one of whose columns cannot be
   converted to its canonical type or violates a column constraint of its target table.
   */
  datatype Row =
    | ConfigRow(rowid: int)
    | InverterRow(rowid: int, serial: int, identity: Identity, at: Cell, hasLatest: bool, latest: Option<Latest>)
    | SpotRow(rowid: int, serial: int, measuredAt: int, spot: Option<Spot>, tracker1: Mppt, tracker2: Mppt)
    | SpotXRow(measuredAt: int, serial: int, lri: int, value: Cell)
    | DayRow(rowid: int, serial: int, measuredAt: int, sample: Option<Energy>, pvoutput: Cell)
    | MonthRow(rowid: int, serial: int, measuredAt: int, rollup: Option<Rollup>)
    | EventRow(rowid: int, serial: int, measuredAt: int, entry: int, event: Option<Event>)
    | ConsumptionRow(rowid: int, measuredAt: int, used: Option<Energy>)

  datatype Category = Config | Inverters | SpotData | SpotDataX | DayData | MonthData | EventData | Consumption

  /** The order in which the categories are migrated. */
  const CATEGORIES: seq<Category> :=
    [Config, Inverters, SpotData, SpotDataX, DayData, MonthData, EventData, Consumption]

  function CategoryOf(row: Row): Category {
    match row
    case ConfigRow(_) => Config
    case InverterRow(_, _, _, _, _, _) => Inverters
    case SpotRow(_, _, _, _, _, _) => SpotData
    case SpotXRow(_, _, _, _) => SpotDataX
    case DayRow(_, _, _, _, _) => DayData
    case MonthRow(_, _, _, _) => MonthData
    case EventRow(_, _, _, _, _) => EventData
    case ConsumptionRow(_, _, _) => Consumption
  }

  function KeyOf(row: Row): Key {
    match row
    case SpotXRow(at, serial, lri, _) => Key(at, serial, lri)
    case _ => Key(row.rowid, 0, 0)
  }

  /**
   The options of one migration session: its timezone, the local date of an instant there, and
   whether the legacy PVOutput flags are exported.
   */
  datatype Options = Options(timezone: int, dateOf: int -> int, legacyPvOutput: bool)

  /** A source database: one table of rows per category. */
  datatype Source = Source(fingerprint: int, rows: seq<seq<Row>>)

  /**
   A source database with the options under which each of its rows is migrated, and the local date
   on which the session that migrates it started.
   */
  datatype Job = Job(fingerprint: int, rows: seq<seq<Row>>, options: Row -> Options, today: Row -> int)

  /** A source all of whose rows are migrated under the same options by sessions of the same day. */
  function JobOf(s: Source, o: Options, today: int): Job { Job(s.fingerprint, s.rows, _ => o, _ => today) }

  ghost predicate ValidRows(rows: seq<seq<Row>>) {
    && |rows| == |CATEGORIES|
    && (forall c, i | 0 <= c < |CATEGORIES| && 0 <= i < |rows[c]| ::
          var row := rows[c][i];
          CategoryOf(row) == CATEGORIES[c] && IsI64(KeyOf(row).a) && IsI64(KeyOf(row).b) && IsI64(KeyOf(row).c))
    && (forall c | 0 <= c < |CATEGORIES| :: Ascending(rows[c], KeyOf))
  }

  ghost predicate ValidJob(job: Job) { ValidRows(job.rows) }

  function SpotTable(job: Job): seq<Row> { if |job.rows| == 8 then job.rows[2] else [] }

  function SpotTimestampExists(rows: seq<Row>, serial: int, at: int): bool {
    rows != [] && ((rows[0].SpotRow? && rows[0].serial == serial && rows[0].measuredAt == at)
                   || SpotTimestampExists(rows[1..], serial, at))
  }

  /** The instant a row says its inverter was seen. */
  function SeenAt(row: Row, serial: int): Cell {
    match row
    case InverterRow(_, s, _, at, _, _) => if s == serial then at else None
    case SpotRow(_, s, at, _, _, _) => if s == serial then Some(at) else None
    case SpotXRow(at, s, _, _) => if s == serial then Some(at) else None
    case DayRow(_, s, at, _, _) => if s == serial then Some(at) else None
    case MonthRow(_, s, at, _) => if s == serial then Some(at) else None
    case EventRow(_, s, at, _, _) => if s == serial then Some(at) else None
    case _ => None
  }

  function Least(x: Cell, y: Cell): Cell {
    if x.None? then y else if y.None? then x else if y.value < x.value then y else x
  }

  function Greatest(x: Cell, y: Cell): Cell {
    if x.None? then y else if y.None? then x else if y.value > x.value then y else x
  }

  function SeenRange(rows: seq<Row>, serial: int): (Cell, Cell) {
    if rows == [] then (None, None)
    else
      var rest, here := SeenRange(rows[1..], serial), SeenAt(rows[0], serial);
      (Least(here, rest.0), Greatest(here, rest.1))
  }

  function AllRows(tables: seq<seq<Row>>): seq<Row> {
    if tables == [] then [] else tables[0] + AllRows(tables[1..])
  }

  // ---------------------------------------------------------------- SpotDataX cells

  datatype MpptColumn = Power | Current | Voltage
  datatype BatteryColumn = StateOfCharge | BatteryVoltage | BatteryCurrent | Temperature

  /** What one SpotDataX row asks to store. */
  datatype XCell =
    | Unrecognized
    | Invalid
    | MpptCell(tracker: TrackerKey, column: MpptColumn, value: Cell)
    | BatteryCell(sample: SampleKey, part: BatteryColumn, value: Cell)
    | GridCell(sample: SampleKey, isImport: bool, value: Cell)

  const DC_MS_WATT := 0x0025_1E00
  const DC_MS_VOL := 0x0045_1F00
  const DC_MS_AMP := 0x0045_2100
  const BAT_CHA_STT := 0x0029_5A00
  const BAT_VOL := 0x0049_5C00
  const BAT_AMP := 0x0049_5D00
  const BAT_TMP_VAL := 0x0049_5B00
  const METERING_GRID_MS_TOT_W_OUT := 0x0046_3600
  const METERING_GRID_MS_TOT_W_IN := 0x0046_3700

  /** `key & 0x00ffff00`: the second and third byte of a 32-bit key. */
  function LriOf(key: int): int { key / 0x100 % 0x1_0000 * 0x100 }

  function TrackerOf(key: int): int { key % 0x100 }

  function ScaleI32(value: Cell, scale: int): Option<Cell> {
    if value.None? then Some(None)
    else if -0x8000_0000 <= value.value * scale <= 0x7fff_ffff then Some(Some(value.value * scale))
    else None
  }

  function MpptOf(key: TrackerKey, column: MpptColumn, scaled: Option<Cell>): XCell {
    if key.tracker == 0 || scaled.None? then Invalid else MpptCell(key, column, scaled.value)
  }

  function BatteryOf(key: SampleKey, part: BatteryColumn, scaled: Option<Cell>): XCell {
    if scaled.None? then Invalid else BatteryCell(key, part, scaled.value)
  }

  function GridOf(key: SampleKey, isImport: bool, scaled: Option<Cell>): XCell {
    if scaled.None? then Invalid else GridCell(key, isImport, scaled.value)
  }

  function DecodeX(row: Row): XCell
    requires row.SpotXRow?
  {
    if !(0 <= row.lri <= 0xffff_ffff) then Invalid
    else
      var lri := LriOf(row.lri);
      var sample := SampleKey(row.serial, row.measuredAt);
      var tracker := TrackerKey(sample, TrackerOf(row.lri));
      if lri == DC_MS_WATT then MpptOf(tracker, Power, ScaleI32(row.value, 1))
      else if lri == DC_MS_VOL then MpptOf(tracker, Voltage, ScaleI32(row.value, 10))
      else if lri == DC_MS_AMP then MpptOf(tracker, Current, ScaleI32(row.value, 1))
      else if lri == BAT_CHA_STT then BatteryOf(sample, StateOfCharge, ScaleI32(row.value, 10))
      else if lri == BAT_VOL then BatteryOf(sample, BatteryVoltage, ScaleI32(row.value, 10))
      else if lri == BAT_AMP then BatteryOf(sample, BatteryCurrent, ScaleI32(row.value, 1))
      else if lri == BAT_TMP_VAL then BatteryOf(sample, Temperature, ScaleI32(row.value, 100))
      else if lri == METERING_GRID_MS_TOT_W_OUT then GridOf(sample, false, ScaleI32(row.value, 1))
      else if lri == METERING_GRID_MS_TOT_W_IN then GridOf(sample, true, ScaleI32(row.value, 1))
      else Unrecognized
  }

  // ---------------------------------------------------------------- table updates

  function SetMppt(m: Mppt, column: MpptColumn, value: Cell): Mppt {
    match column
    case Power => m.(power := value)
    case Current => m.(current := value)
    case Voltage => m.(voltage := value)
  }

  function SetBattery(b: Battery, part: BatteryColumn, value: Cell): Battery {
    match part
    case StateOfCharge => b.(stateOfCharge := value)
    case BatteryVoltage => b.(voltage := value)
    case BatteryCurrent => b.(current := value)
    case Temperature => b.(temperature := value)
  }

  function SetGrid(m: Measurement, isImport: bool, value: Cell): Measurement {
    if isImport then m.(gridImport := value) else m.(gridExport := value)
  }

  function Lookup<K, V>(m: map<K, V>, k: K, default: V): V { if k in m then m[k] else default }

  function EnsureMeasurement(m: map<SampleKey, Measurement>, k: SampleKey): map<SampleKey, Measurement> {
    if k in m then m else m[k := NO_MEASUREMENT]
  }

  function PutMppt(m: map<TrackerKey, Mppt>, k: TrackerKey, column: MpptColumn, value: Cell): map<TrackerKey, Mppt> {
    m[k := SetMppt(Lookup(m, k, NO_MPPT), column, value)]
  }

  function PutBattery(m: map<SampleKey, Battery>, k: SampleKey, part: BatteryColumn, value: Cell)
    : map<SampleKey, Battery>
  {
    m[k := SetBattery(Lookup(m, k, NO_BATTERY), part, value)]
  }

  function PutGrid(m: map<SampleKey, Measurement>, k: SampleKey, isImport: bool, value: Cell)
    : map<SampleKey, Measurement>
  {
    m[k := SetGrid(Lookup(m, k, NO_MEASUREMENT), isImport, value)]
  }

  /** A recognized cell makes sure its measurement exists and stores one column. */
  function MeasurementsX(m: map<SampleKey, Measurement>, cell: XCell): map<SampleKey, Measurement> {
    match cell
    case MpptCell(k, _, _) => EnsureMeasurement(m, k.sample)
    case BatteryCell(k, _, _) => EnsureMeasurement(m, k)
    case GridCell(k, isImport, value) => PutGrid(EnsureMeasurement(m, k), k, isImport, value)
    case _ => m
  }

  function MpptsX(m: map<TrackerKey, Mppt>, cell: XCell): map<TrackerKey, Mppt> {
    match cell
    case MpptCell(k, column, value) => PutMppt(m, k, column, value)
    case _ => m
  }

  function BatteriesX(m: map<SampleKey, Battery>, cell: XCell): map<SampleKey, Battery> {
    match cell
    case BatteryCell(k, part, value) => PutBattery(m, k, part, value)
    case _ => m
  }

  function ApplyX(t: Tables, cell: XCell): Tables {
    t.(measurements := MeasurementsX(t.measurements, cell), mppts := MpptsX(t.mppts, cell),
       batteries := BatteriesX(t.batteries, cell))
  }

  function UpsertSpot(m: map<SampleKey, Measurement>, k: SampleKey, spot: Spot): map<SampleKey, Measurement> {
    m[k := Lookup(m, k, NO_MEASUREMENT).(spot := spot)]
  }

  function UpsertLatest(m: map<SampleKey, Measurement>, k: SampleKey, latest: Latest): map<SampleKey, Measurement> {
    var prior := Lookup(m, k, NO_MEASUREMENT);
    m[k := prior.(spot := prior.spot.(latest := latest))]
  }

  /** A fixed tracker writes all three columns, and only when one of them has a value. */
  function UpsertFixedMppt(m: map<TrackerKey, Mppt>, k: TrackerKey, fixed: Mppt): map<TrackerKey, Mppt> {
    if fixed == NO_MPPT then m else m[k := fixed]
  }

  // ---------------------------------------------------------------- effect of one row

  predicate WritesLatest(job: Job, row: Row)
    requires row.InverterRow?
  {
    row.at.Some? && row.hasLatest && !SpotTimestampExists(SpotTable(job), row.serial, row.at.value)
  }

  function ExportOf(at: int, flag: int): Export {
    if flag == 0 then Export(None, 0) else Export(Some(at), 1)
  }

  /** The date a MonthData row is stored under. */
  function MonthKey(job: Job, row: Row): DayKey
    requires row.MonthRow?
  {
    DayKey(row.serial, job.options(row).dateOf(row.measuredAt))
  }

  function MonthYield(job: Job, row: Row): DailyYield
    requires row.MonthRow? && row.rollup.Some?
  {
    DailyYield(row.rollup.value.total, row.rollup.value.daily, MonthKey(job, row).date < job.today(row))
  }

  /** What migrating `row` does to the tables, when it succeeds. */
  function Effect(job: Job, row: Row, t: Tables): Tables {
    match row
    case ConfigRow(rowid) => t.(staged := t.staged + {rowid})
    case InverterRow(_, serial, identity, at, _, latest) =>
      var seen := SeenRange(AllRows(job.rows), serial);
      t.(inverters := t.inverters[serial := Inverter(identity, seen.0, seen.1)],
         measurements := if WritesLatest(job, row) && latest.Some?
                         then UpsertLatest(t.measurements, SampleKey(serial, at.value), latest.value)
                         else t.measurements)
    case SpotRow(_, serial, at, spot, tracker1, tracker2) =>
      var k := SampleKey(serial, at);
      if spot.None? then t
      else
        var mppts1 := UpsertFixedMppt(t.mppts, TrackerKey(k, 1), tracker1);
        t.(measurements := UpsertSpot(t.measurements, k, spot.value),
           mppts := UpsertFixedMppt(mppts1, TrackerKey(k, 2), tracker2))
    case SpotXRow(_, _, _, _) => ApplyX(t, DecodeX(row))
    case DayRow(_, serial, at, sample, pvoutput) =>
      var k := SampleKey(serial, at);
      if sample.None? then t
      else
        t.(energy := t.energy[k := sample.value],
           exports := if job.options(row).legacyPvOutput && pvoutput.Some? then t.exports[k := ExportOf(at, pvoutput.value)]
                      else t.exports)
    case MonthRow(_, _, _, rollup) =>
      if rollup.None? then t
      else t.(dailyYields := t.dailyYields[MonthKey(job, row) := MonthYield(job, row)])
    case EventRow(_, serial, at, entry, event) =>
      if event.None? then t else t.(events := t.events[EventKey(serial, entry) := event.value.(at := at)])
    case ConsumptionRow(_, at, used) =>
      if used.None? then t else t.(consumption := t.consumption[at := used.value])
  }

  const MAX_SERIAL := 0xffff_ffff

  predicate ValidCharge(value: Cell) { value.None? || 0 <= value.value <= 1000 }

  /** A stored state of charge must lie within 0..1000 permille. */
  predicate ChargeOk(cell: XCell) {
    cell.BatteryCell? && cell.part.StateOfCharge? ==> ValidCharge(cell.value)
  }

  predicate DecodesX(row: Row, inverters: set<int>)
    requires row.SpotXRow?
  {
    !DecodeX(row).Invalid? && (!DecodeX(row).Unrecognized? ==> row.serial in inverters)
  }

  /** Whether migrating `row` on its own succeeds, given the inverters already known. */
  predicate RowOk(job: Job, row: Row, inverters: set<int>) {
    match row
    case ConfigRow(_) => true
    case InverterRow(_, serial, _, _, _, latest) =>
      0 <= serial <= MAX_SERIAL && (WritesLatest(job, row) ==> latest.Some?)
    case SpotRow(_, serial, _, spot, _, _) => serial in inverters && spot.Some?
    case SpotXRow(_, _, _, _) => DecodesX(row, inverters) && ChargeOk(DecodeX(row))
    case DayRow(_, serial, _, sample, pvoutput) =>
      && serial in inverters && sample.Some?
      && (job.options(row).legacyPvOutput && pvoutput.Some? ==> pvoutput.value == 0 || pvoutput.value == 1)
    case MonthRow(_, serial, _, rollup) => serial in inverters && rollup.Some?
    case EventRow(_, serial, _, _, event) => serial in inverters && event.Some?
    case ConsumptionRow(_, _, used) => used.Some?
  }

  /** Migrating rows one at a time, in order. */
  function Effects(job: Job, rows: seq<Row>, t: Tables): Tables {
    if rows == [] then t
    else Effect(job, rows[|rows| - 1], Effects(job, rows[..|rows| - 1], t))
  }

  lemma {:induction false} EffectsSplit(job: Job, a: seq<Row>, b: seq<Row>, t: Tables)
    ensures Effects(job, a + b, t) == Effects(job, b, Effects(job, a, t))
  {
    if b == [] {
      assert a + b == a;
    } else {
      assert (a + b)[..|a + b| - 1] == a + b[..|b| - 1];
      EffectsSplit(job, a, b[..|b| - 1], t);
    }
  }

  /** Both jobs migrate these rows of the same source under the same options and on the same day. */
  ghost predicate SameOptions(a: Job, b: Job, rows: seq<Row>) {
    a.rows == b.rows &&
    forall i | 0 <= i < |rows| :: a.options(rows[i]) == b.options(rows[i]) && a.today(rows[i]) == b.today(rows[i])
  }

  lemma {:induction false} SameOptionsSameEffects(a: Job, b: Job, rows: seq<Row>, t: Tables)
    requires SameOptions(a, b, rows)
    ensures Effects(a, rows, t) == Effects(b, rows, t)
  {
    if rows != [] {
      SameOptionsSameEffects(a, b, rows[..|rows| - 1], t);
      SameOptionsSameEffect(a, b, rows[|rows| - 1], Effects(a, rows[..|rows| - 1], t));
      hide Effect;
    }
  }

  lemma SameOptionsSameEffect(a: Job, b: Job, row: Row, t: Tables)
    requires a.rows == b.rows && a.options(row) == b.options(row) && a.today(row) == b.today(row)
    ensures Effect(a, row, t) == Effect(b, row, t)
  {}

  lemma SameOptionsSameRows(a: Job, b: Job, row: Row, inverters: set<int>)
    requires a.rows == b.rows && a.options(row) == b.options(row)
    ensures RowOk(a, row, inverters) == RowOk(b, row, inverters)
  {}
}
