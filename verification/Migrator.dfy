/**
 The resumable migrator: a target database with a committed and a working state, batches whose
 writes and checkpoint advance commit together, and sessions that may fail, crash and be resumed
 with another batch size.
 */
module Migrator {
  import opened Wrappers
  import opened Keyset
  import opened CheckpointKeys
  import opened Canonical
  import opened SpotDataX
  import opened MigrationRun
  import opened DailyYieldRebuild
  import opened RebuiltYields

  /** What a batch needs of the tables before it to commit. */
  predicate CanStore(job: Job, p: nat, rows: seq<Row>, inverters: set<int>)
    requires p < COUNT && AllOf(rows, CATEGORIES[p])
  {
    if CATEGORIES[p].SpotDataX? then BatchSucceeds(rows, inverters) else RowsSucceed(job, rows, inverters)
  }

  lemma RowKeepsInverters(job: Job, row: Row, t: Tables)
    requires !row.InverterRow?
    ensures Effect(job, row, t).inverters == t.inverters
  {
  }

  /** Reads a batch's rows into its groups; fails at the first invalid row. */
  method GroupBatch(rows: seq<Row>) returns (ok: bool, groups: Groups)
    requires AllX(rows)
    ensures ok <==> NoneInvalid(rows)
    ensures ok ==> groups == GroupRows(rows)
  {
    groups := NO_GROUPS;
    for i := 0 to |rows|
      invariant NoneInvalid(rows[..i]) && groups == GroupRows(rows[..i])
    {
      var cell := DecodeX(rows[i]);
      if cell.Invalid? { return false, groups; }
      assert rows[..i + 1][..i] == rows[..i];
      groups := AddCell(groups, cell);
    }
    assert rows[..|rows|] == rows;
    ok := true;
  }

  lemma GroupsAreStorable(g: Groups, inverters: set<int>)
    ensures ParentsKnown(g, inverters) && ChargesStorable(g) <==>
            && (forall k | k in g.mppts :: k.sample.serial in inverters)
            && (forall k | k in g.batteries ::
                  && k.serial in inverters
                  && (g.batteries[k].stateOfCharge.Some? ==> ValidCharge(g.batteries[k].stateOfCharge.value)))
            && (forall k | k in g.grid :: k.serial in inverters)
  {
    forall k | k in g.mppts
      ensures k.sample in Parents(g)
    {
    }
  }

  class WritableTarget {
    var committed: Database
    var working: Database
    var inTransaction: bool

    ghost predicate Idle()
      reads this
    {
      !inTransaction && working == committed
    }

    constructor ()
      ensures Idle() && committed == NO_DATABASE
    {
      committed, working, inTransaction := NO_DATABASE, NO_DATABASE, false;
    }

    method Begin()
      requires Idle()
      modifies this`inTransaction
      ensures inTransaction
    {
      inTransaction := true;
    }

    method Commit()
      modifies this
      ensures Idle() && committed == old(working)
    {
      committed, inTransaction := working, false;
    }

    /** Rolling back, like a new connection after a crash, leaves the committed state only. */
    method Rollback()
      modifies this
      ensures Idle() && committed == old(committed)
    {
      working, inTransaction := committed, false;
    }

    /** A statement outside a transaction commits at once. */
    method Execute(db: Database)
      requires Idle()
      modifies this
      ensures Idle() && committed == db
    {
      working, committed := db, db;
    }

    // -------------------------------------------------------------- SpotDataX batches

    /** Writes one MPPT group column by column under its measurement. */
    method UpsertMpptGroup(k: TrackerKey, patch: MpptPatch)
      requires patch != NO_MPPT_PATCH
      modifies this`working
      ensures working == old(working).(tables := WriteMppt(old(working).tables, k, patch))
    {
      var m := working.tables.mppts;
      if patch.power.Some? { m := PutMppt(m, k, Power, patch.power.value); }
      if patch.current.Some? { m := PutMppt(m, k, Current, patch.current.value); }
      if patch.voltage.Some? { m := PutMppt(m, k, Voltage, patch.voltage.value); }
      assert m == working.tables.mppts[k := PatchMppt(Lookup(working.tables.mppts, k, NO_MPPT), patch)];
      working := working.(tables := working.tables.(
        measurements := EnsureMeasurement(working.tables.measurements, k.sample), mppts := m));
    }

    /** Writes one battery group; an out-of-range state of charge violates the column's check. */
    method UpsertBatteryGroup(k: SampleKey, patch: BatteryPatch) returns (ok: bool)
      requires patch != NO_BATTERY_PATCH
      modifies this`working
      ensures ok <==> (patch.stateOfCharge.Some? ==> ValidCharge(patch.stateOfCharge.value))
      ensures ok ==> working == old(working).(tables := WriteBattery(old(working).tables, k, patch))
      ensures !ok ==> working == old(working)
    {
      if patch.stateOfCharge.Some? && !ValidCharge(patch.stateOfCharge.value) { return false; }
      var m := working.tables.batteries;
      if patch.stateOfCharge.Some? { m := PutBattery(m, k, StateOfCharge, patch.stateOfCharge.value); }
      if patch.voltage.Some? { m := PutBattery(m, k, BatteryVoltage, patch.voltage.value); }
      if patch.current.Some? { m := PutBattery(m, k, BatteryCurrent, patch.current.value); }
      if patch.temperature.Some? { m := PutBattery(m, k, Temperature, patch.temperature.value); }
      assert m == working.tables.batteries[k := PatchBattery(Lookup(working.tables.batteries, k, NO_BATTERY), patch)];
      working := working.(tables := working.tables.(
        measurements := EnsureMeasurement(working.tables.measurements, k), batteries := m));
      ok := true;
    }

    method UpdateGridGroup(k: SampleKey, patch: GridPatch)
      modifies this`working
      ensures working == old(working).(tables := WriteGrid(old(working).tables, k, patch))
    {
      var m := EnsureMeasurement(working.tables.measurements, k);
      var ensured := m;
      if patch.imported.Some? { m := PutGrid(m, k, true, patch.imported.value); }
      if patch.exported.Some? { m := PutGrid(m, k, false, patch.exported.value); }
      assert m == ensured[k := PatchGrid(ensured[k], patch)];
      working := working.(tables := working.tables.(measurements := m));
    }

    method StoreMppts(groups: map<TrackerKey, MpptPatch>) returns (ok: bool)
      requires forall k | k in groups :: groups[k] != NO_MPPT_PATCH
      modifies this`working
      ensures ok <==> forall k | k in groups :: k.sample.serial in old(working).tables.inverters
      ensures ok ==> working == old(working).(tables := StageMppts(old(working).tables, groups))
    {
      var start := working;
      StageNothing(start.tables);
      hide OverlayMppts, OverlayMeasurements, MpptParents, WriteMppt;
      var done: map<TrackerKey, MpptPatch> := map[];
      var remaining := groups.Keys;
      while remaining != {}
        invariant remaining <= groups.Keys && done.Keys == groups.Keys - remaining
        invariant forall k | k in done :: done[k] == groups[k] && k.sample.serial in start.tables.inverters
        invariant working == start.(tables := StageMppts(start.tables, done))
        decreases remaining
      {
        var k :| k in remaining;
        if k.sample.serial !in working.tables.inverters { return false; }
        StageOneMppt(start.tables, done, k, groups[k]);
        UpsertMpptGroup(k, groups[k]);
        done, remaining := done[k := groups[k]], remaining - {k};
      }
      assert done == groups;
      ok := true;
    }

    method StoreBatteries(groups: map<SampleKey, BatteryPatch>) returns (ok: bool)
      requires forall k | k in groups :: groups[k] != NO_BATTERY_PATCH
      modifies this`working
      ensures ok <==> forall k | k in groups ::
                        && k.serial in old(working).tables.inverters
                        && (groups[k].stateOfCharge.Some? ==> ValidCharge(groups[k].stateOfCharge.value))
      ensures ok ==> working == old(working).(tables := StageBatteries(old(working).tables, groups))
    {
      var start := working;
      StageNothing(start.tables);
      hide OverlayBatteries, OverlayMeasurements, WriteBattery;
      var done: map<SampleKey, BatteryPatch> := map[];
      var remaining := groups.Keys;
      while remaining != {}
        invariant remaining <= groups.Keys && done.Keys == groups.Keys - remaining
        invariant forall k | k in done ::
                    && done[k] == groups[k] && k.serial in start.tables.inverters
                    && (groups[k].stateOfCharge.Some? ==> ValidCharge(groups[k].stateOfCharge.value))
        invariant working == start.(tables := StageBatteries(start.tables, done))
        decreases remaining
      {
        var k :| k in remaining;
        if k.serial !in working.tables.inverters { return false; }
        StageOneBattery(start.tables, done, k, groups[k]);
        var stored := UpsertBatteryGroup(k, groups[k]);
        if !stored { return false; }
        done, remaining := done[k := groups[k]], remaining - {k};
      }
      assert done == groups;
      ok := true;
    }

    method StoreGrid(groups: map<SampleKey, GridPatch>) returns (ok: bool)
      modifies this`working
      ensures ok <==> forall k | k in groups :: k.serial in old(working).tables.inverters
      ensures ok ==> working == old(working).(tables := StageGrid(old(working).tables, groups))
    {
      var start := working;
      StageNothing(start.tables);
      hide OverlayMeasurements, WriteGrid;
      var done: map<SampleKey, GridPatch> := map[];
      var remaining := groups.Keys;
      while remaining != {}
        invariant remaining <= groups.Keys && done.Keys == groups.Keys - remaining
        invariant forall k | k in done :: done[k] == groups[k] && k.serial in start.tables.inverters
        invariant working == start.(tables := StageGrid(start.tables, done))
        decreases remaining
      {
        var k :| k in remaining;
        if k.serial !in working.tables.inverters { return false; }
        StageOneGrid(start.tables, done, k, groups[k]);
        UpdateGridGroup(k, groups[k]);
        done, remaining := done[k := groups[k]], remaining - {k};
      }
      assert done == groups;
      ok := true;
    }

    /** A SpotDataX batch: group the rows, then write MPPT, battery and grid groups. */
    method MigrateSpotDataXBatch(rows: seq<Row>) returns (ok: bool)
      requires AllX(rows)
      modifies this`working
      ensures ok <==> BatchSucceeds(rows, old(working).tables.inverters.Keys)
      ensures ok ==> working == old(working).(tables := Overlay(old(working).tables, GroupRows(rows)))
    {
      var grouped, groups := GroupBatch(rows);
      if !grouped { return false; }
      ghost var known := working.tables.inverters.Keys;
      GroupsAreNotEmpty(rows);
      GroupsKnowRows(rows, known);
      GroupsAreStorable(groups, known);
      ghost var start := working.tables;
      ok := StoreMppts(groups.mppts);
      if !ok { return; }
      ok := StoreBatteries(groups.batteries);
      if !ok { return; }
      ok := StoreGrid(groups.grid);
      OverlayInStages(start, groups);
    }

    /** The rows of one batch, in key order. */
    method MigrateBatch(job: Job, p: nat, rows: seq<Row>) returns (ok: bool)
      requires p < COUNT && AllOf(rows, CATEGORIES[p])
      modifies this`working
      ensures ok <==> CanStore(job, p, rows, old(working).tables.inverters.Keys)
      ensures ok ==> working == old(working).(tables := Effects(job, rows, old(working).tables))
    {
      if CATEGORIES[p].SpotDataX? {
        GroupingRefinesRows(job, rows, working.tables);
        ok := MigrateSpotDataXBatch(rows);
        return;
      }
      ghost var start := working;
      for i := 0 to |rows|
        invariant working == start.(tables := Effects(job, rows[..i], start.tables))
        invariant !CATEGORIES[p].Inverters? ==> working.tables.inverters == start.tables.inverters
        invariant RowsSucceed(job, rows[..i], start.tables.inverters.Keys)
      {
        assert CategoryOf(rows[i]) == CATEGORIES[p];
        if !RowOk(job, rows[i], working.tables.inverters.Keys) { return false; }
        assert rows[..i + 1][..i] == rows[..i];
        if !CATEGORIES[p].Inverters? { RowKeepsInverters(job, rows[i], working.tables); }
        working := working.(tables := Effect(job, rows[i], working.tables));
      }
      assert rows[..|rows|] == rows;
      ok := true;
    }

    // -------------------------------------------------------------- checkpoints

    method AdvanceCheckpoint(c: Category, last: Key, rows: nat)
      modifies this`working
      ensures working == old(working).(checkpoints := old(working).checkpoints[c := Advanced(old(working), c, last, rows)])
    {
      var row := if c in working.checkpoints
                 then working.checkpoints[c].(lastKey := Some(EncodeKey(c, last)), completed := false,
                                              rowsProcessed := working.checkpoints[c].rowsProcessed + rows)
                 else Checkpoint(Some(EncodeKey(c, last)), rows, false);
      working := working.(checkpoints := working.checkpoints[c := row]);
    }

    method CompleteCheckpoint(c: Category)
      requires Idle()
      modifies this
      ensures Idle()
      ensures committed == old(committed).(checkpoints := old(committed).checkpoints[c := Finished(old(committed), c)])
    {
      Execute(committed.(checkpoints := committed.checkpoints[c := Finished(committed, c)]));
    }
  }
}
