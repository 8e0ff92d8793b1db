/**
 The references between the canonical tables: whatever has been migrated, every stored row belongs
 to a stored inverter, and trackers and batteries to a stored measurement.
 */
module References {
  import opened Wrappers
  import opened Keyset
  import opened Canonical
  import opened MigrationRun
  import opened DailyYieldRebuild
  import opened RebuiltYields
  import opened Contents

  ghost predicate SampleReferencesHold(t: Tables) {
    && (forall k | k in t.measurements :: k.serial in t.inverters)
    && (forall k | k in t.mppts :: k.sample in t.measurements && 1 <= k.tracker <= 255)
    && (forall k | k in t.batteries :: k in t.measurements)
  }

  ghost predicate ArchiveReferencesHold(t: Tables) {
    && (forall k | k in t.energy :: k.serial in t.inverters)
    && (forall k | k in t.exports :: k in t.energy)
    && (forall k | k in t.events :: k.serial in t.inverters)
  }

  ghost predicate YieldReferencesHold(t: Tables) { forall d | d in t.dailyYields :: d.serial in t.inverters }

  ghost predicate ReferencesHold(t: Tables) {
    SampleReferencesHold(t) && ArchiveReferencesHold(t) && YieldReferencesHold(t)
  }

  /** No row removes an inverter. */
  lemma InvertersStay(job: Job, row: Row, t: Tables)
    ensures t.inverters.Keys <= Effect(job, row, t).inverters.Keys
  {
    KindEffect(job, row, t);
    if row.InverterRow? { InverterEffect(job, row, t); }
    hide Effect, FirstSeen, LastSeen;
  }

  lemma CellKeepsReferences(t: Tables, cell: XCell, k: SampleKey)
    requires SampleReferencesHold(t)
    requires cell.MpptCell? ==> cell.tracker.sample == k && 1 <= cell.tracker.tracker <= 255
    requires (cell.BatteryCell? ==> cell.sample == k) && (cell.GridCell? ==> cell.sample == k)
    requires cell.MpptCell? || cell.BatteryCell? || cell.GridCell? ==> k.serial in t.inverters
    ensures SampleReferencesHold(ApplyX(t, cell))
  {}

  lemma DecodedTracker(row: Row)
    requires row.SpotXRow? && DecodeX(row).MpptCell?
    ensures 1 <= DecodeX(row).tracker.tracker <= 255
  {}

  lemma SamplesKeepReferences(job: Job, row: Row, t: Tables)
    requires SampleReferencesHold(t) && Committable(job, row, t.inverters.Keys)
    ensures SampleReferencesHold(Effect(job, row, t))
  {
    hide Effect, DecodeX, FirstSeen, LastSeen;
    if row.SpotXRow? {
      XEffect(job, row, t);
      DecodedSample(row);
      if DecodeX(row).MpptCell? { DecodedTracker(row); }
      CellKeepsReferences(t, DecodeX(row), SampleKey(row.serial, row.measuredAt));
    } else if row.InverterRow? {
      InverterEffect(job, row, t);
      KindEffect(job, row, t);
    } else if row.SpotRow? {
      SpotEffect(job, row, t);
    } else {
      OtherEffect(job, row, t);
    }
  }

  lemma ArchivesKeepReferences(job: Job, row: Row, t: Tables)
    requires ArchiveReferencesHold(t) && YieldReferencesHold(t) && Committable(job, row, t.inverters.Keys)
    ensures ArchiveReferencesHold(Effect(job, row, t)) && YieldReferencesHold(Effect(job, row, t))
  {
    hide Effect, DecodeX, WritesLatest;
    InvertersStay(job, row, t);
    OwnTableOnly(job, row, t);
    if row.DayRow? { DayEffect(job, row, t); }
    if row.MonthRow? { MonthEffect(job, row, t); }
    if row.EventRow? { EventEffect(job, row, t); }
  }

  lemma MoreInverters(job: Job, row: Row, some: set<int>, more: set<int>)
    requires Committable(job, row, some) && some <= more
    ensures Committable(job, row, more)
  {
    hide DecodeX, WritesLatest;
  }

  lemma {:induction false} RowsKeepReferences(job: Job, rows: seq<Row>, t: Tables)
    requires ReferencesHold(t) && AllCommittable(job, rows, t.inverters.Keys)
    ensures ReferencesHold(Effects(job, rows, t)) && t.inverters.Keys <= Effects(job, rows, t).inverters.Keys
  {
    if rows != [] {
      var front, last := rows[..|rows| - 1], rows[|rows| - 1];
      hide SampleReferencesHold, ArchiveReferencesHold, YieldReferencesHold, Committable, Effect;
      assert forall i | 0 <= i < |front| :: front[i] == rows[i];
      RowsKeepReferences(job, front, t);
      var u := Effects(job, front, t);
      assert Committable(job, rows[|rows| - 1], t.inverters.Keys);
      MoreInverters(job, last, t.inverters.Keys, u.inverters.Keys);
      SamplesKeepReferences(job, last, u);
      ArchivesKeepReferences(job, last, u);
      InvertersStay(job, last, u);
    }
  }

  lemma NothingRefers(job: Job)
    requires |job.rows| == COUNT
    ensures ReferencesHold(TablesBefore(job, 0))
  {}

  lemma CompletedRows(job: Job, db: Database, p: nat, k: nat, c: nat)
    requires |job.rows| == COUNT && At(job, db, p, k) && c < p
    ensures c < COUNT && AllCommittable(job, Todo(job, c), TablesBefore(job, c).inverters.Keys)
    ensures TablesBefore(job, c + 1) == Effects(job, Todo(job, c), TablesBefore(job, c))
  {
    assert CategoryAt(job, db, p, k, c);
    assert Todo(job, c)[..|Todo(job, c)|] == Todo(job, c);
    hide AllCommittable, Todo, Effects, CheckpointIs;
  }

  lemma {:induction false} ReferencesBefore(job: Job, db: Database, p: nat, k: nat, c: nat)
    requires |job.rows| == COUNT && At(job, db, p, k) && c <= p <= COUNT
    ensures ReferencesHold(TablesBefore(job, c))
    decreases c
  {
    hide *;
    if c == 0 {
      NothingRefers(job);
    } else {
      ReferencesBefore(job, db, p, k, c - 1);
      CompletedRows(job, db, p, k, c - 1);
      RowsKeepReferences(job, Todo(job, c - 1), TablesBefore(job, c - 1));
    }
  }

  /** At every position of every run the references hold, those of the daily yields as long as no rebuild has written them. */
  lemma ReferencesAt(job: Job, db: Database, p: nat, k: nat)
    requires ValidJob(job) && At(job, db, p, k)
    ensures SampleReferencesHold(db.tables) && ArchiveReferencesHold(db.tables)
    ensures p < COUNT ==> YieldReferencesHold(db.tables)
  {
    AtPosition(job, db, p, k);
    ReferencesBefore(job, db, p, k, p);
    if p < COUNT {
      assert CategoryAt(job, db, p, k, p);
      hide AllCommittable, Todo, Effects, CheckpointIs, At, SampleReferencesHold, ArchiveReferencesHold, YieldReferencesHold;
      RowsKeepReferences(job, Todo(job, p)[..k], TablesBefore(job, p));
    } else {
      hide AllCommittable, Todo, Effects, CheckpointIs, At, TablesBefore;
    }
  }

  /** Reconstructed yields belong to sampled inverters, so a rebuild keeps the references. */
  lemma RebuildKeepsReferences(before: Tables, after: Tables, dateOf: int -> int, today: int, copied: set<DayKey>)
    requires ReferencesHold(before)
    requires StoresSome(before, after, ReconstructedYields(dateOf, today, before.energy, copied))
    ensures ReferencesHold(after)
  {
    var y := ReconstructedYields(dateOf, today, before.energy, copied);
    RebuiltKeys(dateOf, today, before.energy, copied);
    forall d | d in y
      ensures d.serial in before.inverters
    {
      ReconstructedIsSampled(dateOf, before.energy, copied, d);
    }
    hide ReconstructedYields, ReconstructedDates, YieldReferencesHold, SampleReferencesHold, ArchiveReferencesHold;
    OtherTablesKeepReferences(before, after);
    StoredYieldsRefer(before, after, y);
  }

  lemma OtherTablesKeepReferences(before: Tables, after: Tables)
    requires SampleReferencesHold(before) && ArchiveReferencesHold(before) && SameButYields(after, before)
    ensures SampleReferencesHold(after) && ArchiveReferencesHold(after)
  {}

  lemma StoredYieldsRefer(before: Tables, after: Tables, y: map<DayKey, DailyYield>)
    requires YieldReferencesHold(before) && StoresSome(before, after, y) && forall d | d in y :: d.serial in before.inverters
    ensures YieldReferencesHold(after)
  {
    forall d | d in after.dailyYields
      ensures d.serial in after.inverters
    {
      assert Find(after.dailyYields, d).Some?;
    }
  }

  lemma ReconstructedIsSampled(dateOf: int -> int, energy: map<SampleKey, Energy>, copied: set<DayKey>, d: DayKey)
    requires d in ReconstructedDates(dateOf, energy, copied)
    ensures exists k :: k in energy && k.serial == d.serial
  {
    var s := TheScan(energy);
    var i :| 0 <= i < |s| && DayKey(s[i].serial, dateOf(s[i].at)) == d;
    assert SampleKey(s[i].serial, s[i].at) in energy;
    hide OutcomeOf;
  }
}
