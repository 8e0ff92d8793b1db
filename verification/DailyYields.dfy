/**
 Daily yields kept up to date by live storage: the recomputation of one local day, the days a
 write of energy samples recomputes, and exactly when that keeps every day coherent.
 */
module DailyYields {
  import opened Wrappers
  import opened CheckpointKeys

  /** Local days of a timezone: `start(d)` is the first instant of day `d`. */
  datatype Zone = Zone(start: int -> int, dayOf: int -> int)

  predicate Within(z: Zone, t: int, d: int) { z.start(d) <= t < z.start(d + 1) }

  ghost predicate ValidZone(z: Zone) {
    && (forall d :: z.start(d) < z.start(d + 1))
    && (forall t, d :: Within(z, t, d) <==> z.dayOf(t) == d)
  }

  datatype Sample = Sample(total: Cell, power: Cell)
  datatype Yield = Yield(total: int, daily: int)

  /** A stored row; `complete` says that the day was over when it was recomputed. */
  datatype YieldRow = YieldRow(amount: Yield, complete: bool)

  /** One inverter's energy samples by instant, and its daily yields by local day. */
  type Samples = map<int, Sample>
  type Yields = map<int, YieldRow>

  // ---------------------------------------------------------------- the latest total in a window

  predicate HasTotal(s: Samples, t: int) { t in s && s[t].total.Some? }

  /** `t` is the latest instant below `hi`, and not below `lo` when one is given, that holds a total. */
  ghost predicate IsLatest(s: Samples, lo: Cell, hi: int, t: int) {
    && HasTotal(s, t) && t < hi && (lo.Some? ==> lo.value <= t)
    && forall u | HasTotal(s, u) && u < hi && (lo.Some? ==> lo.value <= u) :: u <= t
  }

  function Window(s: Samples, lo: Cell, hi: int): set<int> {
    set t | t in s && s[t].total.Some? && t < hi && (lo.Some? ==> lo.value <= t)
  }

  lemma {:induction false} GreatestExists(w: set<int>)
    requires w != {}
    ensures exists t :: t in w && forall u | u in w :: u <= t
  {
    MemberExists(w);
    var t :| t in w;
    var rest := w - {t};
    if rest == {} {
      assert w == {t};
    } else {
      GreatestExists(rest);
      var m :| m in rest && forall u | u in rest :: u <= m;
      var g := if m < t then t else m;
      assert forall u | u in w :: u == t || u in rest;
      assert g in w && forall u | u in w :: u <= g;
    }
  }

  /** `SELECT total … WHERE window AND total IS NOT NULL ORDER BY measured_at DESC LIMIT 1`. */
  function LatestAt(s: Samples, lo: Cell, hi: int): (r: Cell)
    ensures r.Some? ==> IsLatest(s, lo, hi, r.value)
    ensures r.None? ==> forall t :: !(HasTotal(s, t) && t < hi && (lo.Some? ==> lo.value <= t))
  {
    var w := Window(s, lo, hi);
    if w == {} then
      assert forall t | HasTotal(s, t) && t < hi && (lo.Some? ==> lo.value <= t) :: t in w;
      None
    else
      GreatestExists(w);
      var t :| t in w && forall u | u in w :: u <= t;
      assert forall u | HasTotal(s, u) && u < hi && (lo.Some? ==> lo.value <= u) :: u in w;
      Some(t)
  }

  function LatestTotal(s: Samples, lo: Cell, hi: int): Cell {
    var t := LatestAt(s, lo, hi);
    if t.None? then None else s[t.value].total
  }

  // ---------------------------------------------------------------- recomputing one day

  function BaselineBefore(s: Samples, z: Zone, day: int): Cell { LatestTotal(s, None, z.start(day)) }

  function TotalOn(s: Samples, z: Zone, day: int): Cell { LatestTotal(s, Some(z.start(day)), z.start(day + 1)) }

  /** The yield a full recomputation of `day` stores; none when it deletes the row. */
  function FullYield(s: Samples, z: Zone, day: int): Option<Yield> {
    var baseline, total := BaselineBefore(s, z, day), TotalOn(s, z, day);
    if baseline.None? || total.None? then None else Some(Yield(total.value, total.value - baseline.value))
  }

  /** The latest total of the day and its difference to the latest total before it, when both exist. */
  lemma FullYieldMeans(s: Samples, z: Zone, day: int)
    ensures var y, lo, hi := FullYield(s, z, day), z.start(day), z.start(day + 1);
            && (y.Some? <==> (exists t :: HasTotal(s, t) && lo <= t < hi) && exists t :: HasTotal(s, t) && t < lo)
            && forall t, u | IsLatest(s, Some(lo), hi, t) && IsLatest(s, None, lo, u) ::
                 y == Some(Yield(s[t].total.value, s[t].total.value - s[u].total.value))
  {
    var lo, hi := z.start(day), z.start(day + 1);
    forall t, u | IsLatest(s, Some(lo), hi, t) && IsLatest(s, None, lo, u)
      ensures FullYield(s, z, day) == Some(Yield(s[t].total.value, s[t].total.value - s[u].total.value))
    {
      LatestIsUnique(s, Some(lo), hi, t);
      LatestIsUnique(s, None, lo, u);
    }
    hide IsLatest;
  }

  /** The stored yield of `day` is what a full recomputation would store. */
  predicate Coherent(s: Samples, y: Yields, z: Zone, day: int) {
    (if day in y then Some(y[day].amount) else None) == FullYield(s, z, day)
  }

  /** The stored yield of `day` is flagged complete exactly when the day is over at `now`. */
  predicate Flagged(y: Yields, z: Zone, day: int, now: int) {
    day in y ==> (y[day].complete <==> now >= z.start(day + 1))
  }

  datatype Status = Rebuilt | Incomplete | Missing

  /** Missing without a full yield, and with one rebuilt exactly when the day is over at `now`. */
  predicate IsStatus(r: Status, s: Samples, z: Zone, day: int, now: int) {
    && (r.Missing? <==> FullYield(s, z, day).None?)
    && (r.Rebuilt? <==> FullYield(s, z, day).Some? && now >= z.start(day + 1))
    && (r.Incomplete? <==> FullYield(s, z, day).Some? && now < z.start(day + 1))
  }

  // ---------------------------------------------------------------- writing samples

  datatype Reading = Reading(at: int, total: int, power: int)

  /** One upsert: a sample's total and power replace stored ones. */
  function Upsert(s: Samples, r: Reading): Samples {
    s[r.at := Sample(Some(r.total), Some(r.power))]
  }

  function UpsertAll(s: Samples, batch: seq<Reading>): Samples {
    if batch == [] then s else Upsert(UpsertAll(s, batch[..|batch| - 1]), batch[|batch| - 1])
  }

  function DaysOf(batch: seq<Reading>, z: Zone): set<int> { set i | 0 <= i < |batch| :: z.dayOf(batch[i].at) }

  /** The days a write recomputes: each written day, the day after it, and yesterday. */
  function Affected(batch: seq<Reading>, z: Zone, now: int): set<int> {
    var days := DaysOf(batch, z);
    days + (set d | d in days :: d + 1) + {z.dayOf(now) - 1}
  }

  predicate IsWritten(batch: seq<Reading>, z: Zone, d: int) { exists i :: 0 <= i < |batch| && z.dayOf(batch[i].at) == d }

  /** These are the days of the readings, each with the day after it, and the day before the current one. */
  lemma AffectedDays(batch: seq<Reading>, z: Zone, now: int, d: int)
    ensures d in Affected(batch, z, now) <==>
            d == z.dayOf(now) - 1 || IsWritten(batch, z, d) || IsWritten(batch, z, d - 1)
  {
    var days := DaysOf(batch, z);
    assert d in days <==> IsWritten(batch, z, d);
    assert d - 1 in days <==> IsWritten(batch, z, d - 1);
    hide IsWritten, DaysOf;
    var nexts := set e | e in days :: e + 1;
    if d - 1 in days { assert (d - 1) + 1 in nexts; }
    assert d in nexts ==> d - 1 in days;
  }

  /** Shortly after midnight a write completes yesterday. */
  lemma YesterdayIsOver(z: Zone, now: int)
    requires ValidZone(z)
    ensures now >= z.start(z.dayOf(now) - 1 + 1)
  {
    assert Within(z, now, z.dayOf(now));
  }

  /** Outside `days` the two yield tables agree. */
  ghost predicate SameOutside(y: Yields, y': Yields, days: set<int>) {
    forall d | d !in days :: (d in y <==> d in y') && (d in y ==> y[d] == y'[d])
  }

  lemma CoherentElsewhere(s: Samples, y: Yields, y': Yields, z: Zone, day: int)
    requires SameOutside(y, y', {day})
    ensures forall d | d != day :: Coherent(s, y, z, d) <==> Coherent(s, y', z, d)
    ensures forall d, now | d != day :: Flagged(y, z, d, now) <==> Flagged(y', z, d, now)
  {
    hide FullYield;
  }

  class EnergyStore {
    var samples: Samples
    var stored: Yields

    /** Recomputes one day in one transaction; an overflowing difference changes nothing. */
    method RecomputeDailyYield(z: Zone, day: int, now: int) returns (r: Result<Status>)
      modifies this`stored
      ensures r.Success? ==> Coherent(samples, stored, z, day)
      ensures r.Success? ==>
                Flagged(stored, z, day, now) && IsStatus(r.value, samples, z, day, now)
      ensures SameOutside(old(stored), stored, {day})
      ensures r.Failure? ==> stored == old(stored) && FullYield(samples, z, day).Some?
                             && !IsI64(FullYield(samples, z, day).value.daily)
    {
      var baseline := BaselineBefore(samples, z, day);
      var total := TotalOn(samples, z, day);
      if total.None? || baseline.None? {
        stored := stored - {day};
        return Success(Missing);
      }
      var daily := total.value - baseline.value;
      if !IsI64(daily) { return Failure; }
      stored := stored[day := YieldRow(Yield(total.value, daily), now >= z.start(day + 1))];
      r := Success(if now >= z.start(day + 1) then Rebuilt else Incomplete);
    }

    /** Writes the samples one by one, then recomputes the affected days. */
    method WriteEnergySamples(z: Zone, batch: seq<Reading>, now: int) returns (r: Result<()>)
      modifies this
      ensures samples == UpsertAll(old(samples), batch)
      ensures r.Success? ==>
                forall d | d in Affected(batch, z, now) :: Coherent(samples, stored, z, d) && Flagged(stored, z, d, now)
      ensures r.Success? && ValidZone(z) && z.dayOf(now) - 1 in stored ==> stored[z.dayOf(now) - 1].complete
      ensures SameOutside(old(stored), stored, Affected(batch, z, now))
      ensures r.Failure? ==> exists d :: d in Affected(batch, z, now) && FullYield(samples, z, d).Some?
                                         && !IsI64(FullYield(samples, z, d).value.daily)
    {
      for i := 0 to |batch|
        invariant samples == UpsertAll(old(samples), batch[..i]) && stored == old(stored)
      {
        assert batch[..i + 1][..i] == batch[..i];
        samples := Upsert(samples, batch[i]);
      }
      assert batch[..|batch|] == batch;
      var affected := Affected(batch, z, now);
      r := RecomputeAffected(z, affected, now);
      AffectedDays(batch, z, now, z.dayOf(now) - 1);
      if ValidZone(z) { YesterdayIsOver(z, now); }
    }

    method RecomputeAffected(z: Zone, affected: set<int>, now: int) returns (r: Result<()>)
      modifies this`stored
      ensures r.Success? ==> forall d | d in affected :: Coherent(samples, stored, z, d) && Flagged(stored, z, d, now)
      ensures SameOutside(old(stored), stored, affected)
      ensures r.Failure? ==> exists d :: d in affected && FullYield(samples, z, d).Some?
                                         && !IsI64(FullYield(samples, z, d).value.daily)
    {
      hide FullYield, Coherent, Flagged;
      var remaining := affected;
      while remaining != {}
        invariant remaining <= affected
        invariant forall d | d in affected - remaining :: Coherent(samples, stored, z, d) && Flagged(stored, z, d, now)
        invariant SameOutside(old(stored), stored, affected)
      {
        MemberExists(remaining);
        var d :| d in remaining;
        ghost var before := stored;
        var done := RecomputeDailyYield(z, d, now);
        if done.Failure? { return Failure; }
        CoherentElsewhere(samples, before, stored, z, d);
        remaining := remaining - {d};
      }
      r := Success(());
    }

    /** The rebuild command: recomputes the days from `start` to before `end`, in order, and reports each. */
    method RebuildDailyYields(z: Zone, start: int, end: int, now: int) returns (r: Result<seq<Status>>)
      modifies this`stored
      ensures start >= end ==> r.Failure? && stored == old(stored)
      ensures r.Success? ==>
                |r.value| == end - start && forall d | start <= d < end ::
                  Coherent(samples, stored, z, d) && Flagged(stored, z, d, now) && IsStatus(r.value[d - start], samples, z, d, now)
      ensures forall d | d < start || d >= end ::
                (d in stored <==> d in old(stored)) && (d in stored ==> stored[d] == old(stored)[d])
      ensures r.Failure? && start < end ==>
                exists d :: start <= d < end && FullYield(samples, z, d).Some? && !IsI64(FullYield(samples, z, d).value.daily)
    {
      if start >= end { return Failure; }
      hide FullYield, Coherent, Flagged, IsStatus;
      var day, rebuilt := start, [];
      while day < end
        invariant start <= day <= end && |rebuilt| == day - start
        invariant forall d | start <= d < day ::
                    && Coherent(samples, stored, z, d) && Flagged(stored, z, d, now)
                    && IsStatus(rebuilt[d - start], samples, z, d, now)
        invariant forall d | d < start || d >= day ::
                    (d in stored <==> d in old(stored)) && (d in stored ==> stored[d] == old(stored)[d])
      {
        ghost var before := stored;
        var done := RecomputeDailyYield(z, day, now);
        if done.Failure? {
          assert start <= day < end && FullYield(samples, z, day).Some?;
          return Failure;
        }
        CoherentElsewhere(samples, before, stored, z, day);
        rebuilt := rebuilt + [done.value];
        day := day + 1;
      }
      r := Success(rebuilt);
    }
  }

  // ---------------------------------------------------------------- when coherence survives a write

  lemma {:induction false} StartsIncrease(z: Zone, a: int, b: int)
    requires ValidZone(z) && a <= b
    ensures z.start(a) <= z.start(b)
    decreases b - a
  {
    if a < b {
      StartsIncrease(z, a, b - 1);
      assert z.start(b - 1) < z.start(b - 1 + 1);
    }
  }

  /** An instant lies before a day's start exactly when its own day is earlier. */
  lemma BeforeDay(z: Zone, t: int, d: int)
    requires ValidZone(z)
    ensures t < z.start(d) <==> z.dayOf(t) < d
  {
    var e := z.dayOf(t);
    assert Within(z, t, e);
    if e < d { StartsIncrease(z, e + 1, d); } else { StartsIncrease(z, d, e); }
  }

  lemma OnDay(z: Zone, t: int, d: int)
    requires ValidZone(z)
    ensures z.start(d) <= t < z.start(d + 1) <==> z.dayOf(t) == d
  {
    assert Within(z, t, d) <==> z.dayOf(t) == d;
  }

  lemma LatestIsUnique(s: Samples, lo: Cell, hi: int, t: int)
    requires IsLatest(s, lo, hi, t)
    ensures LatestAt(s, lo, hi) == Some(t)
  {
    var r := LatestAt(s, lo, hi);
    assert r.Some?;
  }

  /** The batch's last reading for instant `t`, if it writes there. */
  function Written(batch: seq<Reading>, t: int): Option<Reading> {
    if batch == [] then None
    else if batch[|batch| - 1].at == t then Some(batch[|batch| - 1])
    else Written(batch[..|batch| - 1], t)
  }

  lemma {:induction false} UpsertAllAt(s: Samples, batch: seq<Reading>, t: int)
    ensures var n, w := UpsertAll(s, batch), Written(batch, t);
            if w.Some? then t in n && n[t] == Sample(Some(w.value.total), Some(w.value.power))
            else (t in n <==> t in s) && (t in n ==> n[t] == s[t])
    ensures Written(batch, t).Some? <==> exists i :: 0 <= i < |batch| && batch[i].at == t
  {
    if batch != [] {
      var front := batch[..|batch| - 1];
      UpsertAllAt(s, front, t);
      assert batch[|batch| - 1].at == t ==> exists i :: 0 <= i < |batch| && batch[i].at == t;
      forall i | 0 <= i < |front| && front[i].at == t
        ensures batch[i].at == t
      {
      }
    }
  }

  lemma WrittenDay(batch: seq<Reading>, z: Zone, t: int)
    requires Written(batch, t).Some?
    ensures z.dayOf(t) in DaysOf(batch, z)
  {
    UpsertAllAt(map[], batch, t);
    var i :| 0 <= i < |batch| && batch[i].at == t;
  }

  /** The instant of the batch's latest reading before day `d`. */
  function LatestWritten(batch: seq<Reading>, z: Zone, d: int): Cell {
    LatestAt(UpsertAll(map[], batch), None, z.start(d))
  }

  /**
   The batch leaves the baseline of day `d` alone: it writes nothing before the day, or only
   before the instant that now supplies the baseline, or the very value stored as the baseline.
   Decidable before the write from the stored samples and the batch.
   */
  predicate KeepsBaseline(s: Samples, batch: seq<Reading>, z: Zone, d: int) {
    var before, written := LatestAt(s, None, z.start(d)), LatestWritten(batch, z, d);
    || written.None?
    || (before.Some? && written.value < before.value)
    || (before.Some? && UpsertAll(map[], batch)[written.value].total == s[before.value].total)
  }

  lemma BatchTotals(s: Samples, batch: seq<Reading>, t: int)
    ensures HasTotal(UpsertAll(map[], batch), t) <==> Written(batch, t).Some?
    ensures HasTotal(UpsertAll(s, batch), t) <==> Written(batch, t).Some? || HasTotal(s, t)
    ensures Written(batch, t).Some? ==> UpsertAll(s, batch)[t] == UpsertAll(map[], batch)[t]
    ensures Written(batch, t).None? && HasTotal(s, t) ==> UpsertAll(s, batch)[t] == s[t]
  {
    UpsertAllAt(map[], batch, t);
    UpsertAllAt(s, batch, t);
  }

  /** The baseline after the write comes from the later of the stored and the written latest totals. */
  lemma BaselineAfterWrite(s: Samples, batch: seq<Reading>, z: Zone, d: int)
    ensures var n, before, written := UpsertAll(s, batch), LatestAt(s, None, z.start(d)), LatestWritten(batch, z, d);
            BaselineBefore(n, z, d) ==
            if written.Some? && (before.None? || before.value <= written.value)
            then UpsertAll(map[], batch)[written.value].total
            else BaselineBefore(s, z, d)
  {
    var n, hi := UpsertAll(s, batch), z.start(d);
    var before, written := LatestAt(s, None, hi), LatestWritten(batch, z, d);
    forall t
      ensures HasTotal(n, t) <==> HasTotal(UpsertAll(map[], batch), t) || HasTotal(s, t)
    {
      BatchTotals(s, batch, t);
    }
    if written.Some? && (before.None? || before.value <= written.value) {
      BatchTotals(s, batch, written.value);
      LatestIsUnique(n, None, hi, written.value);
    } else if before.Some? {
      BatchTotals(s, batch, before.value);
      LatestIsUnique(n, None, hi, before.value);
    }
  }

  lemma BaselineKeptExactlyWhen(s: Samples, batch: seq<Reading>, z: Zone, d: int)
    ensures BaselineBefore(UpsertAll(s, batch), z, d) == BaselineBefore(s, z, d) <==> KeepsBaseline(s, batch, z, d)
  {
    BaselineAfterWrite(s, batch, z, d);
    var written := LatestWritten(batch, z, d);
    if written.Some? { BatchTotals(map[], batch, written.value); UpsertAllAt(map[], batch, written.value); }
  }

  /** A day without a written sample keeps its own total. */
  lemma UnwrittenDayKeepsTotal(s: Samples, batch: seq<Reading>, z: Zone, d: int)
    requires ValidZone(z) && d !in DaysOf(batch, z)
    ensures TotalOn(UpsertAll(s, batch), z, d) == TotalOn(s, z, d)
  {
    var n, lo, hi := UpsertAll(s, batch), Some(z.start(d)), z.start(d + 1);
    forall t | z.start(d) <= t < hi
      ensures HasTotal(n, t) <==> HasTotal(s, t)
      ensures HasTotal(s, t) ==> n[t] == s[t]
    {
      OnDay(z, t, d);
      BatchTotals(s, batch, t);
      if Written(batch, t).Some? { WrittenDay(batch, z, t); }
    }
    var r := LatestAt(s, lo, hi);
    if r.Some? { LatestIsUnique(n, lo, hi, r.value); }
  }

  /** No day outside the recomputed ones that holds a total gets another baseline. */
  predicate BackfillSafeOn(s: Samples, batch: seq<Reading>, z: Zone, now: int, d: int) {
    d in Affected(batch, z, now) || TotalOn(s, z, d).None? || KeepsBaseline(s, batch, z, d)
  }

  /** An untouched day has the same full yield as before exactly when the write is safe for it. */
  lemma FullYieldKeptExactlyWhen(s: Samples, batch: seq<Reading>, z: Zone, now: int, d: int)
    requires ValidZone(z) && d !in Affected(batch, z, now)
    ensures FullYield(UpsertAll(s, batch), z, d) == FullYield(s, z, d) <==> BackfillSafeOn(s, batch, z, now, d)
  {
    hide BaselineBefore, TotalOn, KeepsBaseline, UpsertAll, DaysOf, ValidZone;
    UnwrittenDayKeepsTotal(s, batch, z, d);
    BaselineKeptExactlyWhen(s, batch, z, d);
  }

  /** What a successful `WriteEnergySamples` does, in terms of states. */
  ghost predicate WriteStep(z: Zone, batch: seq<Reading>, now: int, s: Samples, y: Yields, s': Samples, y': Yields) {
    && s' == UpsertAll(s, batch)
    && (forall d | d in Affected(batch, z, now) :: Coherent(s', y', z, d) && Flagged(y', z, d, now))
    && SameOutside(y, y', Affected(batch, z, now))
  }

  /**
   A write keeps a coherent day coherent exactly when it is safe for that day: a day that is not
   recomputed, holds a total and gets another baseline is the whole failing family.
   */
  lemma CoherenceKeptExactlyWhen(z: Zone, batch: seq<Reading>, now: int, s: Samples, y: Yields, s': Samples, y': Yields, d: int)
    requires ValidZone(z) && WriteStep(z, batch, now, s, y, s', y') && Coherent(s, y, z, d)
    ensures Coherent(s', y', z, d) <==> BackfillSafeOn(s, batch, z, now, d)
  {
    if d !in Affected(batch, z, now) {
      FullYieldKeptExactlyWhen(s, batch, z, now, d);
    }
  }

  /** Each written day is followed directly by a day holding a total, or by no later total at all. */
  ghost predicate NoGapAfterWrites(s: Samples, batch: seq<Reading>, z: Zone) {
    forall w | w in DaysOf(batch, z) ::
      || TotalOn(UpsertAll(s, batch), z, w + 1).Some?
      || forall d | d > w :: TotalOn(UpsertAll(s, batch), z, d).None?
  }

  /** A total on the day after a written day, itself not written, is a stored total after the write. */
  lemma UnwrittenNextDay(s: Samples, batch: seq<Reading>, z: Zone, t: int, d: int)
    requires ValidZone(z) && LatestWritten(batch, z, d) == Some(t)
    requires z.dayOf(t) + 1 < d && TotalOn(UpsertAll(s, batch), z, z.dayOf(t) + 1).Some?
    ensures KeepsBaseline(s, batch, z, d)
  {
    var n, next := UpsertAll(s, batch), z.dayOf(t) + 1;
    var u := LatestAt(n, Some(z.start(next)), z.start(next + 1)).value;
    OnDay(z, u, next);
    BeforeDay(z, u, d);
    BeforeDay(z, t, next);
    BatchTotals(s, batch, u);
    var before := LatestAt(s, None, z.start(d));
    assert HasTotal(s, u);
  }

  /** Writes that leave no gap behind them are safe for every day. */
  lemma NoGapIsSafe(s: Samples, batch: seq<Reading>, z: Zone, now: int, d: int)
    requires ValidZone(z) && NoGapAfterWrites(s, batch, z)
    ensures BackfillSafeOn(s, batch, z, now, d)
  {
    hide TotalOn, KeepsBaseline, UpsertAll, ValidZone;
    var written := LatestWritten(batch, z, d);
    if written.None? {
      NothingWrittenKeepsBaseline(s, batch, z, d);
    } else if d !in Affected(batch, z, now) && TotalOn(s, z, d).Some? {
      var t := written.value;
      BatchTotals(s, batch, t);
      WrittenDay(batch, z, t);
      BeforeDay(z, t, d);
      UnwrittenDayKeepsTotal(s, batch, z, d);
      UnwrittenNextDay(s, batch, z, t, d);
    }
  }

  lemma NothingWrittenKeepsBaseline(s: Samples, batch: seq<Reading>, z: Zone, d: int)
    requires LatestWritten(batch, z, d).None?
    ensures KeepsBaseline(s, batch, z, d)
  {
  }

  /** Back-filling a day that an empty day follows leaves the next sampled day with its old baseline. */
  lemma BackfillBeforeEmptyDayGoesStale()
    ensures var z := Zone(d => 10 * d, t => t / 10);
            var s: Samples := map[5 := Sample(Some(100), None), 45 := Sample(Some(400), None)];
            var batch := [Reading(15, 200, 0)];
            && ValidZone(z)
            && Coherent(s, map[4 := YieldRow(Yield(400, 300), true)], z, 4)
            && FullYield(UpsertAll(s, batch), z, 4) == Some(Yield(400, 200))
            && !BackfillSafeOn(s, batch, z, 1000, 4)
  {
    var z := Zone(d => 10 * d, t => t / 10);
    var s: Samples := map[5 := Sample(Some(100), None), 45 := Sample(Some(400), None)];
    var batch := [Reading(15, 200, 0)];
    var n := UpsertAll(s, batch);
    assert batch[..0] == [];
    assert n == s[15 := Sample(Some(200), Some(0))];
    LatestIsUnique(s, None, 40, 5);
    LatestIsUnique(s, Some(40), 50, 45);
    LatestIsUnique(n, None, 40, 15);
    LatestIsUnique(n, Some(40), 50, 45);
    assert DaysOf(batch, z) == {1} by { assert z.dayOf(batch[0].at) == 1; }
    assert 4 !in Affected(batch, z, 1000);
    FullYieldKeptExactlyWhen(s, batch, z, 1000, 4);
  }

  // ---------------------------------------------------------------- the completeness flag

  /** After a write a day's flag says whether it is over if and only if the write recomputed it or it said so before. */
  lemma FlaggedExactlyWhen(z: Zone, batch: seq<Reading>, now: int, s: Samples, y: Yields, s': Samples, y': Yields, d: int)
    requires WriteStep(z, batch, now, s, y, s', y')
    ensures Flagged(y', z, d, now) <==> d in Affected(batch, z, now) || Flagged(y, z, d, now)
  {
    hide Affected, Coherent;
    assert d !in Affected(batch, z, now) ==> (d in y <==> d in y') && (d in y ==> y[d] == y'[d]);
  }

  /**
   A day last written before its end, with no write on the day after it: a write two days later does
   not recompute it, and it stays incomplete.
   */
  lemma MissedDayStaysIncomplete(y': Yields)
    requires var z := Zone(d => 10 * d, t => t / 10);
             var s: Samples := map[5 := Sample(Some(100), None), 15 := Sample(Some(200), None)];
             WriteStep(z, [Reading(35, 300, 0)], 36, s, map[1 := YieldRow(Yield(200, 100), false)],
                       UpsertAll(s, [Reading(35, 300, 0)]), y')
    ensures 1 in y' && !y'[1].complete && 36 >= 20
  {
    var z := Zone(d => 10 * d, t => t / 10);
    var batch := [Reading(35, 300, 0)];
    AffectedDays(batch, z, 36, 1);
    assert z.dayOf(36) == 3 && z.dayOf(batch[0].at) == 3;
    hide Affected, Coherent, UpsertAll;
  }
}
