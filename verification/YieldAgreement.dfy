/**
 The migrator's accumulator against the live recomputation of a daily yield, on the same samples
 of one inverter.
 */
module YieldAgreement {
  import opened Wrappers
  import opened Keyset
  import opened Canonical
  import R = DailyYieldRebuild
  import L = DailyYields

  /** The samples of one inverter as live storage keeps them. */
  function Live(s: seq<R.Sample>, inverter: int): L.Samples {
    if s == [] then map[]
    else
      var x, rest := s[|s| - 1], Live(s[..|s| - 1], inverter);
      if x.inverter == inverter then rest[x.at := L.Sample(x.total, None)] else rest
  }

  /** The last total of any sign recorded on an earlier day, or on the day itself. */
  function LastBefore(s: seq<R.Sample>, dateOf: int -> int, inverter: int, date: int): Cell {
    if s == [] then None
    else
      var x := s[|s| - 1];
      if x.inverter == inverter && dateOf(x.at) < date && x.total.Some? then x.total
      else LastBefore(s[..|s| - 1], dateOf, inverter, date)
  }

  function LastOn(s: seq<R.Sample>, dateOf: int -> int, inverter: int, date: int): Cell {
    if s == [] then None
    else
      var x := s[|s| - 1];
      if x.inverter == inverter && dateOf(x.at) == date && x.total.Some? then x.total
      else LastOn(s[..|s| - 1], dateOf, inverter, date)
  }

  lemma {:induction false} LiveKeys(s: seq<R.Sample>, inverter: int, bound: int)
    requires forall i | 0 <= i < |s| && s[i].inverter == inverter :: s[i].at < bound
    ensures forall t | t in Live(s, inverter) :: t < bound
  {
    if s != [] { LiveKeys(s[..|s| - 1], inverter, bound); }
  }

  lemma LiveStep(s: seq<R.Sample>, inverter: int)
    requires Ascending(s, R.SampleOrder) && s != []
    ensures var x, front := s[|s| - 1], s[..|s| - 1];
            Ascending(front, R.SampleOrder) &&
            (x.inverter == inverter ==> forall t | t in Live(front, inverter) :: t < x.at)
  {
    var x, front := s[|s| - 1], s[..|s| - 1];
    forall i | 0 <= i < |front| && front[i].inverter == x.inverter
      ensures front[i].at < x.at
    {
      assert Less(R.SampleOrder(s[i]), R.SampleOrder(s[|s| - 1]));
    }
    if x.inverter == inverter { LiveKeys(front, inverter, x.at); }
  }

  /** Adding a later sample outside the window, or without a total, does not change the latest total. */
  lemma LatestIgnores(m: L.Samples, at: int, sample: L.Sample, lo: Cell, hi: int)
    requires forall t | t in m :: t < at
    requires sample.total.None? || at >= hi || (lo.Some? && at < lo.value)
    ensures L.LatestTotal(m[at := sample], lo, hi) == L.LatestTotal(m, lo, hi)
  {
    var n, r := m[at := sample], L.LatestAt(m, lo, hi);
    assert forall u | L.HasTotal(n, u) && u < hi && (lo.Some? ==> lo.value <= u) :: u != at && L.HasTotal(m, u);
    if r.Some? {
      L.LatestIsUnique(n, lo, hi, r.value);
    } else {
      assert L.LatestAt(n, lo, hi).None?;
    }
  }

  lemma LatestTakes(m: L.Samples, at: int, sample: L.Sample, lo: Cell, hi: int)
    requires forall t | t in m :: t < at
    requires sample.total.Some? && at < hi && (lo.Some? ==> lo.value <= at)
    ensures L.LatestTotal(m[at := sample], lo, hi) == sample.total
  {
    L.LatestIsUnique(m[at := sample], lo, hi, at);
  }

  lemma {:induction false} LiveReadsLast(s: seq<R.Sample>, z: L.Zone, inverter: int, date: int)
    requires Ascending(s, R.SampleOrder) && L.ValidZone(z)
    ensures L.BaselineBefore(Live(s, inverter), z, date) == LastBefore(s, z.dayOf, inverter, date)
    ensures L.TotalOn(Live(s, inverter), z, date) == LastOn(s, z.dayOf, inverter, date)
  {
    if s != [] {
      var x, front := s[|s| - 1], s[..|s| - 1];
      var m, sample := Live(front, inverter), L.Sample(x.total, None);
      var start, end := z.start(date), z.start(date + 1);
      LiveStep(s, inverter);
      LiveReadsLast(front, z, inverter, date);
      L.BeforeDay(z, x.at, date);
      L.BeforeDay(z, x.at, date + 1);
      if x.inverter == inverter {
        if x.total.Some? && x.at < start { LatestTakes(m, x.at, sample, None, start); }
        else { LatestIgnores(m, x.at, sample, None, start); }
        if x.total.Some? && start <= x.at < end { LatestTakes(m, x.at, sample, Some(start), end); }
        else { LatestIgnores(m, x.at, sample, Some(start), end); }
      }
    }
  }

  lemma {:induction false} ValidLastIsBaseline(s: seq<R.Sample>, dateOf: int -> int, inverter: int, date: int)
    ensures var b := LastBefore(s, dateOf, inverter, date);
            b.None? || b.value >= 0 ==> R.Baseline(s, dateOf, inverter, date) == b
  {
    if s != [] { ValidLastIsBaseline(s[..|s| - 1], dateOf, inverter, date); }
  }

  lemma {:induction false} HighLastIsAccepted(s: seq<R.Sample>, dateOf: int -> int, inverter: int, date: int, floor: nat)
    ensures var t := LastOn(s, dateOf, inverter, date);
            t.None? || t.value >= floor ==> R.LastInDay(s, dateOf, inverter, date, floor) == t
    ensures LastOn(s, dateOf, inverter, date).Some? ==> R.IsSampled(s, dateOf, inverter, date)
  {
    if s != [] {
      var front := s[..|s| - 1];
      HighLastIsAccepted(front, dateOf, inverter, date, floor);
      if R.IsSampled(front, dateOf, inverter, date) {
        var i :| 0 <= i < |front| && front[i].inverter == inverter && dateOf(front[i].at) == date;
        assert s[i] == front[i];
      }
      assert LastOn(s, dateOf, inverter, date).Some? ==>
             LastOn(front, dateOf, inverter, date).Some? || dateOf(s[|s| - 1].at) == date;
    }
  }

  /** Both algorithms miss the day, or both store the same total and the same daily energy. */
  predicate Agree(live: Option<L.Yield>, migrated: R.Outcome) {
    match live
    case None => !migrated.Rebuilt?
    case Some(y) => migrated == R.Rebuilt(y.total, y.daily)
  }

  /**
   On a day that was not copied the two algorithms agree exactly when live storage finds no yield,
   or the last total before the day is not negative and the day's last total does not fall below it.
   */
  lemma AgreeExactlyWhen(s: seq<R.Sample>, z: L.Zone, copied: set<DayKey>, day: R.DayId)
    requires R.ValidSamples(s) && L.ValidZone(z) && DayKey(day.serial, day.date) !in copied
    ensures var before, total := LastBefore(s, z.dayOf, day.inverter, day.date), LastOn(s, z.dayOf, day.inverter, day.date);
            Agree(L.FullYield(Live(s, day.inverter), z, day.date), R.OutcomeOf(s, z.dayOf, copied, day)) <==>
            before.None? || total.None? || 0 <= before.value <= total.value
  {
    var v, d := day.inverter, day.date;
    var before, total := LastBefore(s, z.dayOf, v, d), LastOn(s, z.dayOf, v, d);
    LiveReadsLast(s, z, v, d);
    ValidLastIsBaseline(s, z.dayOf, v, d);
    R.BaselineIsValid(s, z.dayOf, v, d);
    var baseline := R.Baseline(s, z.dayOf, v, d);
    if baseline.Some? {
      HighLastIsAccepted(s, z.dayOf, v, d, baseline.value);
      R.LastInDayBounds(s, z.dayOf, v, d, baseline.value);
    }
  }

  /** The days of UTC. */
  function Utc(): (z: L.Zone)
    ensures L.ValidZone(z)
  {
    L.Zone(d => d * 86400, t => t / 86400)
  }

  /** Two samples of one inverter, an hour into two successive days. */
  function TwoDays(first: int, second: int): seq<R.Sample> {
    [R.Sample(1, 7, 3600, Some(first)), R.Sample(1, 7, 90000, Some(second))]
  }

  lemma TwoDaysRead(first: int, second: int)
    ensures var s := TwoDays(first, second);
            && LastBefore(s, Utc().dayOf, 1, 1) == Some(first) && LastOn(s, Utc().dayOf, 1, 1) == Some(second)
            && R.Baseline(s, Utc().dayOf, 1, 1) == (if first < 0 then None else Some(first))
            && R.IsSampled(s, Utc().dayOf, 1, 1)
  {
    var s := TwoDays(first, second);
    var one := s[..1];
    assert s[1].at / 86400 == 1 && one == [s[0]] && s[0].at / 86400 == 0 && one[..0] == [];
    assert LastBefore(one, Utc().dayOf, 1, 1) == Some(first);
    assert R.Baseline(one[..0], Utc().dayOf, 1, 1) == None;
    assert R.Baseline(one, Utc().dayOf, 1, 1) == if first < 0 then None else Some(first);
  }

  lemma NothingAccepted(first: int, second: int)
    requires 0 <= first && second < first
    ensures R.LastInDay(TwoDays(first, second), Utc().dayOf, 1, 1, first) == None
  {
    var s := TwoDays(first, second);
    var one := s[..1];
    assert one == [s[0]] && s[0].at / 86400 == 0 && one[..0] == [];
    assert R.LastInDay(one[..0], Utc().dayOf, 1, 1, first) == None;
    assert R.LastInDay(one, Utc().dayOf, 1, 1, first) == None;
  }

  /**
   The second total falls below the first, or the first is negative: live storage keeps a daily
   energy, negative when the total fell, and the migrator reports the day missing.
   */
  lemma FallingTotalDisagrees(first: int, second: int)
    requires first < 0 || second < first
    ensures var s := TwoDays(first, second);
            var live := L.FullYield(Live(s, 1), Utc(), 1);
            var migrated := R.OutcomeOf(s, Utc().dayOf, {}, R.DayId(1, 7, 1));
            && R.ValidSamples(s) && live == Some(L.Yield(second, second - first))
            && migrated == R.Missing(if first < 0 then R.NoBaseline else R.NoAcceptedTotal)
            && !Agree(live, migrated)
  {
    TwoDaysRead(first, second);
    if first >= 0 { NothingAccepted(first, second); }
    LiveReadsLast(TwoDays(first, second), Utc(), 1, 1);
    hide Utc, Live, LastBefore, LastOn, R.Baseline, R.LastInDay, R.IsSampled, L.BaselineBefore, L.TotalOn;
  }

  /** An inverter's counter: never negative, never falling. */
  ghost predicate Counter(s: seq<R.Sample>, inverter: int) {
    && (forall i | 0 <= i < |s| && s[i].inverter == inverter && s[i].total.Some? :: s[i].total.value >= 0)
    && (forall i, j | 0 <= i < j < |s| && s[i].inverter == inverter && s[j].inverter == inverter
                      && s[i].total.Some? && s[j].total.Some? :: s[i].total.value <= s[j].total.value)
  }

  lemma {:induction false} LastTotalsInOrder(s: seq<R.Sample>, dateOf: int -> int, inverter: int, date: int)
    requires Counter(s, inverter) && Ascending(s, R.SampleOrder) && R.Monotone(dateOf)
    ensures var before, total := LastBefore(s, dateOf, inverter, date), LastOn(s, dateOf, inverter, date);
            && (before.Some? ==> exists i :: 0 <= i < |s| && s[i].inverter == inverter && s[i].total == before)
            && (before.Some? ==> 0 <= before.value)
            && (before.Some? && total.Some? ==> before.value <= total.value)
  {
    if s != [] {
      var x, front := s[|s| - 1], s[..|s| - 1];
      LastTotalsInOrder(front, dateOf, inverter, date);
      var before := LastBefore(front, dateOf, inverter, date);
      if before.Some? {
        var i :| 0 <= i < |front| && front[i].inverter == inverter && front[i].total == before;
        assert s[i] == front[i];
      }
      if x.inverter == inverter && dateOf(x.at) < date && x.total.Some? {
        assert s[|s| - 1].total == x.total;
        NothingOnDay(front, dateOf, inverter, date, x);
      }
    }
  }

  lemma {:induction false} NothingOnDay(s: seq<R.Sample>, dateOf: int -> int, inverter: int, date: int, x: R.Sample)
    requires Ascending(s + [x], R.SampleOrder) && R.Monotone(dateOf) && x.inverter == inverter && dateOf(x.at) < date
    ensures LastOn(s, dateOf, inverter, date).None?
  {
    if s != [] {
      var front, y := s[..|s| - 1], s[|s| - 1];
      assert (s + [x])[|s| - 1] == y && (s + [x])[|s|] == x;
      assert Less(R.SampleOrder(y), R.SampleOrder(x));
      forall i, j | 0 <= i < j < |front + [x]|
        ensures Less(R.SampleOrder((front + [x])[i]), R.SampleOrder((front + [x])[j]))
      {
        assert (s + [x])[i] == (front + [x])[i];
        if j == |front| { assert (s + [x])[|s|] == x; } else { assert (s + [x])[j] == front[j]; }
      }
      NothingOnDay(front, dateOf, inverter, date, x);
    }
  }

  /** On counters that never fall, every day that was not copied comes out the same. */
  lemma CountersAgree(s: seq<R.Sample>, z: L.Zone, copied: set<DayKey>, day: R.DayId)
    requires R.ValidSamples(s) && L.ValidZone(z) && DayKey(day.serial, day.date) !in copied
    requires Counter(s, day.inverter)
    ensures Agree(L.FullYield(Live(s, day.inverter), z, day.date), R.OutcomeOf(s, z.dayOf, copied, day))
  {
    forall t, u | t <= u
      ensures z.dayOf(t) <= z.dayOf(u)
    {
      L.BeforeDay(z, u, z.dayOf(t));
      L.BeforeDay(z, t, z.dayOf(t));
    }
    AgreeExactlyWhen(s, z, copied, day);
    LastTotalsInOrder(s, z.dayOf, day.inverter, day.date);
  }
}
